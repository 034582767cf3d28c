/// What the encoder of one feature emits, stated over the functions of
/// module `Features`: which ids it allocates, which members a multipolygon
/// relation lists, and when encoding fails.
module FeatureFacts {

  import opened Seqs
  import opened Elements
  import opened Ids
  import opened Rings
  import opened Features
  import opened Allocation

  /** The ids the members refer to, in member order. */
  function Refs(ms: seq<Member>): (refs: seq<int>)
    ensures |refs| == |ms|
    ensures forall i :: 0 <= i < |ms| ==> refs[i] == ms[i].ref
  {
    seq(|ms|, i requires 0 <= i < |ms| => ms[i].ref)
  }

  /** The members' roles, in member order. */
  function Roles(ms: seq<Member>): (roles: seq<Role>)
    ensures |roles| == |ms|
    ensures forall i :: 0 <= i < |ms| ==> roles[i] == ms[i].role
  {
    seq(|ms|, i requires 0 <= i < |ms| => ms[i].role)
  }

  predicate AllWays(ms: seq<Member>) {
    forall i :: 0 <= i < |ms| ==> ms[i].kind == WayKind
  }

  lemma MembersAppend(m1: seq<Member>, m2: seq<Member>)
    ensures Refs(m1 + m2) == Refs(m1) + Refs(m2)
    ensures Roles(m1 + m2) == Roles(m1) + Roles(m2)
    ensures AllWays(m1) && AllWays(m2) ==> AllWays(m1 + m2)
  {
    assert forall i :: 0 <= i < |m2| ==> (m1 + m2)[|m1| + i] == m2[i];
  }

  /** `n` inner roles. */
  function Inners(n: nat): (roles: seq<Role>)
    ensures |roles| == n
    ensures forall i :: 0 <= i < n ==> roles[i] == Inner
    ensures multiset(roles)[Inner] == n && multiset(roles)[Outer] == 0 && multiset(roles)[Part] == 0
  {
    if n == 0 then [] else [Inner] + Inners(n - 1)
  }

  /** The roles of a multipolygon relation over `comps`: for each
      component in order, `outer` and then one `inner` per interior ring. */
  function ExpectedRoles(comps: seq<Polygon>): seq<Role>
    decreases |comps|
  {
    if comps == [] then [] else [Outer] + Inners(|comps[0].interiors|) + ExpectedRoles(comps[1..])
  }

  function TotalHoles(comps: seq<Polygon>): nat
    decreases |comps|
  {
    if comps == [] then 0 else |comps[0].interiors| + TotalHoles(comps[1..])
  }

  /** k components with h holes in all give k `outer` and h `inner` roles,
      and nothing else. */
  lemma {:induction false} RoleCounts(comps: seq<Polygon>)
    ensures |ExpectedRoles(comps)| == |comps| + TotalHoles(comps)
    ensures multiset(ExpectedRoles(comps))[Outer] == |comps|
    ensures multiset(ExpectedRoles(comps))[Inner] == TotalHoles(comps)
    ensures multiset(ExpectedRoles(comps))[Part] == 0
    decreases |comps|
  {
    if comps != [] {
      RoleCounts(comps[1..]);
      var head := [Outer] + Inners(|comps[0].interiors|);
      assert multiset(ExpectedRoles(comps)) == multiset(head) + multiset(ExpectedRoles(comps[1..]));
    }
  }

  /** `next` extends `acc`: the elements it adds allocate node ids in
      order, way ids in some order and no relation id; one way id is
      allocated per added member, and the added members are way members
      with roles `roles`, referring to the way ids in allocation order,
      each to a way among the added elements. */
  predicate Grows(acc: Pieces, next: Pieces, roles: seq<Role>) {
    && acc.parts <= next.parts && acc.members <= next.members
    && next.after.rel == acc.after.rel
    && next.after.way == acc.after.way - (|next.members| - |acc.members|)
    && Allocated(next.parts[|acc.parts|..], acc.after, next.after)
    && Roles(next.members[|acc.members|..]) == roles
    && Refs(next.members[|acc.members|..]) == Countdown(acc.after.way, |next.members| - |acc.members|)
    && AllWays(next.members[|acc.members|..])
    && forall i :: |acc.members| <= i < |next.members| ==>
         next.members[i].ref in IdsOf(next.parts[|acc.parts|..], WayKind)
  }

  /** `Grows` from what is appended: elements `parts` and members `members`. */
  lemma GrowsByAppending(acc: Pieces, next: Pieces, parts: seq<Element>, members: seq<Member>, roles: seq<Role>)
    requires next.parts == acc.parts + parts && next.members == acc.members + members
    requires next.after.rel == acc.after.rel && next.after.way == acc.after.way - |members|
    requires Allocated(parts, acc.after, next.after)
    requires Roles(members) == roles && AllWays(members) && Refs(members) == Countdown(acc.after.way, |members|)
    requires forall i :: 0 <= i < |members| ==> members[i].ref in IdsOf(parts, WayKind)
    ensures Grows(acc, next, roles)
  {
    assert next.parts[|acc.parts|..] == parts;
    assert next.members[|acc.members|..] == members;
    forall i | |acc.members| <= i < |next.members|
      ensures next.members[i].ref in IdsOf(parts, WayKind)
    {
      assert next.members[i] == members[i - |acc.members|];
    }
  }

  /** `Grows` read back as what is appended: elements `parts` and members
      `members`. */
  lemma GrowsUnpack(acc: Pieces, next: Pieces, roles: seq<Role>) returns (parts: seq<Element>, members: seq<Member>)
    requires Grows(acc, next, roles)
    ensures next.parts == acc.parts + parts && next.members == acc.members + members
    ensures next.after.rel == acc.after.rel && next.after.way == acc.after.way - |members|
    ensures Allocated(parts, acc.after, next.after)
    ensures Roles(members) == roles && AllWays(members) && Refs(members) == Countdown(acc.after.way, |members|)
    ensures forall i :: 0 <= i < |members| ==> members[i].ref in IdsOf(parts, WayKind)
  {
    parts, members := next.parts[|acc.parts|..], next.members[|acc.members|..];
    forall i | 0 <= i < |members|
      ensures members[i].ref in IdsOf(parts, WayKind)
    {
      assert members[i] == next.members[|acc.members| + i];
    }
  }

  lemma GrowsNothing(acc: Pieces)
    ensures Grows(acc, acc, [])
  {
    assert Allocated([], acc.after, acc.after);
    GrowsByAppending(acc, acc, [], [], []);
  }

  lemma GrowsTrans(a: Pieces, b: Pieces, c: Pieces, r1: seq<Role>, r2: seq<Role>)
    requires Grows(a, b, r1) && Grows(b, c, r2)
    ensures Grows(a, c, r1 + r2)
  {
    var p1, m1 := GrowsUnpack(a, b, r1);
    var p2, m2 := GrowsUnpack(b, c, r2);
    GrowsJoin(a, b.after, c, p1, p2, m1, m2, r1, r2);
  }

  /** `GrowsTrans` once both steps are unpacked. */
  lemma GrowsJoin(a: Pieces, mid: Counters, c: Pieces, p1: seq<Element>, p2: seq<Element>,
                  m1: seq<Member>, m2: seq<Member>, r1: seq<Role>, r2: seq<Role>)
    requires c.parts == a.parts + p1 + p2 && c.members == a.members + m1 + m2
    requires mid.rel == a.after.rel && mid.way == a.after.way - |m1|
    requires c.after.rel == mid.rel && c.after.way == mid.way - |m2|
    requires Allocated(p1, a.after, mid) && Allocated(p2, mid, c.after)
    requires Roles(m1) == r1 && AllWays(m1) && Refs(m1) == Countdown(a.after.way, |m1|)
    requires Roles(m2) == r2 && AllWays(m2) && Refs(m2) == Countdown(mid.way, |m2|)
    requires forall i :: 0 <= i < |m1| ==> m1[i].ref in IdsOf(p1, WayKind)
    requires forall i :: 0 <= i < |m2| ==> m2[i].ref in IdsOf(p2, WayKind)
    ensures Grows(a, c, r1 + r2)
  {
    assert c.parts == a.parts + (p1 + p2) && c.members == a.members + (m1 + m2) by {
      Assoc3(a.parts, p1, p2);
      Assoc3(a.members, m1, m2);
    }
    assert Allocated(p1 + p2, a.after, c.after) by {
      AllocatedConcat(p1, p2, a.after, mid, c.after);
    }
    assert && Roles(m1 + m2) == r1 + r2 && AllWays(m1 + m2) && Refs(m1 + m2) == Countdown(a.after.way, |m1 + m2|)
           && forall i :: 0 <= i < |m1 + m2| ==> (m1 + m2)[i].ref in IdsOf(p1 + p2, WayKind) by {
      MembersJoin(m1, m2, IdsOf(p1, WayKind), IdsOf(p2, WayKind), a.after.way, r1, r2);
      IdsOfAppend(p1, p2, WayKind);
    }
    GrowsByAppending(a, c, p1 + p2, m1 + m2, r1 + r2);
  }

  /** The members two steps add, one after the other. */
  lemma MembersJoin(m1: seq<Member>, m2: seq<Member>, ways1: seq<int>, ways2: seq<int>, way: int, r1: seq<Role>, r2: seq<Role>)
    requires Roles(m1) == r1 && AllWays(m1) && Refs(m1) == Countdown(way, |m1|)
    requires Roles(m2) == r2 && AllWays(m2) && Refs(m2) == Countdown(way - |m1|, |m2|)
    requires forall i :: 0 <= i < |m1| ==> m1[i].ref in ways1
    requires forall i :: 0 <= i < |m2| ==> m2[i].ref in ways2
    ensures Roles(m1 + m2) == r1 + r2 && AllWays(m1 + m2) && Refs(m1 + m2) == Countdown(way, |m1 + m2|)
    ensures forall i :: 0 <= i < |m1 + m2| ==> (m1 + m2)[i].ref in ways1 + ways2
  {
    MembersAppend(m1, m2);
    CountdownSplit(way, |m1|, |m2|);
    forall i | 0 <= i < |m1 + m2|
      ensures (m1 + m2)[i].ref in ways1 + ways2
    {
      if i >= |m1| {
        assert (m1 + m2)[i] == m2[i - |m1|];
      }
    }
  }

  /** The ids of a ring's nodes followed by a way over them. */
  lemma NodesThenWay(nodes: seq<Node>, w: Way)
    ensures IdsOf(NodeElements(nodes) + [WayElement(w)], NodeKind) == NodeIds(nodes)
    ensures IdsOf(NodeElements(nodes) + [WayElement(w)], WayKind) == [w.id]
    ensures IdsOf(NodeElements(nodes) + [WayElement(w)], RelationKind) == []
  {
    IdsOfNodeElements(nodes);
    IdsOfAppend(NodeElements(nodes), [WayElement(w)], NodeKind);
    IdsOfAppend(NodeElements(nodes), [WayElement(w)], WayKind);
    IdsOfAppend(NodeElements(nodes), [WayElement(w)], RelationKind);
  }

  lemma WithInteriorGrows(acc: Pieces, closed: seq<Coord>)
    ensures Grows(acc, WithInterior(acc, closed), [Inner])
  {
    var next := WithInterior(acc, closed);
    var nodes := RingNodes(closed, acc.after.node);
    var w := Way(acc.after.way - 1, NodeIds(nodes), []);
    var parts := NodeElements(nodes) + [WayElement(w)];
    var members := [Member(WayKind, acc.after.way - 1, Inner)];
    assert next.parts == acc.parts + parts;
    NodesThenWay(nodes, w);
    assert Allocated(parts, acc.after, next.after);
    assert Refs(members) == Countdown(acc.after.way, 1);
    GrowsByAppending(acc, next, parts, members, [Inner]);
  }

  lemma {:induction false} AddInteriorsGrows(acc: Pieces, rings: seq<seq<Coord>>)
    requires AddInteriors(acc, rings).Ok?
    ensures Grows(acc, AddInteriors(acc, rings).value, Inners(|rings|))
    decreases |rings|
  {
    if rings == [] {
      GrowsNothing(acc);
    } else {
      AddInteriorsUnfold(acc, rings);
      var next := WithInterior(acc, CloseRing(rings[0]).value);
      assert AddInterior(acc, rings[0]) == Ok(next);
      WithInteriorGrows(acc, CloseRing(rings[0]).value);
      AddInteriorsGrows(next, rings[1..]);
      GrowsTrans(acc, next, AddInteriors(next, rings[1..]).value, [Inner], Inners(|rings| - 1));
    }
  }

  /** A component adds its exterior ring's nodes, then what its holes add,
      then the exterior ring's way; its `outer` member comes first. */
  lemma AddComponentGrows(acc: Pieces, p: Polygon)
    requires AddComponent(acc, p).Ok?
    ensures Grows(acc, AddComponent(acc, p).value, [Outer] + Inners(|p.interiors|))
  {
    var outer := CloseRing(p.exterior).value;
    var mid := WithOuter(acc, outer);
    var done := AddInteriors(mid, p.interiors).value;
    var nodes := RingNodes(outer, acc.after.node);
    var ow := OuterWay(acc, outer);
    assert AddComponent(acc, p).value == done.(parts := done.parts + [ow]);
    assert ow.way.id == acc.after.way - 1;
    AddInteriorsGrows(mid, p.interiors);
    var holeParts, holeMembers := GrowsUnpack(mid, done, Inners(|p.interiors|));
    assert mid.after == Counters(acc.after.node - |nodes|, acc.after.way - 1, acc.after.rel);
    OuterAroundHoles(acc, nodes, ow, done, holeParts, holeMembers, mid.after, |p.interiors|);
  }

  /** The step of `AddComponentGrows` once the exterior ring's `nodes` and
      the holes' `holeParts` and `holeMembers` have been added. */
  lemma OuterAroundHoles(acc: Pieces, nodes: seq<Node>, ow: Element, done: Pieces,
                         holeParts: seq<Element>, holeMembers: seq<Member>, mid: Counters, holes: nat)
    requires NodeIds(nodes) == Countdown(acc.after.node, |nodes|)
    requires ow.WayElement? && ow.way.id == acc.after.way - 1
    requires mid == Counters(acc.after.node - |nodes|, acc.after.way - 1, acc.after.rel)
    requires done.parts == acc.parts + NodeElements(nodes) + holeParts
    requires done.members == acc.members + [Member(WayKind, acc.after.way - 1, Outer)] + holeMembers
    requires done.after.rel == acc.after.rel && done.after.way == acc.after.way - 1 - |holeMembers|
    requires Allocated(holeParts, mid, done.after)
    requires Roles(holeMembers) == Inners(holes) && AllWays(holeMembers)
    requires Refs(holeMembers) == Countdown(acc.after.way - 1, |holeMembers|)
    requires forall i :: 0 <= i < |holeMembers| ==> holeMembers[i].ref in IdsOf(holeParts, WayKind)
    ensures Grows(acc, done.(parts := done.parts + [ow]), [Outer] + Inners(holes))
  {
    var fin := done.(parts := done.parts + [ow]);
    var added := OuterParts(acc, nodes, ow, done, holeParts, mid);
    var members := OuterMembers(acc, done, holeMembers, IdsOf(holeParts, WayKind), holes);
    GrowsByAppending(acc, fin, added, members, [Outer] + Inners(holes));
  }

  /** The elements `OuterAroundHoles` appends, and what they allocate. */
  lemma OuterParts(acc: Pieces, nodes: seq<Node>, ow: Element, done: Pieces, holeParts: seq<Element>, mid: Counters)
    returns (added: seq<Element>)
    requires NodeIds(nodes) == Countdown(acc.after.node, |nodes|)
    requires ow.WayElement? && ow.way.id == acc.after.way - 1
    requires mid == Counters(acc.after.node - |nodes|, acc.after.way - 1, acc.after.rel)
    requires done.parts == acc.parts + NodeElements(nodes) + holeParts
    requires done.after.rel == acc.after.rel
    requires Allocated(holeParts, mid, done.after)
    ensures done.parts + [ow] == acc.parts + added
    ensures Allocated(added, acc.after, done.after)
    ensures IdsOf(added, WayKind) == IdsOf(holeParts, WayKind) + [acc.after.way - 1]
  {
    added := NodeElements(nodes) + holeParts + [ow];
    Assoc4(acc.parts, NodeElements(nodes), holeParts, [ow]);
    ComponentIds(nodes, holeParts, ow, acc.after, mid, done.after);
  }

  /** The members `OuterAroundHoles` appends. */
  lemma OuterMembers(acc: Pieces, done: Pieces, holeMembers: seq<Member>, holeWays: seq<int>, holes: nat)
    returns (members: seq<Member>)
    requires done.members == acc.members + [Member(WayKind, acc.after.way - 1, Outer)] + holeMembers
    requires Roles(holeMembers) == Inners(holes) && AllWays(holeMembers)
    requires Refs(holeMembers) == Countdown(acc.after.way - 1, |holeMembers|)
    requires forall i :: 0 <= i < |holeMembers| ==> holeMembers[i].ref in holeWays
    ensures done.members == acc.members + members && |members| == |holeMembers| + 1
    ensures Roles(members) == [Outer] + Inners(holes) && AllWays(members)
    ensures Refs(members) == Countdown(acc.after.way, |members|)
    ensures forall i :: 0 <= i < |members| ==> members[i].ref in holeWays + [acc.after.way - 1]
  {
    var om := Member(WayKind, acc.after.way - 1, Outer);
    members := [om] + holeMembers;
    Assoc3(acc.members, [om], holeMembers);
    ComponentMembers(om, holeMembers, holeWays, acc.after.way, holes);
  }

  /** The members of `AddComponentGrows`: `outer` first, then the holes'. */
  lemma ComponentMembers(om: Member, holeMembers: seq<Member>, holeWays: seq<int>, way: int, holes: nat)
    requires om == Member(WayKind, way - 1, Outer)
    requires Roles(holeMembers) == Inners(holes) && AllWays(holeMembers)
    requires Refs(holeMembers) == Countdown(way - 1, |holeMembers|)
    requires forall i :: 0 <= i < |holeMembers| ==> holeMembers[i].ref in holeWays
    ensures Roles([om] + holeMembers) == [Outer] + Inners(holes) && AllWays([om] + holeMembers)
    ensures Refs([om] + holeMembers) == Countdown(way, |[om] + holeMembers|)
    ensures forall i :: 0 <= i < |[om] + holeMembers| ==> ([om] + holeMembers)[i].ref in holeWays + [way - 1]
  {
    MembersAppend([om], holeMembers);
    assert Refs([om]) == Countdown(way, 1);
    CountdownSplit(way, 1, |holeMembers|);
  }

  /** Runs of ids handed out in some order may be emitted in any order. */
  lemma BetweenSwap(a: seq<int>, b: seq<int>, hi: int, lo: int)
    requires Between(a + b, hi, lo)
    ensures Between(b + a, hi, lo)
  {
    forall i, j | 0 <= i < j < |b + a|
      ensures (b + a)[i] != (b + a)[j]
    {
      var i', j' := if i < |b| then i + |a| else i - |b|, if j < |b| then j + |a| else j - |b|;
      assert (b + a)[i] == (a + b)[i'] && (b + a)[j] == (a + b)[j'];
    }
    assert forall i :: 0 <= i < |b + a| ==> (b + a)[i] in a + b;
  }

  /** The id bookkeeping of `AddComponentGrows`. */
  lemma ComponentIds(nodes: seq<Node>, holes: seq<Element>, ow: Element, c0: Counters, c1: Counters, c2: Counters)
    requires NodeIds(nodes) == Countdown(c0.node, |nodes|)
    requires c1 == Counters(c0.node - |nodes|, c0.way - 1, c0.rel)
    requires Allocated(holes, c1, c2) && c2.rel == c1.rel
    requires ow.WayElement? && ow.way.id == c0.way - 1
    ensures Allocated(NodeElements(nodes) + holes + [ow], c0, c2)
    ensures IdsOf(NodeElements(nodes) + holes + [ow], WayKind) == IdsOf(holes, WayKind) + [c0.way - 1]
  {
    ComponentNodeIds(nodes, holes, ow, c0, c1, c2);
    ComponentWayIds(nodes, holes, ow, c0, c1, c2);
  }

  /** The node and relation ids of a component: its exterior ring's nodes,
      then those of its holes; it adds no relation. */
  lemma ComponentNodeIds(nodes: seq<Node>, holes: seq<Element>, ow: Element, c0: Counters, c1: Counters, c2: Counters)
    requires NodeIds(nodes) == Countdown(c0.node, |nodes|)
    requires c1 == Counters(c0.node - |nodes|, c0.way - 1, c0.rel)
    requires Allocated(holes, c1, c2) && c2.rel == c1.rel
    requires ow.WayElement?
    ensures IdsOf(NodeElements(nodes) + holes + [ow], NodeKind) == Countdown(c0.node, c0.node - c2.node)
    ensures IdsOf(NodeElements(nodes) + holes + [ow], RelationKind) == []
  {
    var ns := NodeElements(nodes);
    IdsOfNodeElements(nodes);
    IdsOfAppend(ns, holes, NodeKind);
    IdsOfAppend(ns + holes, [ow], NodeKind);
    IdsOfAppend(ns, holes, RelationKind);
    IdsOfAppend(ns + holes, [ow], RelationKind);
    assert IdsOf([ow], NodeKind) == [] && IdsOf([ow], RelationKind) == [];
    CountdownJoin(c0.node, c1.node, c2.node);
  }

  /** The way ids of a component: its holes' ways, then its exterior ring's
      way, whose id was drawn first. */
  lemma ComponentWayIds(nodes: seq<Node>, holes: seq<Element>, ow: Element, c0: Counters, c1: Counters, c2: Counters)
    requires c1 == Counters(c0.node - |nodes|, c0.way - 1, c0.rel)
    requires Allocated(holes, c1, c2)
    requires ow.WayElement? && ow.way.id == c0.way - 1
    ensures IdsOf(NodeElements(nodes) + holes + [ow], WayKind) == IdsOf(holes, WayKind) + [c0.way - 1]
    ensures Between(IdsOf(holes, WayKind) + [c0.way - 1], c0.way, c2.way)
  {
    var ns := NodeElements(nodes);
    IdsOfNodeElements(nodes);
    IdsOfAppend(ns, holes, WayKind);
    IdsOfAppend(ns + holes, [ow], WayKind);
    assert IdsOf([ow], WayKind) == [c0.way - 1];
    BetweenConcat([c0.way - 1], IdsOf(holes, WayKind), c0.way, c1.way, c2.way);
    BetweenSwap([c0.way - 1], IdsOf(holes, WayKind), c0.way, c2.way);
  }

  lemma {:induction false} AddComponentsGrows(acc: Pieces, comps: seq<Polygon>)
    requires AddComponents(acc, comps).Ok?
    ensures Grows(acc, AddComponents(acc, comps).value, ExpectedRoles(comps))
    decreases |comps|
  {
    if comps == [] {
      GrowsNothing(acc);
    } else {
      AddComponentsUnfold(acc, comps);
      var next := AddComponent(acc, comps[0]).value;
      AddComponentGrows(acc, comps[0]);
      AddComponentsGrows(next, comps[1..]);
      GrowsTrans(acc, next, AddComponents(next, comps[1..]).value,
                 [Outer] + Inners(|comps[0].interiors|), ExpectedRoles(comps[1..]));
    }
  }
}
