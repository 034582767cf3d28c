/// Which ring each member way of a multipolygon relation draws: member `k`
/// names an untagged way whose `nd` references are, in order, the nodes of
/// the `k`-th ring (every component's exterior, then its holes), and those
/// nodes carry the ring's coordinates, latitude from y and longitude from x.
module RingWays {

  import opened Elements
  import opened Ids
  import opened Rings
  import opened Features

  /** A ring as the encoder closes it; an empty ring stays empty. */
  function Closed(ring: seq<Coord>): seq<Coord> {
    match CloseRing(ring)
    case Ok(closed) => closed
    case Err(_) => []
  }

  /** The rings in the order the encoder gives them member ways: each
      component's exterior ring, then its interior rings. */
  function MemberRings(comps: seq<Polygon>): (rings: seq<seq<Coord>>)
    decreases |comps|
  {
    if comps == [] then [] else [comps[0].exterior] + comps[0].interiors + MemberRings(comps[1..])
  }

  /** How many nodes each ring takes once closed. */
  function Sizes(rings: seq<seq<Coord>>): (sizes: seq<nat>)
    ensures |sizes| == |rings|
  {
    seq(|rings|, k requires 0 <= k < |rings| => |Closed(rings[k])|)
  }

  function Total(sizes: seq<nat>): nat
    decreases |sizes|
  {
    if sizes == [] then 0 else sizes[0] + Total(sizes[1..])
  }

  /** Where each run starts when runs of `sizes` ids are taken in turn
      from `from` down. */
  function Starts(from: int, sizes: seq<nat>): (starts: seq<int>)
    ensures |starts| == |sizes|
    decreases |sizes|
  {
    if sizes == [] then [] else [from] + Starts(from - sizes[0], sizes[1..])
  }

  /** The ids of those runs, run by run. */
  function Runs(from: int, sizes: seq<nat>): seq<int>
    decreases |sizes|
  {
    if sizes == [] then [] else Countdown(from, sizes[0]) + Runs(from - sizes[0], sizes[1..])
  }

  /** Runs taken in turn make one unbroken countdown. */
  lemma {:induction false} RunsCountdown(from: int, sizes: seq<nat>)
    ensures Runs(from, sizes) == Countdown(from, Total(sizes))
    decreases |sizes|
  {
    if sizes != [] {
      RunsCountdown(from - sizes[0], sizes[1..]);
      CountdownSplit(from, sizes[0], Total(sizes[1..]));
    }
  }

  lemma {:induction false} TotalAppend(a: seq<nat>, b: seq<nat>)
    ensures Total(a + b) == Total(a) + Total(b)
    decreases |a|
  {
    if a == [] {
      assert a + b == b;
    } else {
      assert (a + b)[0] == a[0] && (a + b)[1..] == a[1..] + b;
      TotalAppend(a[1..], b);
    }
  }

  /** The second of two series of runs starts where the first one ends. */
  lemma {:induction false} StartsAppend(from: int, a: seq<nat>, b: seq<nat>)
    ensures Starts(from, a + b) == Starts(from, a) + Starts(from - Total(a), b)
    decreases |a|
  {
    if a == [] {
      assert a + b == b;
    } else {
      assert (a + b)[0] == a[0] && (a + b)[1..] == a[1..] + b;
      StartsAppend(from - a[0], a[1..], b);
    }
  }

  /** How many nodes the rings take once closed. */
  function RingPoints(rings: seq<seq<Coord>>): nat {
    Total(Sizes(rings))
  }

  /** Where each ring's node ids start when the rings take node ids in turn
      from `from` down. */
  function RingStarts(from: int, rings: seq<seq<Coord>>): (starts: seq<int>)
    ensures |starts| == |rings|
  {
    Starts(from, Sizes(rings))
  }

  /** The node ids of the rings in turn, ring by ring. */
  function RingNodeIds(from: int, rings: seq<seq<Coord>>): seq<int> {
    Runs(from, Sizes(rings))
  }

  /** Rings taking node ids in turn take one unbroken run of them. */
  lemma RingNodeIdsCountdown(from: int, rings: seq<seq<Coord>>)
    ensures RingNodeIds(from, rings) == Countdown(from, RingPoints(rings))
  {
    RunsCountdown(from, Sizes(rings));
  }

  /** Counting the nodes and placing the starts of two runs of rings one
      after the other. */
  lemma RingsAppend(from: int, a: seq<seq<Coord>>, b: seq<seq<Coord>>)
    ensures RingPoints(a + b) == RingPoints(a) + RingPoints(b)
    ensures RingStarts(from, a + b) == RingStarts(from, a) + RingStarts(from - RingPoints(a), b)
  {
    var sa, sb := Sizes(a), Sizes(b);
    assert Sizes(a + b) == sa + sb by {
      SizesAppend(a, b);
    }
    TotalAppend(sa, sb);
    StartsAppend(from, sa, sb);
  }

  lemma SizesAppend(a: seq<seq<Coord>>, b: seq<seq<Coord>>)
    ensures Sizes(a + b) == Sizes(a) + Sizes(b)
  {
    forall k | 0 <= k < |a + b|
      ensures Sizes(a + b)[k] == (Sizes(a) + Sizes(b))[k]
    {
      if k < |a| {
        assert (a + b)[k] == a[k];
      } else {
        assert (a + b)[k] == b[k - |a|];
      }
    }
  }

  /** A single ring takes its own closed length in nodes, starting at
      `from`. */
  lemma RingsOne(from: int, ring: seq<Coord>)
    ensures RingPoints([ring]) == |Closed(ring)|
    ensures RingStarts(from, [ring]) == [from]
  {
    assert Sizes([ring]) == [|Closed(ring)|];
    assert Sizes([ring])[1..] == [];
    assert Total([|Closed(ring)|]) == |Closed(ring)| + Total([]);
  }

  /** One ring, then rings whose nodes start where its nodes end. */
  lemma StartsFirst(from: int, ring: seq<Coord>, mid: int, rings: seq<seq<Coord>>, rest: seq<int>)
    requires mid == from - |Closed(ring)| && rest == RingStarts(mid, rings)
    ensures [from] + rest == RingStarts(from, [ring] + rings)
    ensures RingPoints([ring] + rings) == |Closed(ring)| + RingPoints(rings)
  {
    RingsOne(from, ring);
    RingsAppend(from, [ring], rings);
  }

  /** Rings, then rings whose nodes start where the first ones' end. */
  lemma StartsThen(from: int, a: seq<seq<Coord>>, first: seq<int>, mid: int, b: seq<seq<Coord>>, rest: seq<int>)
    requires first == RingStarts(from, a) && mid == from - RingPoints(a) && rest == RingStarts(mid, b)
    ensures first + rest == RingStarts(from, a + b)
    ensures RingPoints(a + b) == RingPoints(a) + RingPoints(b)
  {
    RingsAppend(from, a, b);
  }

  /** `parts` holds the untagged way `id` over the nodes numbered from
      `start` down, one per point of `closed`, and the node of point `j`
      sits at that point. */
  predicate CarriesRing(parts: seq<Element>, id: int, start: int, closed: seq<Coord>) {
    && WayElement(Way(id, Countdown(start, |closed|), [])) in parts
    && forall j :: 0 <= j < |closed| ==> NodeElement(Node(start - 1 - j, closed[j].y, closed[j].x)) in parts
  }

  lemma CarriesLonger(parts: seq<Element>, more: seq<Element>, id: int, start: int, closed: seq<Coord>)
    requires CarriesRing(parts, id, start, closed)
    ensures CarriesRing(parts + more, id, start, closed)
  {
    forall e | e in parts
      ensures e in parts + more
    {
      var i :| 0 <= i < |parts| && parts[i] == e;
      assert (parts + more)[i] == e;
    }
  }

  /** Nodes over a ring, some further elements, then the way over those
      nodes: together they carry the ring. */
  lemma NodesThenWayCarry(pre: seq<Element>, closed: seq<Coord>, start: int, mid: seq<Element>, id: int)
    ensures CarriesRing(pre + NodeElements(RingNodes(closed, start)) + mid
                          + [WayElement(Way(id, NodeIds(RingNodes(closed, start)), []))],
                        id, start, closed)
  {
    var nodes := RingNodes(closed, start);
    var parts := pre + NodeElements(nodes) + mid + [WayElement(Way(id, NodeIds(nodes), []))];
    assert parts[|parts| - 1] == WayElement(Way(id, Countdown(start, |closed|), []));
    forall j | 0 <= j < |closed|
      ensures NodeElement(Node(start - 1 - j, closed[j].y, closed[j].x)) in parts
    {
      assert NodeIds(nodes)[j] == nodes[j].id == start - 1 - j;
      assert parts[|pre| + j] == NodeElement(nodes[j]);
    }
  }

  /** Members `base`, `base + 1`, ... of `members` name ways of `parts`
      carrying `rings`, none of them empty, in order, the node ids of ring
      `k` counting down from `starts[k]`. */
  predicate CarriesAll(parts: seq<Element>, members: seq<Member>, base: int, starts: seq<int>, rings: seq<seq<Coord>>) {
    && 0 <= base && base + |rings| <= |members| && |starts| == |rings|
    && forall k :: 0 <= k < |rings| ==>
         rings[k] != [] && CarriesRing(parts, members[base + k].ref, starts[k], Closed(rings[k]))
  }

  lemma CarriesOne(parts: seq<Element>, members: seq<Member>, base: int, start: int, ring: seq<Coord>)
    requires 0 <= base < |members| && ring != []
    requires CarriesRing(parts, members[base].ref, start, Closed(ring))
    ensures CarriesAll(parts, members, base, [start], [ring])
  {
    assert base + 0 == base;
  }

  lemma CarriesAt(parts: seq<Element>, members: seq<Member>, base: int, starts: seq<int>, rings: seq<seq<Coord>>, k: int)
    requires CarriesAll(parts, members, base, starts, rings)
    requires 0 <= k < |rings|
    ensures rings[k] != [] && CarriesRing(parts, members[base + k].ref, starts[k], Closed(rings[k]))
  {
  }

  lemma CarriesAllLonger(parts: seq<Element>, more: seq<Element>, members: seq<Member>, moreMembers: seq<Member>,
                         base: int, starts: seq<int>, rings: seq<seq<Coord>>)
    requires CarriesAll(parts, members, base, starts, rings)
    ensures CarriesAll(parts + more, members + moreMembers, base, starts, rings)
  {
    forall k | 0 <= k < |rings|
      ensures rings[k] != [] && CarriesRing(parts + more, (members + moreMembers)[base + k].ref, starts[k], Closed(rings[k]))
    {
      CarriesLonger(parts, more, members[base + k].ref, starts[k], Closed(rings[k]));
    }
  }

  lemma CarriesAllJoin(parts: seq<Element>, members: seq<Member>, base: int,
                       starts: seq<int>, rings: seq<seq<Coord>>, starts': seq<int>, rings': seq<seq<Coord>>)
    requires CarriesAll(parts, members, base, starts, rings)
    requires CarriesAll(parts, members, base + |rings|, starts', rings')
    ensures CarriesAll(parts, members, base, starts + starts', rings + rings')
  {
    forall k | 0 <= k < |rings + rings'|
      ensures (rings + rings')[k] != []
      ensures CarriesRing(parts, members[base + k].ref, (starts + starts')[k], Closed((rings + rings')[k]))
    {
      if k < |rings| {
        CarriesAt(parts, members, base, starts, rings, k);
        assert (rings + rings')[k] == rings[k] && (starts + starts')[k] == starts[k];
      } else {
        var j := k - |rings|;
        CarriesAt(parts, members, base + |rings|, starts', rings', j);
        assert (rings + rings')[k] == rings'[j] && (starts + starts')[k] == starts'[j];
        assert members[base + k] == members[base + |rings| + j];
      }
    }
  }

  /** Rings carried by a prefix of the elements and members, then rings
      carried by the whole from the member after them on. */
  lemma CarriesThen(pre: seq<Element>, preMembers: seq<Member>, parts: seq<Element>, members: seq<Member>, base: int,
                    starts: seq<int>, rings: seq<seq<Coord>>, starts': seq<int>, rings': seq<seq<Coord>>)
    requires pre <= parts && preMembers <= members
    requires CarriesAll(pre, preMembers, base, starts, rings)
    requires CarriesAll(parts, members, base + |rings|, starts', rings')
    ensures CarriesAll(parts, members, base, starts + starts', rings + rings')
  {
    assert parts == pre + parts[|pre|..] && members == preMembers + members[|preMembers|..];
    CarriesAllLonger(pre, parts[|pre|..], preMembers, members[|preMembers|..], base, starts, rings);
    CarriesAllJoin(parts, members, base, starts, rings, starts', rings');
  }

  /** A prefix of the elements and members, then the rest. */
  lemma Grown(acc: Pieces, next: Pieces)
    requires acc.parts <= next.parts && acc.members <= next.members
    ensures next.parts == acc.parts + next.parts[|acc.parts|..]
    ensures next.members == acc.members + next.members[|acc.members|..]
  {
  }

  /** One hole: a new member whose way carries the hole's closed ring. */
  lemma AddInteriorCarries(acc: Pieces, ring: seq<Coord>)
    requires AddInterior(acc, ring).Ok?
    ensures var next := AddInterior(acc, ring).value;
      && acc.parts <= next.parts && acc.members <= next.members && |next.members| == |acc.members| + 1
      && CarriesAll(next.parts, next.members, |acc.members|, [acc.after.node], [ring])
      && next.after.node == acc.after.node - |Closed(ring)|
  {
    var closed := Closed(ring);
    var next := WithInterior(acc, closed);
    NodesThenWayCarry(acc.parts, closed, acc.after.node, [], acc.after.way - 1);
    assert acc.parts + NodeElements(RingNodes(closed, acc.after.node)) + []
        == acc.parts + NodeElements(RingNodes(closed, acc.after.node));
    assert next.members[|acc.members|].ref == acc.after.way - 1;
    CarriesOne(next.parts, next.members, |acc.members|, acc.after.node, ring);
  }

  /** Each hole added to a component gets, in order, a member whose way
      carries that hole's closed ring. */
  lemma {:induction false} AddInteriorsCarry(acc: Pieces, rings: seq<seq<Coord>>) returns (starts: seq<int>)
    requires AddInteriors(acc, rings).Ok?
    ensures var next := AddInteriors(acc, rings).value;
      && acc.parts <= next.parts && acc.members <= next.members
      && |next.members| == |acc.members| + |rings|
      && CarriesAll(next.parts, next.members, |acc.members|, starts, rings)
      && starts == RingStarts(acc.after.node, rings)
      && next.after.node == acc.after.node - RingPoints(rings)
    decreases |rings|
  {
    if rings == [] {
      starts := [];
    } else {
      var mid := AddInterior(acc, rings[0]).value;
      AddInteriorCarries(acc, rings[0]);
      var rest := AddInteriorsCarry(mid, rings[1..]);
      var next := AddInteriors(acc, rings).value;
      assert next == AddInteriors(mid, rings[1..]).value;
      starts := [acc.after.node] + rest;
      assert [rings[0]] + rings[1..] == rings;
      StartsFirst(acc.after.node, rings[0], mid.after.node, rings[1..], rest);
      CarriesThen(mid.parts, mid.members, next.parts, next.members, |acc.members|, [acc.after.node], [rings[0]], rest, rings[1..]);
    }
  }

  /** The exterior ring: its nodes and member come first, its way only
      after whatever `done` appended behind them, and that way carries the
      ring. */
  lemma ExteriorCarries(acc: Pieces, ring: seq<Coord>, done: Pieces)
    requires ring != []
    requires WithOuter(acc, Closed(ring)).parts <= done.parts
    requires WithOuter(acc, Closed(ring)).members <= done.members
    ensures CarriesAll(done.parts + [OuterWay(acc, Closed(ring))], done.members, |acc.members|, [acc.after.node], [ring])
  {
    var outer := Closed(ring);
    var mid := WithOuter(acc, outer);
    Grown(mid, done);
    var rest := done.parts[|mid.parts|..];
    assert done.parts + [OuterWay(acc, outer)]
        == acc.parts + NodeElements(RingNodes(outer, acc.after.node)) + rest + [OuterWay(acc, outer)];
    NodesThenWayCarry(acc.parts, outer, acc.after.node, rest, acc.after.way - 1);
    assert done.members[|acc.members|] == mid.members[|acc.members|];
    CarriesOne(done.parts + [OuterWay(acc, outer)], done.members, |acc.members|, acc.after.node, ring);
  }

  /** The exterior ring's member, then the members of the holes behind
      it: the exterior's way, appended last, does not disturb the holes'. */
  lemma ExteriorThenHoles(acc: Pieces, ring: seq<Coord>, done: Pieces, holes: seq<int>, interiors: seq<seq<Coord>>)
    requires ring != []
    requires WithOuter(acc, Closed(ring)).parts <= done.parts
    requires WithOuter(acc, Closed(ring)).members <= done.members
    requires CarriesAll(done.parts, done.members, |acc.members| + 1, holes, interiors)
    ensures CarriesAll(done.parts + [OuterWay(acc, Closed(ring))], done.members, |acc.members|,
                       [acc.after.node] + holes, [ring] + interiors)
  {
    var parts := done.parts + [OuterWay(acc, Closed(ring))];
    ExteriorCarries(acc, ring, done);
    CarriesAllLonger(done.parts, [OuterWay(acc, Closed(ring))], done.members, [], |acc.members| + 1, holes, interiors);
    assert done.members + [] == done.members;
    CarriesAllJoin(parts, done.members, |acc.members|, [acc.after.node], [ring], holes, interiors);
  }

  /** A component's exterior ring gets the first of its members and its
      holes the following ones, each carried by its member's way. */
  lemma AddComponentCarry(acc: Pieces, p: Polygon) returns (starts: seq<int>)
    requires AddComponent(acc, p).Ok?
    ensures var next := AddComponent(acc, p).value;
      && acc.parts <= next.parts && acc.members <= next.members
      && |next.members| == |acc.members| + 1 + |p.interiors|
      && CarriesAll(next.parts, next.members, |acc.members|, starts, [p.exterior] + p.interiors)
      && starts == RingStarts(acc.after.node, [p.exterior] + p.interiors)
      && next.after.node == acc.after.node - RingPoints([p.exterior] + p.interiors)
  {
    var outer := CloseRing(p.exterior).value;
    var mid := WithOuter(acc, outer);
    var holes := AddInteriorsCarry(mid, p.interiors);
    var done := AddInteriors(mid, p.interiors).value;
    var next := AddComponent(acc, p).value;
    starts := [acc.after.node] + holes;
    assert next.parts == done.parts + [OuterWay(acc, outer)] && next.members == done.members;
    assert CarriesAll(next.parts, next.members, |acc.members|, starts, [p.exterior] + p.interiors) by {
      ExteriorThenHoles(acc, p.exterior, done, holes, p.interiors);
    }
    assert outer == Closed(p.exterior) && next.after == done.after;
    StartsFirst(acc.after.node, p.exterior, mid.after.node, p.interiors, holes);
  }

  /** Over all components, member `k` is carried by the `k`-th ring of
      `MemberRings`. */
  lemma {:induction false} AddComponentsCarry(acc: Pieces, comps: seq<Polygon>) returns (starts: seq<int>)
    requires AddComponents(acc, comps).Ok?
    ensures var next := AddComponents(acc, comps).value;
      && acc.parts <= next.parts && acc.members <= next.members
      && |next.members| == |acc.members| + |MemberRings(comps)|
      && CarriesAll(next.parts, next.members, |acc.members|, starts, MemberRings(comps))
      && starts == RingStarts(acc.after.node, MemberRings(comps))
      && next.after.node == acc.after.node - RingPoints(MemberRings(comps))
    decreases |comps|
  {
    if comps == [] {
      starts := [];
    } else {
      var own := [comps[0].exterior] + comps[0].interiors;
      var mid := AddComponent(acc, comps[0]).value;
      var first := AddComponentCarry(acc, comps[0]);
      var rest := AddComponentsCarry(mid, comps[1..]);
      var next := AddComponents(acc, comps).value;
      assert next == AddComponents(mid, comps[1..]).value;
      starts := first + rest;
      Grown(mid, next);
      CarriesThen(mid.parts, mid.members, next.parts, next.members, |acc.members|, first, own, rest, MemberRings(comps[1..]));
      assert MemberRings(comps) == own + MemberRings(comps[1..]);
      StartsThen(acc.after.node, own, first, mid.after.node, MemberRings(comps[1..]), rest);
    }
  }

  /** Member `k` of the relation heading the components' elements is
      carried by the `k`-th ring, closed, which is not empty. */
  lemma MemberWays(start: Pieces, comps: seq<Polygon>, head: Element) returns (starts: seq<int>)
    requires start.parts == [] && start.members == []
    requires AddComponents(start, comps).Ok?
    requires head.RelationElement? && head.relation.members == AddComponents(start, comps).value.members
    ensures var parts := [head] + AddComponents(start, comps).value.parts;
      && |head.relation.members| == |MemberRings(comps)| == |starts|
      && forall k :: 0 <= k < |starts| ==>
           && CloseRing(MemberRings(comps)[k]) == Ok(Closed(MemberRings(comps)[k]))
           && CarriesRing(parts, head.relation.members[k].ref, starts[k], Closed(MemberRings(comps)[k]))
    ensures starts == RingStarts(start.after.node, MemberRings(comps))
    ensures AddComponents(start, comps).value.after.node == start.after.node - RingPoints(MemberRings(comps))
  {
    var done := AddComponents(start, comps).value;
    starts := AddComponentsCarry(start, comps);
    forall k | 0 <= k < |starts|
      ensures CloseRing(MemberRings(comps)[k]) == Ok(Closed(MemberRings(comps)[k]))
      ensures CarriesRing([head] + done.parts, done.members[k].ref, starts[k], Closed(MemberRings(comps)[k]))
    {
      assert done.members[0 + k] == done.members[k];
      CarriesBehind([head], done.parts, done.members[k].ref, starts[k], Closed(MemberRings(comps)[k]));
    }
  }

  lemma CarriesBehind(head: seq<Element>, parts: seq<Element>, id: int, start: int, closed: seq<Coord>)
    requires CarriesRing(parts, id, start, closed)
    ensures CarriesRing(head + parts, id, start, closed)
  {
    forall e | e in parts
      ensures e in head + parts
    {
      var i :| 0 <= i < |parts| && parts[i] == e;
      assert (head + parts)[|head| + i] == e;
    }
  }
}
