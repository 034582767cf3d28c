/// The properties of one feature's encoding, as the source's callers rely
/// on them: the shape of a polygon's way, the members of a multipolygon's
/// relation, the ids both allocate, and when encoding fails.
module EncodeFacts {

  import opened Seqs
  import opened Elements
  import opened Ids
  import opened Rings
  import opened Features
  import opened Allocation
  import opened FeatureFacts
  import opened RingWays

  /** A polygon (lines 93-110): one node per coordinate of the closed
      exterior ring, with ids counting down from the node counter and `lat`,
      `lon` taken from `y`, `x`; then one way, with the next way id, over
      exactly those nodes in ring order, tagged `height` and
      `building:part=yes`. No relation id is used, and the way's id and
      kind are returned. */
  lemma PolygonShape(exterior: seq<Coord>, height: Scalar, c: Counters)
    requires exterior != []
    ensures EncodePolygon(exterior, height, c).Ok?
    ensures var ring := CloseRing(exterior).value;
      var e := EncodePolygon(exterior, height, c).value;
      && e.encoded.id == c.way - 1 && e.encoded.kind == WayKind
      && e.after == Counters(c.node - |ring|, c.way - 1, c.rel)
      && |e.encoded.parts| == |ring| + 1
      && (forall i :: 0 <= i < |ring| ==> e.encoded.parts[i] == NodeElement(Node(c.node - 1 - i, ring[i].y, ring[i].x)))
      && Last(e.encoded.parts) == WayElement(Way(c.way - 1, Countdown(c.node, |ring|), PartTags(height)))
  {
    var ring := CloseRing(exterior).value;
    var nodes := RingNodes(ring, c.node);
    var parts := EncodePolygon(exterior, height, c).value.encoded.parts;
    assert parts == NodeElements(nodes) + [WayElement(Way(c.way - 1, NodeIds(nodes), PartTags(height)))];
    forall i | 0 <= i < |ring|
      ensures parts[i] == NodeElement(Node(c.node - 1 - i, ring[i].y, ring[i].x))
    {
      assert nodes[i].id == NodeIds(nodes)[i];
    }
  }

  /** A polygon's encoding allocates exactly its nodes and its way. */
  lemma PolygonAllocates(exterior: seq<Coord>, height: Scalar, c: Counters)
    requires exterior != []
    ensures var e := EncodePolygon(exterior, height, c).value;
      Allocated(e.encoded.parts, c, e.after) && IdsOf(e.encoded.parts, WayKind) == [e.encoded.id]
  {
    var ring := CloseRing(exterior).value;
    var nodes := RingNodes(ring, c.node);
    var w := Way(c.way - 1, NodeIds(nodes), PartTags(height));
    var parts := NodeElements(nodes) + [WayElement(w)];
    var after := Counters(c.node - |ring|, c.way - 1, c.rel);
    assert EncodePolygon(exterior, height, c).value == Emitted(Encoded(parts, c.way - 1, WayKind), after);
    NodesThenWay(nodes, w);
    assert Countdown(c.way, 1) == [c.way - 1] by {
      assert Countdown(c.way, 1)[0] == c.way - 1;
    }
    CountdownBetween(c.way, c.way - 1);
    assert IdsOf(parts, RelationKind) == Countdown(c.rel, 0);
    assert Allocated(parts, c, after);
  }

  /** The interiors of a polygon play no part in its encoding, and
      neither do the feature's section, block and parcel. */
  lemma PolygonIgnoresInteriors(f: Feature, g: Feature, c: Counters)
    requires f.geom.PolygonGeometry? && g.geom.PolygonGeometry?
    requires f.geom.polygon.exterior == g.geom.polygon.exterior && f.height == g.height
    ensures Encode(f, c) == Encode(g, c)
  {
  }

  /** A multipolygon (lines 112-159): a `type=multipolygon` relation with
      the next relation id heads the elements; it lists, for each component
      in order, one `outer` member and then one `inner` member per interior
      ring, each referring to a distinct, freshly allocated way id (counting
      down from the way counter) of a way among the emitted elements. Member
      `k` belongs to the `k`-th of the rings (each component's exterior,
      then its holes): its way is untagged, and its `nd` references are the
      ids of one node per point of that ring, closed, in ring order, each
      node with `lat` from the point's `y` and `lon` from its `x`. The rings
      take node ids in turn from the node counter, each starting where the
      one before ended. The relation's id and kind are returned. */
  lemma MultiPolygonShape(comps: seq<Polygon>, height: Scalar, c: Counters) returns (starts: seq<int>)
    requires EncodeMultiPolygon(comps, height, c).Ok?
    ensures var e := EncodeMultiPolygon(comps, height, c).value;
      var parts := e.encoded.parts;
      && e.encoded.id == c.rel - 1 && e.encoded.kind == RelationKind
      && parts != [] && parts[0].RelationElement?
      && parts[0].relation.id == c.rel - 1 && parts[0].relation.tags == MultipolygonTags(height)
      && var ms := parts[0].relation.members;
         && Roles(ms) == ExpectedRoles(comps) && AllWays(ms)
         && Refs(ms) == Countdown(c.way, |ms|)
         && (forall i :: 0 <= i < |ms| ==> ms[i].ref in IdsOf(parts, WayKind))
         && e.after.rel == c.rel - 1 && e.after.way == c.way - |ms|
    ensures var parts := EncodeMultiPolygon(comps, height, c).value.encoded.parts;
      && parts != [] && parts[0].RelationElement?
      && var ms := parts[0].relation.members;
         && |ms| == |MemberRings(comps)| == |starts|
         && forall k :: 0 <= k < |ms| ==>
              && CloseRing(MemberRings(comps)[k]) == Ok(Closed(MemberRings(comps)[k]))
              && CarriesRing(parts, ms[k].ref, starts[k], Closed(MemberRings(comps)[k]))
    ensures starts == RingStarts(c.node, MemberRings(comps))
  {
    var start := Pieces([], [], c.(rel := c.rel - 1));
    EncodeMultiPolygonResult(comps, height, c);
    var done := AddComponents(start, comps).value;
    var head := RelationElement(Relation(c.rel - 1, done.members, MultipolygonTags(height)));
    var e := EncodeMultiPolygon(comps, height, c).value;
    assert e.encoded.parts == [head] + done.parts;
    HeadMembers(start, comps, head);
    starts := MemberWays(start, comps, head);
  }

  /** Behind the relation that lists them, the components' members have
      the expected roles and the next way ids, each naming an emitted way. */
  lemma HeadMembers(start: Pieces, comps: seq<Polygon>, head: Element)
    requires start.parts == [] && start.members == []
    requires AddComponents(start, comps).Ok?
    requires head.RelationElement? && head.relation.members == AddComponents(start, comps).value.members
    ensures var done := AddComponents(start, comps).value;
      && Roles(done.members) == ExpectedRoles(comps) && AllWays(done.members)
      && Refs(done.members) == Countdown(start.after.way, |done.members|)
      && (forall i :: 0 <= i < |done.members| ==> done.members[i].ref in IdsOf([head] + done.parts, WayKind))
      && done.after.rel == start.after.rel && done.after.way == start.after.way - |done.members|
  {
    var done := AddComponents(start, comps).value;
    assert IdsOf([head], WayKind) == [];
    AddComponentsGrows(start, comps);
    var added, members := GrowsUnpack(start, done, ExpectedRoles(comps));
    IdsOfAppend([head], added, WayKind);
  }

  /** Node ids allocated by rings that took exactly their closed points'
      worth of ids are those rings' node ids, ring by ring. */
  lemma AllocatedRings(parts: seq<Element>, c: Counters, after: Counters, rings: seq<seq<Coord>>)
    requires Allocated(parts, c, after) && after.node == c.node - RingPoints(rings)
    ensures IdsOf(parts, NodeKind) == RingNodeIds(c.node, rings)
  {
    RingNodeIdsCountdown(c.node, rings);
  }

  /** A multipolygon's encoding allocates its relation id, then what its
      components allocate. The node counter moves on by the rings' total
      number of points, closed, and the node elements are exactly the
      rings' nodes, ring by ring, so no other node is emitted. */
  lemma MultiPolygonAllocates(comps: seq<Polygon>, height: Scalar, c: Counters)
    requires EncodeMultiPolygon(comps, height, c).Ok?
    ensures var e := EncodeMultiPolygon(comps, height, c).value;
      && Allocated(e.encoded.parts, c, e.after) && IdsOf(e.encoded.parts, RelationKind) == [e.encoded.id]
      && e.after.node == c.node - RingPoints(MemberRings(comps))
      && IdsOf(e.encoded.parts, NodeKind) == RingNodeIds(c.node, MemberRings(comps))
  {
    var start := Pieces([], [], c.(rel := c.rel - 1));
    var done := AddComponents(start, comps).value;
    EncodeMultiPolygonResult(comps, height, c);
    assert Allocated(done.parts, start.after, done.after) && done.after.rel == start.after.rel by {
      AddComponentsGrows(start, comps);
      var added, members := GrowsUnpack(start, done, ExpectedRoles(comps));
      assert added == done.parts;
    }
    var head := RelationElement(Relation(c.rel - 1, done.members, MultipolygonTags(height)));
    HeadRelationAllocates(head, done.parts, c, done.after);
    var _ := AddComponentsCarry(start, comps);
    var e := EncodeMultiPolygon(comps, height, c).value;
    AllocatedRings(e.encoded.parts, c, e.after, MemberRings(comps));
  }

  /** The relation heading a multipolygon's elements takes the id
      allocated first; its components allocate no relation id. */
  lemma HeadRelationAllocates(head: Element, added: seq<Element>, c: Counters, after: Counters)
    requires head.RelationElement? && head.relation.id == c.rel - 1
    requires Allocated(added, c.(rel := c.rel - 1), after) && after.rel == c.rel - 1
    ensures Allocated([head] + added, c, after) && IdsOf([head] + added, RelationKind) == [c.rel - 1]
  {
    AllocatedRelation(head.relation, c);
    AllocatedConcat([head], added, c, c.(rel := c.rel - 1), after);
    IdsOfAppend([head], added, RelationKind);
  }

  /** Whatever the geometry, a successful encoding allocates exactly the
      ids of the elements it emits and returns the id and kind of one of
      them: the way of a polygon, the relation of a multipolygon. */
  lemma EncodeAllocates(f: Feature, c: Counters)
    requires Encode(f, c).Ok?
    ensures var e := Encode(f, c).value;
      && Allocated(e.encoded.parts, c, e.after)
      && e.encoded.id in IdsOf(e.encoded.parts, e.encoded.kind)
      && (e.encoded.kind == WayKind <==> f.geom.PolygonGeometry?)
      && (e.encoded.kind == RelationKind <==> f.geom.MultiPolygonGeometry?)
  {
    match f.geom
    case PolygonGeometry(p) =>
      PolygonShape(p.exterior, f.height, c);
      PolygonAllocates(p.exterior, f.height, c);
    case MultiPolygonGeometry(comps) =>
      var _ := MultiPolygonShape(comps, f.height, c);
      MultiPolygonAllocates(comps, f.height, c);
  }

  predicate NoEmptyRing(rings: seq<seq<Coord>>) {
    forall i :: 0 <= i < |rings| ==> rings[i] != []
  }

  /** Every component has an exterior ring and no empty hole. */
  predicate RingsPresent(comps: seq<Polygon>) {
    forall i :: 0 <= i < |comps| ==> comps[i].exterior != [] && NoEmptyRing(comps[i].interiors)
  }

  lemma RingsPresentSplit(comps: seq<Polygon>)
    requires comps != []
    ensures RingsPresent(comps) <==> comps[0].exterior != [] && NoEmptyRing(comps[0].interiors) && RingsPresent(comps[1..])
  {
    assert forall i :: 1 <= i < |comps| ==> comps[i] == comps[1..][i - 1];
  }

  /** The geometries the encoder accepts: a polygon whose exterior ring
      has a coordinate, or a multipolygon none of whose rings is empty. */
  predicate Encodable(g: Geometry) {
    match g
    case PolygonGeometry(p) => p.exterior != []
    case MultiPolygonGeometry(comps) => RingsPresent(comps)
    case OtherGeometry(_) => false
  }

  lemma {:induction false} AddInteriorsFails(acc: Pieces, rings: seq<seq<Coord>>)
    ensures AddInteriors(acc, rings).Err? <==> !NoEmptyRing(rings)
    ensures AddInteriors(acc, rings).Err? ==> AddInteriors(acc, rings).error == EmptyRing
    decreases |rings|
  {
    if rings != [] {
      AddInteriorsUnfold(acc, rings);
      if rings[0] != [] {
        AddInteriorsFails(AddInterior(acc, rings[0]).value, rings[1..]);
        assert NoEmptyRing(rings) <==> NoEmptyRing(rings[1..]) by {
          assert forall i :: 1 <= i < |rings| ==> rings[i] == rings[1..][i - 1];
        }
      }
    }
  }

  lemma AddComponentFails(acc: Pieces, p: Polygon)
    ensures AddComponent(acc, p).Err? <==> !(p.exterior != [] && NoEmptyRing(p.interiors))
    ensures AddComponent(acc, p).Err? ==> AddComponent(acc, p).error == EmptyRing
  {
    if p.exterior != [] {
      AddInteriorsFails(WithOuter(acc, CloseRing(p.exterior).value), p.interiors);
    }
  }

  lemma {:induction false} AddComponentsFails(acc: Pieces, comps: seq<Polygon>)
    ensures AddComponents(acc, comps).Err? <==> !RingsPresent(comps)
    ensures AddComponents(acc, comps).Err? ==> AddComponents(acc, comps).error == EmptyRing
    decreases |comps|
  {
    if comps != [] {
      AddComponentsUnfold(acc, comps);
      AddComponentFails(acc, comps[0]);
      if AddComponent(acc, comps[0]).Ok? {
        AddComponentsFails(AddComponent(acc, comps[0]).value, comps[1..]);
        RingsPresentSplit(comps);
      }
    }
  }

  /** Encoding fails exactly for the geometries it does not accept (line
      162 and the index of an empty ring's first coordinate); an
      unsupported kind is reported by name, an empty ring as such. */
  lemma EncodeFails(f: Feature, c: Counters)
    ensures Encode(f, c).Err? <==> !Encodable(f.geom)
    ensures f.geom.OtherGeometry? ==> Encode(f, c) == Err(UnsupportedGeometry(f.geom.typeName))
    ensures !f.geom.OtherGeometry? && Encode(f, c).Err? ==> Encode(f, c).error == EmptyRing
  {
    match f.geom
    case PolygonGeometry(p) =>
    case MultiPolygonGeometry(comps) =>
      EncodeMultiPolygonResult(comps, f.height, c);
      AddComponentsFails(Pieces([], [], c.(rel := c.rel - 1)), comps);
    case OtherGeometry(_) =>
  }
}
