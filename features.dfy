/// Encoding one feature's geometry as OpenStreetMap elements
/// (`create_osm_elements_for_feature`, lines 78-162 of the source).
///
/// The functions below say what the encoder emits for a given feature when
/// the id generator's counters stand at `c`; the method `EncodeFeature` is
/// the encoder itself, proved to emit exactly that, and the lemmas state
/// what the emitted elements are like.
module Features {

  import opened Seqs
  import opened Elements
  import opened Ids
  import opened Rings

  /** What the encoder returns: the emitted elements in document order, and
      the id and kind of the element that stands for the whole feature. */
  datatype Encoded = Encoded(parts: seq<Element>, id: int, kind: ElementKind)

  /** An encoding together with the counters it leaves behind. */
  datatype Emitted = Emitted(encoded: Encoded, after: Counters)

  /** Work in progress on a multipolygon: the elements emitted so far, the
      relation's members so far, and the counters. */
  datatype Pieces = Pieces(parts: seq<Element>, members: seq<Member>, after: Counters)

  /** Tags of every building part: its height and `building:part=yes`. */
  function PartTags(height: Scalar): seq<Tag> {
    [Tag("height", Measure(height)), Tag("building:part", Text("yes"))]
  }

  function MultipolygonTags(height: Scalar): seq<Tag> {
    [Tag("type", Text("multipolygon"))] + PartTags(height)
  }

  /** The encoding of a polygon whose exterior ring, closed, is `ring`:
      one node per coordinate, then one way over those nodes. */
  function PolygonEmitted(ring: seq<Coord>, height: Scalar, c: Counters): Emitted {
    WayOver(RingNodes(ring, c.node), height, c)
  }

  /** The nodes `nodes`, then a building-part way over them with the next
      way id. */
  function WayOver(nodes: seq<Node>, height: Scalar, c: Counters): Emitted {
    var wayId := c.way - 1;
    var way := Way(wayId, NodeIds(nodes), PartTags(height));
    Emitted(Encoded(NodeElements(nodes) + [WayElement(way)], wayId, WayKind),
            Counters(c.node - |nodes|, wayId, c.rel))
  }

  /** A polygon becomes one way over its closed exterior ring; interior
      rings are not looked at. */
  function EncodePolygon(exterior: seq<Coord>, height: Scalar, c: Counters): Result<Emitted> {
    match CloseRing(exterior)
    case Err(e) => Err(e)
    case Ok(ring) => Ok(PolygonEmitted(ring, height, c))
  }

  /** `acc` extended by the interior ring `closed` (already closed): its
      nodes, then its untagged way, which joins the relation as an `inner`
      member. */
  function WithInterior(acc: Pieces, closed: seq<Coord>): Pieces {
    var nodes := RingNodes(closed, acc.after.node);
    var wayId := acc.after.way - 1;
    Pieces(acc.parts + NodeElements(nodes) + [WayElement(Way(wayId, NodeIds(nodes), []))],
           acc.members + [Member(WayKind, wayId, Inner)],
           Counters(acc.after.node - |closed|, wayId, acc.after.rel))
  }

  function AddInterior(acc: Pieces, ring: seq<Coord>): Result<Pieces> {
    match CloseRing(ring)
    case Err(e) => Err(e)
    case Ok(closed) => Ok(WithInterior(acc, closed))
  }

  function AddInteriors(acc: Pieces, rings: seq<seq<Coord>>): Result<Pieces>
    decreases |rings|
  {
    if rings == [] then Ok(acc)
    else
      match AddInterior(acc, rings[0])
      case Err(e) => Err(e)
      case Ok(next) => AddInteriors(next, rings[1..])
  }

  /** `acc` extended by the nodes of the exterior ring `outer` (already
      closed) and by its `outer` member; the way itself comes later. */
  function WithOuter(acc: Pieces, outer: seq<Coord>): Pieces {
    var nodes := RingNodes(outer, acc.after.node);
    var wayId := acc.after.way - 1;
    Pieces(acc.parts + NodeElements(nodes),
           acc.members + [Member(WayKind, wayId, Outer)],
           Counters(acc.after.node - |outer|, wayId, acc.after.rel))
  }

  /** The untagged way of the exterior ring `outer` added to `acc`. */
  function OuterWay(acc: Pieces, outer: seq<Coord>): Element {
    WayElement(Way(acc.after.way - 1, NodeIds(RingNodes(outer, acc.after.node)), []))
  }

  /** One component of a multipolygon: the exterior ring's nodes, its way id
      and `outer` member, then every interior ring, and only then the
      exterior ring's way element. */
  function AddComponent(acc: Pieces, p: Polygon): Result<Pieces> {
    match CloseRing(p.exterior)
    case Err(e) => Err(e)
    case Ok(outer) =>
      match AddInteriors(WithOuter(acc, outer), p.interiors)
      case Err(e) => Err(e)
      case Ok(done) => Ok(done.(parts := done.parts + [OuterWay(acc, outer)]))
  }

  function AddComponents(acc: Pieces, comps: seq<Polygon>): Result<Pieces>
    decreases |comps|
  {
    if comps == [] then Ok(acc)
    else
      match AddComponent(acc, comps[0])
      case Err(e) => Err(e)
      case Ok(next) => AddComponents(next, comps[1..])
  }

  /** The encoding of a multipolygon whose components left `done`: the
      relation first, then the components' elements. */
  function MultiPolygonEmitted(relId: int, done: Pieces, height: Scalar): Emitted {
    var relation := Relation(relId, done.members, MultipolygonTags(height));
    Emitted(Encoded([RelationElement(relation)] + done.parts, relId, RelationKind), done.after)
  }

  /** A multipolygon becomes one `type=multipolygon` relation, whose id is
      allocated before anything else, followed by its components' elements. */
  function EncodeMultiPolygon(comps: seq<Polygon>, height: Scalar, c: Counters): Result<Emitted> {
    var relId := c.rel - 1;
    match AddComponents(Pieces([], [], c.(rel := relId)), comps)
    case Err(e) => Err(e)
    case Ok(done) => Ok(MultiPolygonEmitted(relId, done, height))
  }

  /** The encoder's dispatch on the geometry kind. */
  function Encode(feature: Feature, c: Counters): Result<Emitted> {
    match feature.geom
    case PolygonGeometry(p) => EncodePolygon(p.exterior, feature.height, c)
    case MultiPolygonGeometry(comps) => EncodeMultiPolygon(comps, feature.height, c)
    case OtherGeometry(typeName) => Err(UnsupportedGeometry(typeName))
  }

  /** `create_osm_elements_for_feature`: dispatches on the geometry kind,
      appends elements in the order the source appends their XML and
      advances the shared generator. */
  method EncodeFeature(feature: Feature, ids: IdGenerator) returns (r: Result<Encoded>)
    requires ids.Valid()
    modifies ids
    ensures ids.Valid()
    ensures r.Ok? ==> Encode(feature, old(ids.State())) == Ok(Emitted(r.value, ids.State()))
    ensures r.Err? ==> Encode(feature, old(ids.State())) == Err(r.error)
    ensures feature.geom.OtherGeometry? ==> ids.State() == old(ids.State())
  {
    match feature.geom {
      case PolygonGeometry(polygon) =>
        r := PolygonElements(polygon, feature.height, ids);
      case MultiPolygonGeometry(components) =>
        r := MultiPolygonElements(components, feature.height, ids);
      case OtherGeometry(typeName) =>
        r := Err(UnsupportedGeometry(typeName));
    }
  }

  /** The Polygon branch (lines 93-110). */
  method PolygonElements(polygon: Polygon, height: Scalar, ids: IdGenerator) returns (r: Result<Encoded>)
    requires ids.Valid()
    modifies ids
    ensures ids.Valid()
    ensures r.Ok? ==> EncodePolygon(polygon.exterior, height, old(ids.State())) == Ok(Emitted(r.value, ids.State()))
    ensures r.Err? ==> EncodePolygon(polygon.exterior, height, old(ids.State())) == Err(r.error)
  {
    ghost var c := ids.State();
    var outer := CloseRing(polygon.exterior);
    if outer.Err? {
      return Err(outer.error);
    }
    var nodes := AddRingNodes(outer.value, ids);
    assert nodes == RingNodes(outer.value, c.node);
    var wayId := ids.NextWay();
    assert wayId == c.way - 1;
    assert ids.State() == Counters(c.node - |outer.value|, c.way - 1, c.rel);
    var way := Way(wayId, NodeIds(nodes), PartTags(height));
    r := Ok(Encoded(NodeElements(nodes) + [WayElement(way)], wayId, WayKind));
    assert Emitted(r.value, ids.State()) == WayOver(nodes, height, c);
  }

  /** The MultiPolygon branch (lines 112-159): the relation id first, then
      each component in order; the relation element heads the result. */
  method MultiPolygonElements(components: seq<Polygon>, height: Scalar, ids: IdGenerator) returns (r: Result<Encoded>)
    requires ids.Valid()
    modifies ids
    ensures ids.Valid()
    ensures r.Ok? ==> EncodeMultiPolygon(components, height, old(ids.State())) == Ok(Emitted(r.value, ids.State()))
    ensures r.Err? ==> EncodeMultiPolygon(components, height, old(ids.State())) == Err(r.error)
  {
    ghost var c := ids.State();
    EncodeMultiPolygonResult(components, height, c);
    var relId := ids.NextRel();
    var parts: seq<Element> := [];
    var members: seq<Member> := [];
    ghost var start := Pieces([], [], ids.State());
    assert start == Pieces([], [], c.(rel := c.rel - 1));
    for k := 0 to |components|
      invariant ids.Valid()
      invariant AddComponents(start, components) == AddComponents(Pieces(parts, members, ids.State()), components[k..])
    {
      ghost var cur := Pieces(parts, members, ids.State());
      AddComponentsUnfold(cur, components[k..]);
      assert components[k..][0] == components[k];
      assert components[k..][1..] == components[k + 1..];
      var next := AddComponentElements(components[k], parts, members, ids);
      if next.Err? {
        assert AddComponents(start, components) == Err(next.error);
        return Err(next.error);
      }
      parts, members := next.value.parts, next.value.members;
    }
    assert components[|components|..] == [];
    ghost var done := Pieces(parts, members, ids.State());
    var relation := Relation(relId, members, MultipolygonTags(height));
    r := Ok(Encoded([RelationElement(relation)] + parts, relId, RelationKind));
    ghost var emitted := MultiPolygonEmitted(relId, done, height);
    assert r.value == emitted.encoded && ids.State() == emitted.after;
    assert Emitted(r.value, ids.State()) == emitted;
    assert AddComponents(start, components) == Ok(done);
  }

  lemma EncodeMultiPolygonResult(comps: seq<Polygon>, height: Scalar, c: Counters)
    ensures var components := AddComponents(Pieces([], [], c.(rel := c.rel - 1)), comps);
      && (components.Err? ==> EncodeMultiPolygon(comps, height, c) == Err(components.error))
      && (components.Ok? ==> EncodeMultiPolygon(comps, height, c) == Ok(MultiPolygonEmitted(c.rel - 1, components.value, height)))
  {
  }

  lemma AddComponentsUnfold(acc: Pieces, comps: seq<Polygon>)
    requires comps != []
    ensures AddComponent(acc, comps[0]).Err? ==> AddComponents(acc, comps) == Err(AddComponent(acc, comps[0]).error)
    ensures AddComponent(acc, comps[0]).Ok? ==>
      AddComponents(acc, comps) == AddComponents(AddComponent(acc, comps[0]).value, comps[1..])
  {
  }

  lemma AddInteriorsUnfold(acc: Pieces, rings: seq<seq<Coord>>)
    requires rings != []
    ensures AddInterior(acc, rings[0]).Err? ==> AddInteriors(acc, rings) == Err(AddInterior(acc, rings[0]).error)
    ensures AddInterior(acc, rings[0]).Ok? ==>
      AddInteriors(acc, rings) == AddInteriors(AddInterior(acc, rings[0]).value, rings[1..])
  {
  }

  /** One pass of the loop over the components of a multipolygon (lines
      120-157): appends the component's elements and members. */
  method AddComponentElements(polygon: Polygon, parts: seq<Element>, members: seq<Member>, ids: IdGenerator)
    returns (r: Result<Pieces>)
    requires ids.Valid()
    modifies ids
    ensures ids.Valid()
    ensures r == AddComponent(Pieces(parts, members, old(ids.State())), polygon)
    ensures r.Ok? ==> r.value.after == ids.State()
  {
    ghost var acc := Pieces(parts, members, ids.State());
    var outer := CloseRing(polygon.exterior);
    if outer.Err? {
      return Err(outer.error);
    }
    var outerNodes := AddRingNodes(outer.value, ids);
    assert outerNodes == RingNodes(outer.value, acc.after.node);
    var parts' := parts + NodeElements(outerNodes);
    var outerWayId := ids.NextWay();
    assert outerWayId == acc.after.way - 1;
    assert ids.State() == Counters(acc.after.node - |outer.value|, acc.after.way - 1, acc.after.rel);
    var members' := members + [Member(WayKind, outerWayId, Outer)];
    var outerWay := Way(outerWayId, NodeIds(outerNodes), []);
    assert Pieces(parts', members', ids.State()) == WithOuter(acc, outer.value);
    assert WayElement(outerWay) == OuterWay(acc, outer.value);
    for j := 0 to |polygon.interiors|
      invariant ids.Valid()
      invariant AddInteriors(WithOuter(acc, outer.value), polygon.interiors)
             == AddInteriors(Pieces(parts', members', ids.State()), polygon.interiors[j..])
    {
      ghost var cur := Pieces(parts', members', ids.State());
      AddInteriorsUnfold(cur, polygon.interiors[j..]);
      assert polygon.interiors[j..][0] == polygon.interiors[j];
      assert polygon.interiors[j..][1..] == polygon.interiors[j + 1..];
      var next := AddInteriorElements(polygon.interiors[j], parts', members', ids);
      if next.Err? {
        return Err(next.error);
      }
      parts', members' := next.value.parts, next.value.members;
    }
    assert polygon.interiors[|polygon.interiors|..] == [];
    parts' := parts' + [WayElement(outerWay)];
    r := Ok(Pieces(parts', members', ids.State()));
  }

  /** One pass of the loop over the interior rings of a component (lines
      139-155): the ring's nodes, its `inner` member and its way. */
  method AddInteriorElements(ring: seq<Coord>, parts: seq<Element>, members: seq<Member>, ids: IdGenerator)
    returns (r: Result<Pieces>)
    requires ids.Valid()
    modifies ids
    ensures ids.Valid()
    ensures r == AddInterior(Pieces(parts, members, old(ids.State())), ring)
    ensures r.Ok? ==> r.value.after == ids.State()
  {
    ghost var acc := Pieces(parts, members, ids.State());
    var inner := CloseRing(ring);
    if inner.Err? {
      return Err(inner.error);
    }
    var innerNodes := AddRingNodes(inner.value, ids);
    assert innerNodes == RingNodes(inner.value, acc.after.node);
    var innerWayId := ids.NextWay();
    assert innerWayId == acc.after.way - 1;
    assert ids.State() == Counters(acc.after.node - |inner.value|, acc.after.way - 1, acc.after.rel);
    var members' := members + [Member(WayKind, innerWayId, Inner)];
    var innerWay := Way(innerWayId, NodeIds(innerNodes), []);
    var parts' := parts + NodeElements(innerNodes) + [WayElement(innerWay)];
    r := Ok(Pieces(parts', members', ids.State()));
    assert r.value == WithInterior(acc, inner.value);
  }
}
