/// The values the changefile generator reads and writes: building features
/// with their geometry, and the OpenStreetMap elements (nodes, ways,
/// relations) of an OsmChange document, kept as structured values rather
/// than as XML text.
module Elements {

  import opened Seqs

  /** A floating-point value read from the store: a coordinate component or
      a height. The generator only compares and copies these, so they stay
      opaque. */
  type Scalar(==)

  /** One vertex of a ring: `x` is the longitude, `y` the latitude. */
  datatype Coord = Coord(x: Scalar, y: Scalar)

  /** A polygon: an exterior ring and zero or more interior rings (holes).
      Rings may or may not repeat their first coordinate at the end. */
  datatype Polygon = Polygon(exterior: seq<Coord>, interiors: seq<seq<Coord>>)

  /** The geometry of a feature. Any kind other than a polygon or a
      multipolygon is kept only by the name of its type. */
  datatype Geometry =
    | PolygonGeometry(polygon: Polygon)
    | MultiPolygonGeometry(components: seq<Polygon>)
    | OtherGeometry(typeName: string)

  /** One building record: section and block are the grouping keys, `smp`
      identifies the parcel, `height` is copied into a tag. */
  datatype Feature = Feature(section: string, block: string, smp: string, height: Scalar, geom: Geometry)

  datatype ElementKind = NodeKind | WayKind | RelationKind

  /** Member roles: parts of a multipolygon and parts of a building. */
  datatype Role = Outer | Inner | Part

  datatype TagValue = Text(text: string) | Measure(value: Scalar)
  datatype Tag = Tag(key: string, value: TagValue)

  datatype Member = Member(kind: ElementKind, ref: int, role: Role)

  /** A node carries `lat` and `lon` as attributes. */
  datatype Node = Node(id: int, lat: Scalar, lon: Scalar)
  /** A way: its `nd` references, in order, and its tags. */
  datatype Way = Way(id: int, refs: seq<int>, tags: seq<Tag>)
  datatype Relation = Relation(id: int, members: seq<Member>, tags: seq<Tag>)

  datatype Element =
    | NodeElement(node: Node)
    | WayElement(way: Way)
    | RelationElement(relation: Relation)
  {
    function Kind(): ElementKind {
      match this
      case NodeElement(_) => NodeKind
      case WayElement(_) => WayKind
      case RelationElement(_) => RelationKind
    }

    function Id(): int {
      match this
      case NodeElement(n) => n.id
      case WayElement(w) => w.id
      case RelationElement(r) => r.id
    }
  }

  /** The two ways encoding a feature can fail: indexing the first
      coordinate of an empty ring, and a geometry kind that is neither a
      polygon nor a multipolygon. */
  datatype EncodeError = EmptyRing | UnsupportedGeometry(typeName: string)

  datatype Result<T> = Ok(value: T) | Err(error: EncodeError)

  /** The ids of the elements of kind `kind` in `parts`, in document order. */
  function IdsOf(parts: seq<Element>, kind: ElementKind): (ids: seq<int>)
    ensures |ids| <= |parts|
  {
    if parts == [] then []
    else IdsOf(parts[..|parts| - 1], kind) + (if Last(parts).Kind() == kind then [Last(parts).Id()] else [])
  }

  lemma {:induction false} IdsOfAppend(a: seq<Element>, b: seq<Element>, kind: ElementKind)
    ensures IdsOf(a + b, kind) == IdsOf(a, kind) + IdsOf(b, kind)
    decreases |b|
  {
    if b == [] {
      assert a + b == a;
    } else {
      assert (a + b)[..|a + b| - 1] == a + b[..|b| - 1];
      IdsOfAppend(a, b[..|b| - 1], kind);
    }
  }

  /** The node elements for `nodes`, in order. */
  function NodeElements(nodes: seq<Node>): (parts: seq<Element>)
    ensures |parts| == |nodes|
    ensures forall i :: 0 <= i < |nodes| ==> parts[i] == NodeElement(nodes[i])
  {
    seq(|nodes|, i requires 0 <= i < |nodes| => NodeElement(nodes[i]))
  }

  /** The ids of `nodes`, in order: the `nd` references of a way over them. */
  function NodeIds(nodes: seq<Node>): (ids: seq<int>)
    ensures |ids| == |nodes|
    ensures forall i :: 0 <= i < |nodes| ==> ids[i] == nodes[i].id
  {
    seq(|nodes|, i requires 0 <= i < |nodes| => nodes[i].id)
  }

  /** Node elements contribute their ids, in order, and nothing of another kind. */
  lemma {:induction false} IdsOfNodeElements(nodes: seq<Node>)
    ensures IdsOf(NodeElements(nodes), NodeKind) == NodeIds(nodes)
    ensures IdsOf(NodeElements(nodes), WayKind) == []
    ensures IdsOf(NodeElements(nodes), RelationKind) == []
    decreases |nodes|
  {
    if nodes != [] {
      var init := nodes[..|nodes| - 1];
      assert NodeElements(nodes)[..|nodes| - 1] == NodeElements(init);
      IdsOfNodeElements(init);
      assert NodeIds(nodes) == NodeIds(init) + [Last(nodes).id];
    }
  }
}
