/// The XML lines of the encoder's output, one `Line` per line it appends,
/// and whether they nest as OsmChange requires: a `node` line stands
/// alone, a `way` holds only `nd` and `tag` lines, a `relation` only `tag`
/// and `member` lines.
///
/// `Render` lays out a list of elements one self-contained block after
/// another; the multipolygon branch of the source, modelled line by line
/// in `WrittenMultiPolygon`, instead appends its nodes and ways between the
/// relation's opening and closing lines.
module Layout {

  import opened Elements
  import opened Ids
  import opened Rings
  import opened Features
  import opened Export

  datatype Line =
    | NodeLine(node: Node)
    | WayOpen(wayId: int)
    | NdLine(ref: int)
    | WayClose
    | RelationOpen(relationId: int)
    | MemberLine(member: Member)
    | RelationClose
    | TagLine(tag: Tag)

  function NdLines(refs: seq<int>): (lines: seq<Line>)
    ensures |lines| == |refs| && forall i :: 0 <= i < |refs| ==> lines[i] == NdLine(refs[i])
  {
    seq(|refs|, i requires 0 <= i < |refs| => NdLine(refs[i]))
  }

  function TagLines(tags: seq<Tag>): (lines: seq<Line>)
    ensures |lines| == |tags| && forall i :: 0 <= i < |tags| ==> lines[i] == TagLine(tags[i])
  {
    seq(|tags|, i requires 0 <= i < |tags| => TagLine(tags[i]))
  }

  function MemberLines(members: seq<Member>): (lines: seq<Line>)
    ensures |lines| == |members| && forall i :: 0 <= i < |members| ==> lines[i] == MemberLine(members[i])
  {
    seq(|members|, i requires 0 <= i < |members| => MemberLine(members[i]))
  }

  function NodeLines(nodes: seq<Node>): (lines: seq<Line>)
    ensures |lines| == |nodes| && forall i :: 0 <= i < |nodes| ==> lines[i] == NodeLine(nodes[i])
  {
    seq(|nodes|, i requires 0 <= i < |nodes| => NodeLine(nodes[i]))
  }

  /** An element as one block: a way's `nd` lines then its tags, a
      relation's tags then its members. */
  function ElementLines(e: Element): seq<Line> {
    match e
    case NodeElement(n) => [NodeLine(n)]
    case WayElement(w) => [WayOpen(w.id)] + NdLines(w.refs) + TagLines(w.tags) + [WayClose]
    case RelationElement(r) => [RelationOpen(r.id)] + TagLines(r.tags) + MemberLines(r.members) + [RelationClose]
  }

  /** The elements laid out one block after another. */
  function Render(es: seq<Element>): seq<Line>
    decreases |es|
  {
    if es == [] then [] else ElementLines(es[0]) + Render(es[1..])
  }

  /** Where a reader of the lines stands: between elements, inside a way,
      inside a relation, or past a line that may not appear there. */
  datatype Scope = Outside | InWay | InRelation | Misplaced

  function Step(s: Scope, line: Line): Scope {
    match s
    case Outside =>
      (match line
       case NodeLine(_) => Outside
       case WayOpen(_) => InWay
       case RelationOpen(_) => InRelation
       case _ => Misplaced)
    case InWay =>
      (match line
       case NdLine(_) => InWay
       case TagLine(_) => InWay
       case WayClose => Outside
       case _ => Misplaced)
    case InRelation =>
      (match line
       case TagLine(_) => InRelation
       case MemberLine(_) => InRelation
       case RelationClose => Outside
       case _ => Misplaced)
    case Misplaced => Misplaced
  }

  function Scan(s: Scope, lines: seq<Line>): Scope
    decreases |lines|
  {
    if lines == [] then s else Scan(Step(s, lines[0]), lines[1..])
  }

  /** Every line sits where OsmChange allows it, and every element that is
      opened is closed. */
  predicate WellNested(lines: seq<Line>) {
    Scan(Outside, lines) == Outside
  }

  lemma {:induction false} ScanAppend(s: Scope, a: seq<Line>, b: seq<Line>)
    ensures Scan(s, a + b) == Scan(Scan(s, a), b)
    decreases |a|
  {
    if a == [] {
      assert a + b == b;
    } else {
      assert (a + b)[1..] == a[1..] + b;
      ScanAppend(Step(s, a[0]), a[1..], b);
    }
  }

  lemma {:induction false} ScanMisplaced(lines: seq<Line>)
    ensures Scan(Misplaced, lines) == Misplaced
    decreases |lines|
  {
    if lines != [] {
      ScanMisplaced(lines[1..]);
    }
  }

  /** Lines that keep the reader in scope `s`. */
  lemma {:induction false} ScanStays(s: Scope, lines: seq<Line>)
    requires forall i :: 0 <= i < |lines| ==> Step(s, lines[i]) == s
    ensures Scan(s, lines) == s
    decreases |lines|
  {
    if lines != [] {
      assert forall i :: 0 <= i < |lines[1..]| ==> lines[1..][i] == lines[i + 1];
      ScanStays(s, lines[1..]);
    }
  }

  lemma WayLinesNest(w: Way)
    ensures Scan(Outside, ElementLines(WayElement(w))) == Outside
  {
    var nds, tags := NdLines(w.refs), TagLines(w.tags);
    ScanAppend(Outside, [WayOpen(w.id)] + nds + tags, [WayClose]);
    ScanAppend(Outside, [WayOpen(w.id)] + nds, tags);
    ScanAppend(Outside, [WayOpen(w.id)], nds);
    ScanStays(InWay, nds);
    ScanStays(InWay, tags);
  }

  lemma RelationLinesNest(r: Relation)
    ensures Scan(Outside, ElementLines(RelationElement(r))) == Outside
  {
    var tags, members := TagLines(r.tags), MemberLines(r.members);
    ScanAppend(Outside, [RelationOpen(r.id)] + tags + members, [RelationClose]);
    ScanAppend(Outside, [RelationOpen(r.id)] + tags, members);
    ScanAppend(Outside, [RelationOpen(r.id)], tags);
    ScanStays(InRelation, tags);
    ScanStays(InRelation, members);
  }

  /** Each element's block leads from between elements back to between
      elements. */
  lemma ElementLinesNest(e: Element)
    ensures Scan(Outside, ElementLines(e)) == Outside
  {
    match e
    case NodeElement(n) =>
    case WayElement(w) => WayLinesNest(w);
    case RelationElement(r) => RelationLinesNest(r);
  }

  /** Laid out block by block, any list of elements nests correctly. */
  lemma {:induction false} RenderWellNested(es: seq<Element>)
    ensures WellNested(Render(es))
    decreases |es|
  {
    if es != [] {
      ElementLinesNest(es[0]);
      RenderWellNested(es[1..]);
      ScanAppend(Outside, ElementLines(es[0]), Render(es[1..]));
    }
  }

  /** The lines appended by one step of the source and the counters after it. */
  datatype Written = Written(lines: seq<Line>, after: Counters)

  /** An interior ring as the source appends it (lines 139-155): its node
      lines, its `inner` member line, then its way. */
  function WrittenInterior(c: Counters, ring: seq<Coord>): Result<Written> {
    match CloseRing(ring)
    case Err(e) => Err(e)
    case Ok(closed) =>
      var nodes := RingNodes(closed, c.node);
      var wayId := c.way - 1;
      Ok(Written(NodeLines(nodes) + [MemberLine(Member(WayKind, wayId, Inner))]
                   + ElementLines(WayElement(Way(wayId, NodeIds(nodes), []))),
                 Counters(c.node - |closed|, wayId, c.rel)))
  }

  function WrittenInteriors(c: Counters, rings: seq<seq<Coord>>): Result<Written>
    decreases |rings|
  {
    if rings == [] then Ok(Written([], c))
    else
      match WrittenInterior(c, rings[0])
      case Err(e) => Err(e)
      case Ok(first) =>
        match WrittenInteriors(first.after, rings[1..])
        case Err(e) => Err(e)
        case Ok(rest) => Ok(Written(first.lines + rest.lines, rest.after))
  }

  /** A component as the source appends it (lines 120-157): the exterior
      ring's node lines and `outer` member line, the interior rings, then
      the exterior ring's way. */
  function WrittenComponent(c: Counters, p: Polygon): Result<Written> {
    match CloseRing(p.exterior)
    case Err(e) => Err(e)
    case Ok(outer) =>
      var nodes := RingNodes(outer, c.node);
      var wayId := c.way - 1;
      match WrittenInteriors(Counters(c.node - |outer|, wayId, c.rel), p.interiors)
      case Err(e) => Err(e)
      case Ok(inner) =>
        Ok(Written(NodeLines(nodes) + [MemberLine(Member(WayKind, wayId, Outer))] + inner.lines
                     + ElementLines(WayElement(Way(wayId, NodeIds(nodes), []))),
                   inner.after))
  }

  function WrittenComponents(c: Counters, comps: seq<Polygon>): Result<Written>
    decreases |comps|
  {
    if comps == [] then Ok(Written([], c))
    else
      match WrittenComponent(c, comps[0])
      case Err(e) => Err(e)
      case Ok(first) =>
        match WrittenComponents(first.after, comps[1..])
        case Err(e) => Err(e)
        case Ok(rest) => Ok(Written(first.lines + rest.lines, rest.after))
  }

  /** The multipolygon branch as written (lines 114-159): the relation's
      opening line and tags, every component's lines, then the relation's
      closing line. */
  function WrittenMultiPolygon(comps: seq<Polygon>, height: Scalar, c: Counters): Result<seq<Line>> {
    var w := WrittenComponents(RelationDrawn(c), comps);
    if w.Err? then Err(w.error) else Ok(RelationAround(c.rel - 1, MultipolygonTags(height), w.value.lines))
  }

  /** A relation's opening line and tags, the lines `body`, and its closing
      line. */
  function RelationAround(relId: int, tags: seq<Tag>, body: seq<Line>): seq<Line> {
    [RelationOpen(relId)] + TagLines(tags) + body + [RelationClose]
  }

  /** The counters once the multipolygon's relation id is drawn. */
  function RelationDrawn(c: Counters): Counters {
    Counters(c.node, c.way, c.rel - 1)
  }

  /** A component's lines start with a node line: its closed exterior ring
      has at least one coordinate. */
  lemma WrittenComponentsStart(c: Counters, comps: seq<Polygon>)
    requires comps != [] && WrittenComponents(c, comps).Ok?
    ensures |WrittenComponents(c, comps).value.lines| > 0
    ensures WrittenComponents(c, comps).value.lines[0].NodeLine?
  {
    var first := WrittenComponent(c, comps[0]).value;
    var outer := CloseRing(comps[0].exterior).value;
    var nodes := RingNodes(outer, c.node);
    assert |nodes| > 0;
    assert first.lines[0] == NodeLines(nodes)[0];
  }

  /** As written, a multipolygon with a component puts that component's
      first node line inside the relation element: the lines never nest
      correctly. */
  lemma WrittenMultiPolygonMisnested(comps: seq<Polygon>, height: Scalar, c: Counters)
    requires comps != [] && WrittenMultiPolygon(comps, height, c).Ok?
    ensures !WellNested(WrittenMultiPolygon(comps, height, c).value)
  {
    var body := WrittenMultiPolygonBody(comps, height, c);
    NodeInsideRelation(c.rel - 1, MultipolygonTags(height), body);
  }

  /** The lines between the relation's tags and its closing line, which
      start with a node line. */
  lemma WrittenMultiPolygonBody(comps: seq<Polygon>, height: Scalar, c: Counters) returns (body: seq<Line>)
    requires comps != [] && WrittenMultiPolygon(comps, height, c).Ok?
    ensures |body| > 0 && body[0].NodeLine?
    ensures WrittenMultiPolygon(comps, height, c).value == RelationAround(c.rel - 1, MultipolygonTags(height), body)
  {
    WrittenMultiPolygonLines(comps, height, c);
    body := WrittenComponents(RelationDrawn(c), comps).value.lines;
    WrittenComponentsStart(RelationDrawn(c), comps);
  }

  /** A multipolygon is written when its components are, inside its
      relation's lines. */
  lemma WrittenMultiPolygonLines(comps: seq<Polygon>, height: Scalar, c: Counters)
    ensures WrittenMultiPolygon(comps, height, c).Ok? <==> WrittenComponents(RelationDrawn(c), comps).Ok?
    ensures WrittenMultiPolygon(comps, height, c).Ok? ==>
      WrittenMultiPolygon(comps, height, c).value
        == RelationAround(c.rel - 1, MultipolygonTags(height), WrittenComponents(RelationDrawn(c), comps).value.lines)
  {
    var w := WrittenComponents(RelationDrawn(c), comps);
    if w.Ok? {
      assert WrittenMultiPolygon(comps, height, c) == Ok(RelationAround(c.rel - 1, MultipolygonTags(height), w.value.lines));
    } else {
      assert WrittenMultiPolygon(comps, height, c) == Err(w.error);
    }
  }

  /** A node line right after a relation's opening line and tags is out of
      place, whatever follows it. */
  lemma NodeInsideRelation(relId: int, tags: seq<Tag>, body: seq<Line>)
    requires |body| > 0 && body[0].NodeLine?
    ensures Scan(Outside, RelationAround(relId, tags, body)) == Misplaced
  {
    var head := [RelationOpen(relId)] + TagLines(tags);
    var rest := body[1..] + [RelationClose];
    assert RelationAround(relId, tags, body) == head + ([body[0]] + rest);
    ScanAppend(Outside, head, [body[0]] + rest);
    ScanAppend(Outside, [RelationOpen(relId)], TagLines(tags));
    ScanStays(InRelation, TagLines(tags));
    ScanMisplaced(rest);
  }

  /** The layout of one multipolygon, corrected: its relation as a block of
      tags and members, then its nodes and ways, each a block of its own.
      This is `RenderWellNested` applied to a multipolygon's elements, the
      counterpart of `WrittenMultiPolygonMisnested`. */
  lemma MultiPolygonRendered(comps: seq<Polygon>, height: Scalar, c: Counters)
    requires EncodeMultiPolygon(comps, height, c).Ok?
    ensures WellNested(Render(EncodeMultiPolygon(comps, height, c).value.encoded.parts))
  {
    RenderWellNested(EncodeMultiPolygon(comps, height, c).value.encoded.parts);
  }

  /** Every file an export writes, laid out block by block, nests
      correctly: `RenderWellNested` applied to each written file's
      elements. */
  lemma ExportedFilesNest(sections: seq<Section>, parcels: Parcels)
    ensures forall f :: f in Exported(sections, parcels).written ==> WellNested(Render(f.elements))
  {
    forall f | f in Exported(sections, parcels).written {
      RenderWellNested(f.elements);
    }
  }
}
