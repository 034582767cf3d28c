/// Encoding one coordinate ring: close it if it is open, then allocate one
/// node per coordinate (lines 97-100, 122-125 and 140-143 of the source).
module Rings {

  import opened Seqs
  import opened Elements
  import opened Ids

  /** A ring whose last coordinate repeats its first. */
  predicate IsClosed(coords: seq<Coord>) {
    coords != [] && coords[0] == Last(coords)
  }

  /** The ring the encoder walks: `coords` itself when it is closed,
      otherwise `coords` with a copy of its first coordinate appended. An
      empty ring fails, as indexing its first coordinate does. */
  function CloseRing(coords: seq<Coord>): (r: Result<seq<Coord>>)
    ensures r.Err? <==> coords == []
    ensures r.Err? ==> r.error == EmptyRing
    ensures r.Ok? ==> IsClosed(r.value) && coords <= r.value && |r.value| <= |coords| + 1
    ensures r.Ok? ==> (r.value == coords <==> IsClosed(coords))
  {
    if coords == [] then Err(EmptyRing)
    else if coords[0] != Last(coords) then Ok(coords + [coords[0]])
    else Ok(coords)
  }

  /** Closing a ring twice changes nothing more than closing it once. */
  lemma CloseRingIdempotent(coords: seq<Coord>)
    requires coords != []
    ensures CloseRing(CloseRing(coords).value) == CloseRing(coords)
  {
  }

  /** An open ring grows by exactly one coordinate, a copy of its first. */
  lemma CloseOpenRing(coords: seq<Coord>)
    requires coords != [] && !IsClosed(coords)
    ensures CloseRing(coords) == Ok(coords + [coords[0]])
  {
  }

  /** The nodes allocated for `coords` by a node counter standing at
      `counter`, in ring order: ids count down from one below the counter,
      and each node copies `y` into `lat` and `x` into `lon`. */
  function RingNodes(coords: seq<Coord>, counter: int): (nodes: seq<Node>)
    ensures |nodes| == |coords|
    ensures NodeIds(nodes) == Countdown(counter, |coords|)
    ensures forall i :: 0 <= i < |coords| ==> nodes[i].lat == coords[i].y && nodes[i].lon == coords[i].x
  {
    if coords == [] then []
    else RingNodes(coords[..|coords| - 1], counter) + [Node(counter - |coords|, Last(coords).y, Last(coords).x)]
  }

  /** Reads the coordinates back off a sequence of nodes. */
  function NodeCoords(nodes: seq<Node>): (coords: seq<Coord>)
    ensures |coords| == |nodes|
  {
    seq(|nodes|, i requires 0 <= i < |nodes| => Coord(nodes[i].lon, nodes[i].lat))
  }

  /** Reading the nodes of a ring back gives the ring: no coordinate is
      transformed, dropped or reordered. */
  lemma RingNodesRoundTrip(coords: seq<Coord>, counter: int)
    ensures NodeCoords(RingNodes(coords, counter)) == coords
  {
    var nodes := RingNodes(coords, counter);
    forall i | 0 <= i < |coords|
      ensures NodeCoords(nodes)[i] == coords[i]
    {
    }
  }

  /** The encoded way of a ring returns to its start: its first and last
      references name nodes carrying the same coordinate. */
  lemma ClosedRingWayReturns(coords: seq<Coord>, counter: int)
    requires CloseRing(coords).Ok?
    ensures var nodes := RingNodes(CloseRing(coords).value, counter);
      nodes != [] && NodeCoords([nodes[0]]) == NodeCoords([Last(nodes)])
  {
    var ring := CloseRing(coords).value;
    var nodes := RingNodes(ring, counter);
    assert nodes[0].lat == ring[0].y && Last(nodes).lat == Last(ring).y;
  }

  /** `[add_node(y, x) for (x, y) in coords]`: allocates one node id per
      coordinate, in ring order, and returns the nodes. */
  method AddRingNodes(coords: seq<Coord>, ids: IdGenerator) returns (nodes: seq<Node>)
    requires ids.Valid()
    modifies ids
    ensures ids.Valid()
    ensures nodes == RingNodes(coords, old(ids.nodeCounter))
    ensures ids.State() == old(ids.State()).(node := old(ids.nodeCounter) - |coords|)
  {
    nodes := [];
    for i := 0 to |coords|
      invariant ids.Valid()
      invariant nodes == RingNodes(coords[..i], old(ids.nodeCounter))
      invariant ids.State() == old(ids.State()).(node := old(ids.nodeCounter) - i)
    {
      var id := ids.NextNode();
      assert coords[..i + 1][..i] == coords[..i];
      nodes := nodes + [Node(id, coords[i].y, coords[i].x)];
    }
    assert coords[..|coords|] == coords;
  }
}
