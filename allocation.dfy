/// Which ids a sequence of emitted elements carries, compared with what an
/// id generator handed out while producing them.
module Allocation {

  import opened Elements
  import opened Ids

  /** `parts` carries exactly the ids a generator hands out while its
      counters move from `before` to `after`: node ids and relation ids in
      the order they were handed out, way ids in some order (a
      multipolygon emits each outer way after the ways of its holes). */
  predicate Allocated(parts: seq<Element>, before: Counters, after: Counters) {
    && after.node <= before.node && after.way <= before.way && after.rel <= before.rel
    && IdsOf(parts, NodeKind) == Countdown(before.node, before.node - after.node)
    && IdsOf(parts, RelationKind) == Countdown(before.rel, before.rel - after.rel)
    && Between(IdsOf(parts, WayKind), before.way, after.way)
  }

  /** A relation element alone allocates its own id, the next relation id. */
  lemma AllocatedRelation(r: Relation, c: Counters)
    requires r.id == c.rel - 1
    ensures Allocated([RelationElement(r)], c, c.(rel := c.rel - 1))
  {
    var e := [RelationElement(r)];
    assert e[..0] == [];
    assert IdsOf(e, NodeKind) == [] && IdsOf(e, WayKind) == [];
    assert IdsOf(e, RelationKind) == [r.id] == Countdown(c.rel, 1);
  }

  /** Emitting `a` and then `b` allocates what the two allocate one after
      the other. */
  lemma AllocatedConcat(a: seq<Element>, b: seq<Element>, c0: Counters, c1: Counters, c2: Counters)
    requires Allocated(a, c0, c1) && Allocated(b, c1, c2)
    ensures Allocated(a + b, c0, c2)
  {
    assert IdsOf(a + b, NodeKind) == Countdown(c0.node, c0.node - c2.node) by {
      InOrderConcat(a, b, NodeKind, c0.node, c1.node, c2.node);
    }
    assert IdsOf(a + b, RelationKind) == Countdown(c0.rel, c0.rel - c2.rel) by {
      InOrderConcat(a, b, RelationKind, c0.rel, c1.rel, c2.rel);
    }
    assert Between(IdsOf(a + b, WayKind), c0.way, c2.way) by {
      IdsOfAppend(a, b, WayKind);
      BetweenConcat(IdsOf(a, WayKind), IdsOf(b, WayKind), c0.way, c1.way, c2.way);
    }
  }

  /** Allocating from `k0` down to `k1` and then down to `k2` hands out
      the ids of allocating from `k0` down to `k2`. */
  lemma CountdownJoin(k0: int, k1: int, k2: int)
    requires k2 <= k1 <= k0
    ensures Countdown(k0, k0 - k1) + Countdown(k1, k1 - k2) == Countdown(k0, k0 - k2)
  {
    CountdownSplit(k0, k0 - k1, k1 - k2);
  }

  lemma InOrderConcat(a: seq<Element>, b: seq<Element>, kind: ElementKind, k0: int, k1: int, k2: int)
    requires k2 <= k1 <= k0
    requires IdsOf(a, kind) == Countdown(k0, k0 - k1) && IdsOf(b, kind) == Countdown(k1, k1 - k2)
    ensures IdsOf(a + b, kind) == Countdown(k0, k0 - k2)
  {
    IdsOfAppend(a, b, kind);
    CountdownJoin(k0, k1, k2);
  }

  /** In the elements emitted by a fresh generator, node and relation ids
      run -1, -2, ... in document order and way ids are -1 .. `after.way`
      in some order, so no id of one kind is repeated. */
  lemma FreshAllocation(parts: seq<Element>, after: Counters)
    requires Allocated(parts, Fresh, after)
    ensures forall i :: 0 <= i < |IdsOf(parts, NodeKind)| ==> IdsOf(parts, NodeKind)[i] == -1 - i
    ensures forall i :: 0 <= i < |IdsOf(parts, RelationKind)| ==> IdsOf(parts, RelationKind)[i] == -1 - i
    ensures |IdsOf(parts, WayKind)| == -after.way
    ensures forall id :: id in IdsOf(parts, WayKind) ==> after.way <= id <= -1
    ensures Distinct(IdsOf(parts, NodeKind)) && Distinct(IdsOf(parts, WayKind)) && Distinct(IdsOf(parts, RelationKind))
  {
    CountdownFacts(0, -after.node);
    CountdownFacts(0, -after.rel);
  }
}
