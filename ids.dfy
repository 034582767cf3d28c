/// Placeholder ids for new elements. OsmChange documents give elements that
/// do not exist yet negative ids; the generator keeps one counter per
/// element kind, each starting at 0 and stepping down by one per id.
module Ids {

  import opened Seqs

  /** A snapshot of the three counters: the last id handed out of each kind,
      or 0 when none has been. */
  datatype Counters = Counters(node: int, way: int, rel: int)

  /** The counters of a generator that has handed out nothing. */
  const Fresh := Counters(0, 0, 0)

  /** The ids that `n` successive allocations hand out from a counter
      standing at `from`: one below `from`, then one below that, and so on. */
  function Countdown(from: int, n: nat): (ids: seq<int>)
    ensures |ids| == n
  {
    seq(n, i => from - 1 - i)
  }

  predicate Distinct(s: seq<int>) {
    forall i, j :: 0 <= i < j < |s| ==> s[i] != s[j]
  }

  /** Ids from a counter that starts at or below 0 are negative, strictly
      decreasing and therefore pairwise distinct; a fresh counter starts at -1. */
  lemma CountdownFacts(from: int, n: nat)
    requires from <= 0
    ensures forall id :: id in Countdown(from, n) ==> id < 0
    ensures forall i, j :: 0 <= i < j < n ==> Countdown(from, n)[j] < Countdown(from, n)[i]
    ensures Distinct(Countdown(from, n))
    ensures from == 0 && n > 0 ==> Countdown(from, n)[0] == -1
  {
  }

  /** Allocating `n` ids and then `m` more hands out the same ids, in the
      same order, as allocating `n + m` at once. */
  lemma CountdownSplit(from: int, n: nat, m: nat)
    ensures Countdown(from, n) + Countdown(from - n, m) == Countdown(from, n + m)
  {
    var left, right, whole := Countdown(from, n), Countdown(from - n, m), Countdown(from, n + m);
    forall i | 0 <= i < n + m
      ensures (left + right)[i] == whole[i]
    {
      if i >= n {
        assert right[i - n] == from - n - 1 - (i - n);
      }
    }
  }

  /** `ids` are the ids a counter hands out while it moves from `hi` down
      to `lo`, in some order: one per step, none twice, all in range. */
  predicate Between(ids: seq<int>, hi: int, lo: int) {
    && |ids| == hi - lo
    && Distinct(ids)
    && forall i :: 0 <= i < |ids| ==> lo <= ids[i] < hi
  }

  /** Ids handed out in order are, in particular, handed out in some order. */
  lemma CountdownBetween(hi: int, lo: int)
    requires lo <= hi
    ensures Between(Countdown(hi, hi - lo), hi, lo)
  {
  }

  /** Two runs of a counter, one after the other, together form one run. */
  lemma BetweenConcat(a: seq<int>, b: seq<int>, k0: int, k1: int, k2: int)
    requires Between(a, k0, k1) && Between(b, k1, k2)
    ensures Between(a + b, k0, k2)
  {
    forall i, j | 0 <= i < j < |a + b|
      ensures (a + b)[i] != (a + b)[j]
    {
      if j >= |a| && i < |a| {
        assert (a + b)[j] == b[j - |a|] < k1 <= a[i];
      }
    }
  }

  /** `issued` is what a counter now standing at `counter` has handed out. */
  ghost predicate Issued(issued: seq<int>, counter: int) {
    counter <= 0 && |issued| == -counter &&
    (issued != [] ==> Last(issued) == counter) &&
    forall x :: x in issued ==> counter <= x < 0
  }

  /** The generator of one output file (lines 31-47 of the source). The
      ghost histories record every id handed out, per kind, in order. */
  class IdGenerator {
    var nodeCounter: int
    var wayCounter: int
    var relationCounter: int

    ghost var nodesIssued: seq<int>
    ghost var waysIssued: seq<int>
    ghost var relationsIssued: seq<int>

    /** Each history lies between its counter and -1, has one entry per
        decrement of the counter and ends at the counter. */
    ghost predicate Valid()
      reads this
    {
      Issued(nodesIssued, nodeCounter) && Issued(waysIssued, wayCounter) && Issued(relationsIssued, relationCounter)
    }

    function State(): Counters
      reads this
    {
      Counters(nodeCounter, wayCounter, relationCounter)
    }

    constructor ()
      ensures Valid() && State() == Fresh
      ensures nodesIssued == [] && waysIssued == [] && relationsIssued == []
    {
      nodeCounter, wayCounter, relationCounter := 0, 0, 0;
      nodesIssued, waysIssued, relationsIssued := [], [], [];
    }

    /** Hands out -1 first and afterwards one less than the previous node id,
        never a node id handed out before. */
    method NextNode() returns (id: int)
      requires Valid()
      modifies this
      ensures Valid()
      ensures id < 0 && id !in old(nodesIssued)
      ensures old(nodesIssued) == [] ==> id == -1
      ensures old(nodesIssued) != [] ==> id == Last(old(nodesIssued)) - 1
      ensures nodesIssued == old(nodesIssued) + [id]
      ensures id == old(nodeCounter) - 1 && State() == old(State()).(node := id)
      ensures waysIssued == old(waysIssued) && relationsIssued == old(relationsIssued)
    {
      nodeCounter := nodeCounter - 1;
      id := nodeCounter;
      nodesIssued := nodesIssued + [id];
    }

    /** Hands out -1 first and afterwards one less than the previous way id,
        never a way id handed out before. */
    method NextWay() returns (id: int)
      requires Valid()
      modifies this
      ensures Valid()
      ensures id < 0 && id !in old(waysIssued)
      ensures old(waysIssued) == [] ==> id == -1
      ensures old(waysIssued) != [] ==> id == Last(old(waysIssued)) - 1
      ensures waysIssued == old(waysIssued) + [id]
      ensures id == old(wayCounter) - 1 && State() == old(State()).(way := id)
      ensures nodesIssued == old(nodesIssued) && relationsIssued == old(relationsIssued)
    {
      wayCounter := wayCounter - 1;
      id := wayCounter;
      waysIssued := waysIssued + [id];
    }

    /** Hands out -1 first and afterwards one less than the previous relation
        id, never a relation id handed out before. */
    method NextRel() returns (id: int)
      requires Valid()
      modifies this
      ensures Valid()
      ensures id < 0 && id !in old(relationsIssued)
      ensures old(relationsIssued) == [] ==> id == -1
      ensures old(relationsIssued) != [] ==> id == Last(old(relationsIssued)) - 1
      ensures relationsIssued == old(relationsIssued) + [id]
      ensures id == old(relationCounter) - 1 && State() == old(State()).(rel := id)
      ensures nodesIssued == old(nodesIssued) && waysIssued == old(waysIssued)
    {
      relationCounter := relationCounter - 1;
      id := relationCounter;
      relationsIssued := relationsIssued + [id];
    }
  }
}
