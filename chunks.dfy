/// Cutting a section's sorted blocks into the chunks that each become one
/// change file, and naming those files (lines 195-203 of the source).
module Chunking {

  import opened Seqs
  import opened Sorting

  /** At most this many blocks go into one change file. */
  const ChunkSize: nat := 5

  function Min(a: int, b: int): int {
    if a <= b then a else b
  }

  /** `blocks[i : i + 5] for i in range(0, len(blocks), 5)`: consecutive
      chunks of five blocks, the last one possibly shorter. */
  function Chunks(blocks: seq<string>): (cs: seq<seq<string>>)
    ensures |cs| == (|blocks| + ChunkSize - 1) / ChunkSize
    ensures forall k :: 0 <= k < |cs| ==> 1 <= |cs[k]| <= ChunkSize
    ensures forall k :: 0 <= k < |cs| - 1 ==> |cs[k]| == ChunkSize
    decreases |blocks|
  {
    if blocks == [] then []
    else
      var n := Min(ChunkSize, |blocks|);
      [blocks[..n]] + Chunks(blocks[n..])
  }

  /** The chunks, put back together, are the blocks they came from. */
  lemma {:induction false} ChunksConcat(blocks: seq<string>)
    ensures Concat(Chunks(blocks)) == blocks
    decreases |blocks|
  {
    if blocks != [] {
      var n := Min(ChunkSize, |blocks|);
      var cs := Chunks(blocks);
      assert cs == [blocks[..n]] + Chunks(blocks[n..]);
      assert cs[0] == blocks[..n] && cs[1..] == Chunks(blocks[n..]);
      ChunksConcat(blocks[n..]);
      assert Concat(cs) == blocks[..n] + blocks[n..];
      assert blocks[..n] + blocks[n..] == blocks;
    }
  }

  /** Chunk `k` is the slice that starts at block `5 * k`. */
  lemma {:induction false} ChunkAt(blocks: seq<string>, k: nat)
    requires k < |Chunks(blocks)|
    ensures Chunks(blocks)[k] == blocks[ChunkSize * k .. Min(ChunkSize * k + ChunkSize, |blocks|)]
    decreases k
  {
    var n := Min(ChunkSize, |blocks|);
    var cs := Chunks(blocks);
    assert cs == [blocks[..n]] + Chunks(blocks[n..]);
    if k > 0 {
      assert |cs[0]| == ChunkSize == n;
      var rest := blocks[n..];
      var lo := ChunkSize * (k - 1);
      var hi := Min(lo + ChunkSize, |rest|);
      assert cs[k] == Chunks(rest)[k - 1];
      ChunkAt(rest, k - 1);
      assert n + lo == ChunkSize * k && n + hi == Min(ChunkSize * k + ChunkSize, |blocks|);
      assert rest[lo..hi] == blocks[n + lo .. n + hi];
    }
  }

  /** The `k`-th step of `range(0, n, 5)` starts inside the blocks. */
  lemma ChunkStart(n: nat, k: nat)
    requires k < (n + ChunkSize - 1) / ChunkSize
    ensures ChunkSize * k < n
  {
  }

  /** The chunks of sorted blocks are sorted, and one chunk's blocks all
      come before the next chunk's. */
  lemma ChunksInOrder(blocks: seq<string>, k: nat, l: nat, i: nat, j: nat)
    requires Sorted(blocks)
    requires k < l < |Chunks(blocks)| && i < |Chunks(blocks)[k]| && j < |Chunks(blocks)[l]|
    ensures LexLeq(Chunks(blocks)[k][i], Chunks(blocks)[l][j])
  {
    ChunkAt(blocks, k);
    ChunkAt(blocks, l);
    assert Chunks(blocks)[k][i] == blocks[ChunkSize * k + i];
    assert Chunks(blocks)[l][j] == blocks[ChunkSize * l + j];
  }

  /** `sec{sec}_blocks_{first}`, then `-{last}` when the chunk's last block
      differs from its first, then `.osc`. */
  function FileName(sec: string, chunk: seq<string>): (name: string)
    requires chunk != []
  {
    "sec" + sec + "_blocks_" + chunk[0]
      + (if Last(chunk) != chunk[0] then "-" + Last(chunk) else "")
      + ".osc"
  }

  /** The name starts with the section and the first block, ends in `.osc`,
      and names the last block in between exactly when it is not the first. */
  lemma FileNameShape(sec: string, chunk: seq<string>)
    requires chunk != []
    ensures var head := "sec" + sec + "_blocks_" + chunk[0];
      var name := FileName(sec, chunk);
      && |head| + 4 <= |name|
      && name[..|head|] == head
      && name[|name| - 4..] == ".osc"
      && (Last(chunk) == chunk[0] <==> |name| == |head| + 4)
      && (Last(chunk) != chunk[0] ==> name[|head|..|name| - 4] == "-" + Last(chunk))
  {
    var head := "sec" + sec + "_blocks_" + chunk[0];
    var mid := if Last(chunk) != chunk[0] then "-" + Last(chunk) else "";
    var name := FileName(sec, chunk);
    assert name == head + mid + ".osc";
    assert name[..|head|] == head;
    assert name[|name| - 4..] == ".osc";
    assert name[|head|..|name| - 4] == mid;
  }

  /** For blocks with distinct names, the range suffix appears exactly when
      the chunk holds more than one block. */
  lemma RangeOnlyForSeveral(chunk: seq<string>)
    requires chunk != []
    requires forall i, j :: 0 <= i < j < |chunk| ==> chunk[i] != chunk[j]
    ensures Last(chunk) != chunk[0] <==> |chunk| > 1
  {
  }
}
