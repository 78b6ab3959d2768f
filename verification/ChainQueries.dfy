/** Hash lists read off a chain: `HeightRange` and `IntervalBlockHashes` of chain.go. */
module ChainQueries {
  import opened Base
  import opened BlockNodes
  import FilterCheckpoints

  function HashAt(n: BlockNode, h: nat): Hash
  {
    if h < |Path(n)| then Path(n)[h].block.hash else ZERO_HASH
  }

  function HashesOf(ns: seq<BlockNode>): (r: seq<Hash>)
    ensures |r| == |ns| && forall i :: 0 <= i < |r| ==> r[i] == ns[i].block.hash
  {
    if ns == [] then [] else [ns[0].block.hash] + HashesOf(ns[1..])
  }

  /** Hashes at the heights from `lo` up to, not including, `hi` or the height above the tip. */
  function HeightRange(tip: BlockNode, lo: nat, hi: nat): (r: seq<Hash>)
    requires lo <= hi
    ensures lo + |r| == if lo >= |Path(tip)| then lo else if hi > |Path(tip)| then |Path(tip)| else hi
    ensures r == [] <==> lo == hi || lo >= |Path(tip)|
    ensures forall i :: 0 <= i < |r| ==> lo + i < |Path(tip)| && r[i] == Path(tip)[lo + i].block.hash
  {
    var end := if hi > |Path(tip)| then |Path(tip)| else hi;
    if lo >= end then [] else HashesOf(Path(tip)[lo..end])
  }

  /** Hashes of the blocks on the way to `n` whose height is a positive multiple of the interval. */
  function IntervalHashes(n: BlockNode, interval: nat): (r: seq<Hash>)
    requires interval > 0
    ensures |r| == (|Path(n)| - 1) / interval
  {
    seq<Hash>((|Path(n)| - 1) / interval, i requires 0 <= i => HashAt(n, (i + 1) * interval))
  }

  lemma TimesMonotone(a: nat, b: nat, interval: nat)
    requires a <= b
    ensures a * interval <= b * interval
  {
  }

  lemma IntervalInRange(h: nat, interval: nat, i: nat)
    requires interval > 0 && i < h / interval
    ensures interval <= (i + 1) * interval <= h
  {
    TimesMonotone(1, i + 1, interval);
    TimesMonotone(i + 1, h / interval, interval);
  }

  lemma IntervalAt(n: BlockNode, interval: nat, i: nat)
    requires interval > 0 && i < (|Path(n)| - 1) / interval
    ensures interval <= (i + 1) * interval < |Path(n)|
    ensures IntervalHashes(n, interval)[i] == Path(n)[(i + 1) * interval].block.hash
  {
    hide Path;
    IntervalInRange(|Path(n)| - 1, interval, i);
  }

  /** What the checkpoint cache is asked for. */
  lemma IntervalIsCheckpoints(n: BlockNode)
    ensures IntervalHashes(n, 1_000) == FilterCheckpoints.CheckpointHashes(n)
  {
    hide Path;
    forall i | 0 <= i < (|Path(n)| - 1) / FilterCheckpoints.CF_CHECKPT_INTERVAL
      ensures IntervalHashes(n, FilterCheckpoints.CF_CHECKPT_INTERVAL)[i] == FilterCheckpoints.CheckpointHashes(n)[i]
    {
      IntervalAt(n, FilterCheckpoints.CF_CHECKPT_INTERVAL, i);
    }
  }
}
