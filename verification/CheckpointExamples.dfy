/** Two branches on which a failed lookup misleads the checkpoint cache. */
module CheckpointExamples {
  import opened Base
  import opened BlockNodes
  import opened FilterCheckpoints
  import ChainExamples
  import SkipSearch

  /** The block `k` above a root, on a branch whose block at height `h` has hash `base + h`. */
  function Stem(g: BlockNode, base: nat, k: nat): BlockNode
  {
    if k == 0 then g
    else
      var p := Stem(g, base, k - 1);
      SkipSearch.NewNode(ChainExamples.Mined(base + k, p.block.hash, 1), Some(p))
  }

  lemma {:induction false} StemShape(g: BlockNode, base: nat, k: nat)
    requires WellBuilt(g) && Path(g) == [g]
    ensures var n := Stem(g, base, k);
            && WellBuilt(n) && |Path(n)| == k + 1 && Path(n)[0] == g
            && forall h :: 0 < h <= k ==> Path(n)[h].block.hash == base + h
    decreases k
  {
    hide WellBuilt, Path;
    if k > 0 {
      StemShape(g, base, k - 1);
      var p := Stem(g, base, k - 1);
      SkipSearch.NewNodeWellBuilt(ChainExamples.Mined(base + k, p.block.hash, 1), p);
    }
  }

  /** The blocks on the way to two others. */
  function Both(c: BlockNode, n: BlockNode): set<BlockNode>
  {
    (set m | m in Path(c)) + (set m | m in Path(n))
  }

  /** A block on one of the two branches, by its height. */
  lemma OnStem(g: BlockNode, base: nat, k: nat, m: BlockNode)
    requires WellBuilt(g) && Path(g) == [g] && m in Path(Stem(g, base, k))
    ensures var path := Path(Stem(g, base, k));
            && WellBuilt(m) && m.height <= k == |path| - 1 && Path(m) == path[..m.height + 1] && path[m.height] == m
            && m.block.hash == if m.height == 0 then g.block.hash else base + m.height
  {
    hide WellBuilt, Path, Stem;
    StemShape(g, base, k);
    var n := Stem(g, base, k);
    OnPathByHeight(m, n);
    PathAt(n, m.height);
  }

  /** Blocks of two branches without a hash in common but the root's. */
  lemma TwoStems(g: BlockNode, a: nat, i: nat, b: nat, j: nat)
    requires WellBuilt(g) && Path(g) == [g] && 0 < g.block.hash <= a && a + i < b
    ensures Universe(Both(Stem(g, a, i), Stem(g, b, j)))
  {
    hide WellBuilt, Path, Stem;
    var c, n := Stem(g, a, i), Stem(g, b, j);
    var blocks := Both(c, n);
    forall m | m in blocks ensures WellBuilt(m) && m.block.hash != ZERO_HASH
    {
      if m in Path(c) { OnStem(g, a, i, m); } else { OnStem(g, b, j, m); }
    }
    forall m, x | m in blocks && x in Path(m) ensures x in blocks
    {
      if m in Path(c) { OnStem(g, a, i, m); } else { OnStem(g, b, j, m); }
    }
    forall m, x | m in blocks && x in blocks && m.block.hash == x.block.hash ensures m == x
    {
      SameStemNode(g, a, i, b, j, m, x);
    }
  }

  lemma SameStemNode(g: BlockNode, a: nat, i: nat, b: nat, j: nat, m: BlockNode, x: BlockNode)
    requires WellBuilt(g) && Path(g) == [g] && 0 < g.block.hash <= a && a + i < b
    requires m in Both(Stem(g, a, i), Stem(g, b, j)) && x in Both(Stem(g, a, i), Stem(g, b, j))
    requires m.block.hash == x.block.hash
    ensures m == x
  {
    hide WellBuilt, Path, Stem;
    StemShape(g, a, i);
    StemShape(g, b, j);
    if m in Path(Stem(g, a, i)) { OnStem(g, a, i, m); } else { OnStem(g, b, j, m); }
    if x in Path(Stem(g, a, i)) { OnStem(g, a, i, x); } else { OnStem(g, b, j, x); }
  }

  function Genesis(): BlockNode
  {
    SkipSearch.NewNode(ChainExamples.GENESIS, None)
  }

  lemma GenesisRoot()
    ensures WellBuilt(Genesis()) && Path(Genesis()) == [Genesis()] && Genesis().block.hash == 1
  {
  }

  /** Filter headers that tell blocks apart. */
  function OwnHeader(): Headers
  {
    (h: Hash) => h
  }

  /**
    Two branches off genesis with two and three checkpoints.  A query fills the cache for the shorter one; one
    for the longer one fails after one lookup, in a slice with room to grow; and the next query for the shorter
    one is answered with a header of the longer one.
  */
  lemma CacheCanMislead() returns (blocks: set<BlockNode>, c: BlockNode, n: BlockNode)
    ensures Universe(blocks) && c in blocks && n in blocks && CheckpointCount(c) == 2 && CheckpointCount(n) == 3
    ensures forall good, spare, spare' ::
      var first := Serve([], CheckpointHashes(c), OwnHeader(), 2, spare).0;
      var second := Serve(first, CheckpointHashes(n), OwnHeader(), 1, true).0;
      var reply := Serve(second, CheckpointHashes(c), OwnHeader(), good, spare').1;
      reply.Some? && reply != Some(Direct(c, OwnHeader()))
  {
    hide WellBuilt, Path, Stem, Serve, Direct, CheckpointHashes, CacheOf, Genesis;
    var g := Genesis();
    GenesisRoot();
    c, n := Stem(g, 10_000, 2_000), Stem(g, 20_000, 3_000);
    blocks := Both(c, n);
    TwoStems(g, 10_000, 2_000, 20_000, 3_000);
    StemShape(g, 10_000, 2_000);
    StemShape(g, 20_000, 3_000);
    PathLast(c);
    PathLast(n);
    assert CheckpointHashes(c)[0] == 11_000 && CheckpointHashes(n)[0] == 21_000;
    forall good, spare, spare'
      ensures var first := Serve([], CheckpointHashes(c), OwnHeader(), 2, spare).0;
              var second := Serve(first, CheckpointHashes(n), OwnHeader(), 1, true).0;
              var reply := Serve(second, CheckpointHashes(c), OwnHeader(), good, spare').1;
              reply.Some? && reply != Some(Direct(c, OwnHeader()))
    {
      FirstQueryFills(blocks, c, OwnHeader(), spare);
      MixedCacheMisleads(blocks, c, n, 0, OwnHeader(), good, spare');
    }
  }

  lemma PathLast(n: BlockNode)
    ensures n in Path(n)
  {
    assert Path(n)[|Path(n)| - 1] == n;
  }
}
