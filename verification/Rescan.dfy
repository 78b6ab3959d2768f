/** Rescanning a chain that may change between any two looks at it (rpcwebsocket.go). */
module Rescan {
  import opened Base
  import opened BlockNodes
  import opened ChainQueries
  import opened FilterCheckpoints
  import opened ChainExamples
  import SkipSearch

  const MAX_INT32 := 0x7FFF_FFFF
  const MAX_INV_PER_MSG := 50000

  /** What reading a main chain block from the database gives. */
  datatype Fetch = Read | NotFound | Failed

  /**
    One look at the chain: the tip at that time, what a block read would give, and whether the client has left,
    before the block is rescanned or by the time its progress is reported.
  */
  datatype Look = Look(tip: BlockNode, fetch: Fetch, clientQuit: bool, quitMeanwhile: bool)

  /** How a rescan ends; `StillRunning` if the looks run out first. */
  datatype Outcome = Registered | Finished | Reorged | DbError | ClientQuit | StillRunning

  /** What the rescan does next: the call into the chain it is about to make. */
  datatype Phase =
    | Fetching(minBlock: int)
    | Settling(minBlock: int)
    | Reading(minBlock: int, hashList: seq<Hash>, i: nat)
    | Recovering(minBlock: int)
    | Confirming(minBlock: int, hashList: seq<Hash>)
    | Done(outcome: Outcome)

  datatype Scan = Scan(phase: Phase, scanned: seq<BlockNode>)

  /** The node with a hash on the way to `n`. */
  function FindHash(n: BlockNode, hash: Hash): (r: Option<BlockNode>)
    ensures r.Some? ==> r.value in Path(n) && r.value.block.hash == hash
    decreases n
  {
    if n.block.hash == hash then Some(n)
    else if n.parent.Some? then FindHash(n.parent.value, hash)
    else None
  }

  /** `BlockByHash`: only main chain blocks are found; another error than not found is returned for the rest. */
  function BlockByHash(o: Look, hash: Hash): (Fetch, Option<BlockNode>)
  {
    match FindHash(o.tip, hash)
    case None => (Failed, None)
    case Some(n) => if o.fetch == Read then (Read, Some(n)) else (o.fetch, None)
  }

  ghost predicate OnChain(tip: BlockNode, hash: Hash)
  {
    exists m :: m in Path(tip) && m.block.hash == hash
  }

  lemma {:induction false} FoundIff(n: BlockNode, hash: Hash)
    ensures FindHash(n, hash).Some? <==> OnChain(n, hash)
    decreases n
  {
    assert Path(n)[|Path(n)| - 1] == n;
    if n.parent.Some? {
      FoundIff(n.parent.value, hash);
      assert forall m :: m in Path(n) <==> m == n || m in Path(n.parent.value);
    }
  }

  // ---------------------------------------------------------------------------
  // One look at a time

  /** The head of the outer loop. */
  function Enter(minBlock: int, maxBlock: int): Phase
  {
    if minBlock < maxBlock then Fetching(minBlock) else Done(Finished)
  }

  /** The head of the inner loop. */
  function Continue(minBlock: int, hashList: seq<Hash>, i: nat, maxBlock: int): Phase
  {
    if i < |hashList| then Reading(minBlock, hashList, i) else Enter(minBlock + |hashList|, maxBlock)
  }

  function ChunkEnd(minBlock: int, maxBlock: int): int
  {
    if maxBlock - minBlock > MAX_INV_PER_MSG then minBlock + MAX_INV_PER_MSG else maxBlock
  }

  /** `descendantBlock`, when there is a last block. */
  predicate ContinuesFrom(scanned: seq<BlockNode>, b: BlockNode)
  {
    scanned != [] ==> b.block.prev == scanned[|scanned| - 1].block.hash
  }

  function Step(s: Scan, maxBlock: int, o: Look): Scan
  {
    match s.phase
    case Fetching(min) => s.(phase := FetchRange(min, maxBlock, o))
    case Settling(min) =>
      if s.scanned == [] || s.scanned[|s.scanned| - 1].block.hash == o.tip.block.hash then s.(phase := Done(Registered))
      else s.(phase := Enter(min, maxBlock))
    case Reading(min, hashList, i) => if i < |hashList| then ReadBlock(s.scanned, min, hashList, i, maxBlock, o) else s
    case Recovering(min) => s.(phase := Recover(s.scanned, min, maxBlock, o))
    case Confirming(min, hashList) => s.(phase := Confirm(s.scanned, min, hashList, o))
    case Done(_) => s
  }

  /** A range with a negative start or an end below it is an error. */
  function FetchRange(min: int, maxBlock: int, o: Look): Phase
  {
    if min < 0 || ChunkEnd(min, maxBlock) < min then Done(DbError)
    else
      var hashList := HeightRange(o.tip, min, ChunkEnd(min, maxBlock));
      if hashList != [] then Reading(min, hashList, 0)
      else if maxBlock != MAX_INT32 then Done(Finished)
      else Settling(min)
  }

  function ReadBlock(scanned: seq<BlockNode>, min: int, hashList: seq<Hash>, i: nat, maxBlock: int, o: Look): Scan
    requires i < |hashList|
  {
    var (err, blk) := BlockByHash(o, hashList[i]);
    if blk.None? then
      if err != NotFound then Scan(Done(DbError), scanned)
      else if maxBlock != MAX_INT32 then Scan(Done(Reorged), scanned)
      else Scan(Recovering(min + i), scanned)
    else if i == 0 && !ContinuesFrom(scanned, blk.value) then Scan(Done(Reorged), scanned)
    else if o.clientQuit then Scan(Done(ClientQuit), scanned)
    else if o.quitMeanwhile then Scan(Done(ClientQuit), scanned + [blk.value])
    else Scan(Continue(min, hashList, i + 1, maxBlock), scanned + [blk.value])
  }

  /** First half of `recoverFromReorg`: a new range. */
  function Recover(scanned: seq<BlockNode>, min: int, maxBlock: int, o: Look): Phase
  {
    if min < 0 || maxBlock < min then Done(DbError)
    else
      var hashList := HeightRange(o.tip, min, maxBlock);
      if hashList == [] then Done(Finished)
      else if scanned == [] then Reading(min, hashList, 0)
      else Confirming(min, hashList)
  }

  /** Second half of `recoverFromReorg`: the new range must continue from the last block. */
  function Confirm(scanned: seq<BlockNode>, min: int, hashList: seq<Hash>, o: Look): Phase
  {
    if hashList == [] then Done(Finished)
    else
      var (_, blk) := BlockByHash(o, hashList[0]);
      if blk.None? then Done(DbError)
      else if !ContinuesFrom(scanned, blk.value) then Done(Reorged)
      else Reading(min, hashList, 0)
  }

  function Begin(start: int, maxBlock: int): Scan
  {
    Scan(Enter(start, maxBlock), [])
  }

  /** The rescan after some looks. */
  function Run(s: Scan, maxBlock: int, looks: seq<Look>): Scan
    decreases |looks|
  {
    if looks == [] then s else Run(Step(s, maxBlock, looks[0]), maxBlock, looks[1..])
  }

  lemma {:induction false} RunLast(s: Scan, maxBlock: int, looks: seq<Look>, k: nat)
    requires k < |looks|
    ensures Run(s, maxBlock, looks[..k + 1]) == Step(Run(s, maxBlock, looks[..k]), maxBlock, looks[k])
    decreases k
  {
    hide Step;
    var all := looks[..k + 1];
    if k > 0 {
      RunLast(Step(s, maxBlock, looks[0]), maxBlock, looks[1..], k - 1);
      assert looks[1..][..k] == all[1..] && looks[1..][..k - 1] == looks[..k][1..];
    } else {
      assert all[1..] == [];
    }
  }

  lemma {:induction false} DoneStays(s: Scan, maxBlock: int, looks: seq<Look>)
    requires s.phase.Done?
    ensures Run(s, maxBlock, looks) == s
    decreases |looks|
  {
    if looks != [] {
      DoneStays(s, maxBlock, looks[1..]);
    }
  }

  lemma {:induction false} RunSplit(s: Scan, maxBlock: int, a: seq<Look>, b: seq<Look>)
    ensures Run(s, maxBlock, a + b) == Run(Run(s, maxBlock, a), maxBlock, b)
    decreases |a|
  {
    hide Step;
    if a == [] {
      assert a + b == b;
    } else {
      assert (a + b)[1..] == a[1..] + b;
      RunSplit(Step(s, maxBlock, a[0]), maxBlock, a[1..], b);
    }
  }

  // ---------------------------------------------------------------------------
  // What has been scanned

  /** Consecutive children with consecutive heights from `start`. */
  ghost predicate Trail(scanned: seq<BlockNode>, start: int)
  {
    && (forall i :: 0 <= i < |scanned| ==> scanned[i].height == start + i)
    && (forall i :: 0 < i < |scanned| ==> scanned[i].parent == Some(scanned[i - 1]))
  }

  function LastOf(scanned: seq<BlockNode>): Option<BlockNode>
  {
    if scanned == [] then None else Some(scanned[|scanned| - 1])
  }

  lemma SameHash(blocks: set<BlockNode>, a: BlockNode, b: BlockNode)
    requires Universe(blocks) && a in blocks && b in blocks && a.block.hash == b.block.hash
    ensures a == b
  {
    hide Path, WellBuilt;
  }

  lemma OnWay(blocks: set<BlockNode>, tip: BlockNode, m: BlockNode)
    requires Universe(blocks) && tip in blocks && m in Path(tip)
    ensures m in blocks && WellBuilt(m) && WellBuilt(tip)
  {
    hide Path, WellBuilt;
  }

  /** The block found for an entry of a hash list is the one the list was made from. */
  lemma ListedBlock(blocks: set<BlockNode>, from: BlockNode, h: nat, o: Look, hash: Hash)
    requires Universe(blocks) && from in blocks && o.tip in blocks
    requires h < |Path(from)| && hash == Path(from)[h].block.hash && BlockByHash(o, hash).1.Some?
    ensures var b := BlockByHash(o, hash).1.value;
            && b == Path(from)[h] && b in blocks && b.height == h
            && b.parent == (if h == 0 then None else Some(Path(from)[h - 1]))
            && (h > 0 ==> b.block.prev == Path(from)[h - 1].block.hash && Path(from)[h - 1] in blocks)
  {
    hide Path, WellBuilt, Universe, FindHash;
    var b := BlockByHash(o, hash).1.value;
    OnWay(blocks, o.tip, b);
    assert Path(from)[h] in Path(from);
    OnWay(blocks, from, Path(from)[h]);
    SameHash(blocks, b, Path(from)[h]);
    PathAt(from, h);
    if h > 0 {
      assert Path(from)[h - 1] in Path(from);
      OnWay(blocks, from, Path(from)[h - 1]);
      PrevOf(b);
    }
  }

  lemma PrevOf(n: BlockNode)
    requires WellBuilt(n) && n.parent.Some?
    ensures n.block.prev == n.parent.value.block.hash
  {
  }

  /** The entries of a list not scanned yet lie above what was scanned. */
  ghost predicate Follows(blocks: set<BlockNode>, from: BlockNode, hashes: seq<Hash>, minBlock: nat, i: nat,
          scanned: seq<BlockNode>)
  {
    && from in blocks && i <= |hashes| && minBlock + |hashes| <= |Path(from)|
    && (forall j :: 0 <= j < |hashes| ==> hashes[j] == Path(from)[minBlock + j].block.hash)
    && (i > 0 ==> LastOf(scanned) == Some(Path(from)[minBlock + i - 1]))
  }

  lemma ScanNext(blocks: set<BlockNode>, from: BlockNode, hashes: seq<Hash>, minBlock: nat, i: nat,
          scanned: seq<BlockNode>, start: int, o: Look)
    requires Universe(blocks) && o.tip in blocks && Follows(blocks, from, hashes, minBlock, i, scanned) && i < |hashes|
    requires Trail(scanned, start) && minBlock + i == start + |scanned| && forall n :: n in scanned ==> n in blocks
    requires BlockByHash(o, hashes[i]).1.Some?
    requires i == 0 && scanned != [] ==>
      BlockByHash(o, hashes[i]).1.value.block.prev == scanned[|scanned| - 1].block.hash
    ensures var b := BlockByHash(o, hashes[i]).1.value;
            b in blocks && Trail(scanned + [b], start) && Follows(blocks, from, hashes, minBlock, i + 1, scanned + [b])
  {
    hide Path, WellBuilt, Universe, BlockByHash;
    ListedBlock(blocks, from, minBlock + i, o, hashes[i]);
    var b := BlockByHash(o, hashes[i]).1.value;
    if i == 0 && scanned != [] {
      var last := scanned[|scanned| - 1];
      assert last in scanned && last.height == minBlock - 1;
      SameHash(blocks, last, Path(from)[minBlock - 1]);
    }
  }

  /** A trail that ends at a block is the way to it from the start height. */
  lemma {:induction false} TrailIsPath(scanned: seq<BlockNode>, start: int)
    requires Trail(scanned, start) && scanned != [] && WellBuilt(scanned[|scanned| - 1])
    ensures 0 <= start <= |Path(scanned[|scanned| - 1])| && scanned == Path(scanned[|scanned| - 1])[start..]
    decreases |scanned|
  {
    hide WellBuilt;
    var k := |scanned| - 1;
    var n := scanned[k];
    PathLength(n);
    if k == 0 {
      assert Path(n)[start..] == [n];
    } else {
      var front := scanned[..k];
      assert n.parent == Some(scanned[k - 1]);
      ParentWellBuilt(n);
      TrailIsPath(front, start);
      assert Path(n) == Path(scanned[k - 1]) + [n];
      assert scanned == front + [n];
    }
  }

  lemma FreshList(blocks: set<BlockNode>, from: BlockNode, lo: nat, hi: nat, scanned: seq<BlockNode>)
    requires from in blocks && lo <= hi && HeightRange(from, lo, hi) != []
    ensures Follows(blocks, from, HeightRange(from, lo, hi), lo, 0, scanned)
  {
    hide Path;
  }

  // ---------------------------------------------------------------------------
  // Every run

  /** What holds between any two looks. */
  ghost predicate ScanOk(s: Scan, start: int, maxBlock: int, blocks: set<BlockNode>)
  {
    && Trail(s.scanned, start) && (forall n :: n in s.scanned ==> n in blocks)
    && match s.phase
       case Fetching(min) => min == start + |s.scanned| && min < maxBlock
       case Settling(min) => min == start + |s.scanned| && min < maxBlock == MAX_INT32
       case Reading(min, hashList, i) => ListOk(s.scanned, start, maxBlock, blocks, min, hashList, i)
       case Recovering(min) => 0 <= min == start + |s.scanned| && min < maxBlock == MAX_INT32
       case Confirming(min, hashList) => ListOk(s.scanned, start, maxBlock, blocks, min, hashList, 0)
       case Done(outcome) => outcome == Registered ==> maxBlock == MAX_INT32
  }

  ghost predicate ListOk(scanned: seq<BlockNode>, start: int, maxBlock: int, blocks: set<BlockNode>,
                         min: int, hashList: seq<Hash>, i: nat)
  {
    && 0 <= min && i < |hashList| && min + i == start + |scanned| && min + |hashList| <= maxBlock
    && exists from :: Follows(blocks, from, hashList, min, i, scanned)
  }

  lemma FetchedOk(scanned: seq<BlockNode>, start: int, maxBlock: int, hi: int, blocks: set<BlockNode>, o: Look)
    requires o.tip in blocks && 0 <= start + |scanned| <= hi <= maxBlock
    ensures var min := start + |scanned|; var hashList := HeightRange(o.tip, min, hi);
            hashList != [] ==> ListOk(scanned, start, maxBlock, blocks, min, hashList, 0)
  {
    hide Path, HeightRange, Follows;
    if HeightRange(o.tip, start + |scanned|, hi) != [] {
      FreshList(blocks, o.tip, start + |scanned|, hi, scanned);
    }
  }

  lemma ReadOk(s: Scan, start: int, maxBlock: int, blocks: set<BlockNode>, o: Look)
    requires Universe(blocks) && o.tip in blocks && s.phase.Reading? && ScanOk(s, start, maxBlock, blocks)
    ensures ScanOk(Step(s, maxBlock, o), start, maxBlock, blocks)
    ensures Step(s, maxBlock, o).phase == Done(Finished) ==> start + |Step(s, maxBlock, o).scanned| >= maxBlock
    ensures Step(s, maxBlock, o).phase != Done(Registered)
  {
    hide Path, Universe, BlockByHash, Follows, Trail;
    var Reading(min, hashList, i) := s.phase;
    var from :| Follows(blocks, from, hashList, min, i, s.scanned);
    var (err, blk) := BlockByHash(o, hashList[i]);
    if blk.Some? && (i == 0 ==> ContinuesFrom(s.scanned, blk.value)) {
      ScanNext(blocks, from, hashList, min, i, s.scanned, start, o);
    }
  }

  /** Every look keeps it; a rescan that ends has seen what it promises at the look it ends with. */
  lemma StepOk(s: Scan, start: int, maxBlock: int, blocks: set<BlockNode>, o: Look)
    requires Universe(blocks) && o.tip in blocks && ScanOk(s, start, maxBlock, blocks)
    ensures var s' := Step(s, maxBlock, o);
            && ScanOk(s', start, maxBlock, blocks)
            && (!s.phase.Done? && s'.phase == Done(Finished) ==>
                  start + |s'.scanned| >= maxBlock || start + |s'.scanned| >= |Path(o.tip)|)
            && (!s.phase.Done? && s'.phase == Done(Registered) && s'.scanned != [] ==>
                  0 <= start <= |Path(o.tip)| && s'.scanned == Path(o.tip)[start..])
  {
    hide Path, Universe, BlockByHash, HeightRange, Follows, Trail, ReadBlock;
    match s.phase
    case Fetching(min) =>
      if min >= 0 { FetchedOk(s.scanned, start, maxBlock, ChunkEnd(min, maxBlock), blocks, o); }
    case Settling(_) =>
      if s.scanned == [] || s.scanned[|s.scanned| - 1].block.hash == o.tip.block.hash {
        AtTip(blocks, s.scanned, start, o.tip);
      }
    case Reading(_, _, _) => ReadOk(s, start, maxBlock, blocks, o);
    case Recovering(_) => FetchedOk(s.scanned, start, maxBlock, maxBlock, blocks, o);
    case Confirming(_, _) =>
    case Done(_) =>
  }

  lemma {:induction false} RunOk(start: int, maxBlock: int, blocks: set<BlockNode>, looks: seq<Look>, k: nat)
    requires Universe(blocks) && k <= |looks| && forall o :: o in looks ==> o.tip in blocks
    ensures ScanOk(Run(Begin(start, maxBlock), maxBlock, looks[..k]), start, maxBlock, blocks)
    decreases k
  {
    hide Universe, Step, Run;
    if k > 0 {
      RunOk(start, maxBlock, blocks, looks, k - 1);
      RunLast(Begin(start, maxBlock), maxBlock, looks, k - 1);
      assert looks[k - 1] in looks;
      StepOk(Run(Begin(start, maxBlock), maxBlock, looks[..k - 1]), start, maxBlock, blocks, looks[k - 1]);
    } else {
      assert looks[..0] == [];
      NoLooks(start, maxBlock, blocks);
    }
  }

  lemma NoLooks(start: int, maxBlock: int, blocks: set<BlockNode>)
    ensures Run(Begin(start, maxBlock), maxBlock, []) == Begin(start, maxBlock)
    ensures ScanOk(Begin(start, maxBlock), start, maxBlock, blocks)
  {
  }

  // ---------------------------------------------------------------------------
  // Reorganizations

  /** The hash about to be read. */
  function Listed(p: Phase): Option<Hash>
  {
    match p
    case Reading(_, hashList, i) => if i < |hashList| then Some(hashList[i]) else None
    case _ => None
  }

  /**
    A look whose chain lacks the listed block ends the rescan there with a database error, whatever the
    chain does afterwards: no reorganization that removes a listed block is recovered from.
  */
  lemma LostBlockEnds(start: int, maxBlock: int, looks: seq<Look>, k: nat)
    requires k < |looks|
    requires var h := Listed(Run(Begin(start, maxBlock), maxBlock, looks[..k]).phase);
             h.Some? && !OnChain(looks[k].tip, h.value)
    ensures Run(Begin(start, maxBlock), maxBlock, looks) ==
            Scan(Done(DbError), Run(Begin(start, maxBlock), maxBlock, looks[..k]).scanned)
  {
    hide Path, OnChain, FindHash, Run;
    var begin := Begin(start, maxBlock);
    var s := Run(begin, maxBlock, looks[..k]);
    FoundIff(looks[k].tip, Listed(s.phase).value);
    RunLast(begin, maxBlock, looks, k);
    assert looks == looks[..k + 1] + looks[k + 1..];
    RunSplit(begin, maxBlock, looks[..k + 1], looks[k + 1..]);
    DoneStays(Step(s, maxBlock, looks[k]), maxBlock, looks[k + 1..]);
  }

  /**
    Recovery is entered exactly when the listed block is still on the chain, its data is missing from the
    database, and no stop block was given.
  */
  lemma RecoveryIff(start: int, maxBlock: int, looks: seq<Look>, k: nat)
    requires k < |looks|
    ensures var begin := Begin(start, maxBlock);
            var s, s' := Run(begin, maxBlock, looks[..k]), Run(begin, maxBlock, looks[..k + 1]);
            s'.phase.Recovering? <==>
              && Listed(s.phase).Some? && OnChain(looks[k].tip, Listed(s.phase).value)
              && looks[k].fetch == NotFound && maxBlock == MAX_INT32
  {
    hide Path, OnChain, FindHash, Run, HeightRange;
    var s := Run(Begin(start, maxBlock), maxBlock, looks[..k]);
    RunLast(Begin(start, maxBlock), maxBlock, looks, k);
    if Listed(s.phase).Some? {
      FoundIff(looks[k].tip, Listed(s.phase).value);
    }
  }

  /** While no block data is missing, no rescan ever enters recovery. */
  lemma {:induction false} NoRecovery(start: int, maxBlock: int, looks: seq<Look>, k: nat)
    requires k <= |looks| && forall o :: o in looks ==> o.fetch != NotFound
    ensures var p := Run(Begin(start, maxBlock), maxBlock, looks[..k]).phase; !p.Recovering? && !p.Confirming?
    decreases k
  {
    hide Path, HeightRange, FindHash, Run;
    if k > 0 {
      NoRecovery(start, maxBlock, looks, k - 1);
      RunLast(Begin(start, maxBlock), maxBlock, looks, k - 1);
      assert looks[k - 1] in looks;
    } else {
      assert looks[..0] == [];
      NoLooks(start, maxBlock, {});
    }
  }

  /** The first hash of a new range that has to continue from the last block. */
  function Proposed(p: Phase): Option<Hash>
  {
    match p
    case Confirming(_, hashList) => if hashList != [] then Some(hashList[0]) else None
    case _ => None
  }

  /** The block with the hash can be read, and is no child of the last block rescanned. */
  predicate Strays(o: Look, hash: Hash, scanned: seq<BlockNode>)
  {
    o.fetch == Read && FindHash(o.tip, hash).Some? && !ContinuesFrom(scanned, FindHash(o.tip, hash).value)
  }

  /** The ends of a rescan that are errors, each by the look it comes with. */
  lemma ErrorsIff(start: int, maxBlock: int, blocks: set<BlockNode>, looks: seq<Look>, k: nat)
    requires Universe(blocks) && k < |looks| && forall o :: o in looks ==> o.tip in blocks
    requires !Run(Begin(start, maxBlock), maxBlock, looks[..k]).phase.Done?
    ensures var begin, o := Begin(start, maxBlock), looks[k];
            var s, s' := Run(begin, maxBlock, looks[..k]), Run(begin, maxBlock, looks[..k + 1]);
            var listed, proposed := Listed(s.phase), Proposed(s.phase);
            && (s'.phase == Done(DbError) <==>
                  || (s.phase.Fetching? && s.phase.minBlock < 0)
                  || (listed.Some? && (!OnChain(o.tip, listed.value) || o.fetch == Failed))
                  || (proposed.Some? && (!OnChain(o.tip, proposed.value) || o.fetch != Read)))
            && (s'.phase == Done(Reorged) <==>
                  || (listed.Some? && OnChain(o.tip, listed.value) && o.fetch == NotFound && maxBlock != MAX_INT32)
                  || (listed.Some? && s.phase.i == 0 && Strays(o, listed.value, s.scanned))
                  || (proposed.Some? && Strays(o, proposed.value, s.scanned)))
  {
    hide Path, OnChain, FindHash, Run, HeightRange, Follows, Trail, Universe, ContinuesFrom;
    var s, o := Run(Begin(start, maxBlock), maxBlock, looks[..k]), looks[k];
    RunLast(Begin(start, maxBlock), maxBlock, looks, k);
    RunOk(start, maxBlock, blocks, looks, k);
    match s.phase
    case Reading(_, hashList, i) => FoundIff(o.tip, hashList[i]);
    case Confirming(_, hashList) => FoundIff(o.tip, hashList[0]);
    case _ =>
  }

  /** Two blocks on genesis. */
  lemma TwoBranches() returns (g: BlockNode, a: BlockNode, b: BlockNode)
    ensures g.block == GENESIS && a.block == MAIN && b.block == SIDE && Universe({g, a, b})
    ensures Path(g) == [g] && Path(a) == [g, a] && Path(b) == [g, b] && a.parent == Some(g) && b.parent == Some(g)
  {
    hide WellBuilt, Path;
    g := SkipSearch.NewNode(GENESIS, None);
    a := SkipSearch.NewNode(MAIN, Some(g));
    b := SkipSearch.NewNode(SIDE, Some(g));
    RootPath(g);
    SkipSearch.NewNodeWellBuilt(MAIN, g);
    SkipSearch.NewNodeWellBuilt(SIDE, g);
  }

  lemma RootPath(g: BlockNode)
    requires g.parent == None
    ensures Path(g) == [g]
    ensures WellBuilt(g) <==> g.height == 0 && g.work == g.block.work && g.ancestor == None
  {
  }

  /**
    A reorganization between two looks: the rescan has handed over genesis and is about to read the next
    block of its list when that block is replaced by a sibling.  The last block handed over is still on the
    chain, and the rescan ends with a database error.
  */
  lemma ReorgIsAnError() returns (blocks: set<BlockNode>, g: BlockNode, a: BlockNode, b: BlockNode, looks: seq<Look>)
    ensures Universe(blocks) && forall o :: o in looks ==> o.tip in blocks
    ensures a.parent == Some(g) && b.parent == Some(g) && a != b && g in Path(b)
    ensures looks == [Look(a, Read, false, false), Look(a, Read, false, false), Look(b, Read, false, false)]
    ensures Run(Begin(0, MAX_INT32), MAX_INT32, looks) == Scan(Done(DbError), [g])
  {
    hide Path, Universe, Run, Step;
    g, a, b := TwoBranches();
    blocks := {g, a, b};
    looks := [Look(a, Read, false, false), Look(a, Read, false, false), Look(b, Read, false, false)];
    GenesisRescanned(g, a, looks);
    LostBlockEnds(0, MAX_INT32, looks, 2);
  }

  /** Two looks: the list of both blocks, then genesis. */
  lemma GenesisRescanned(g: BlockNode, a: BlockNode, looks: seq<Look>)
    requires g.block.hash == 1 && a.block.hash == 2 && a.parent == Some(g) && Path(a) == [g, a]
    requires |looks| >= 2 && looks[0] == looks[1] == Look(a, Read, false, false)
    ensures Run(Begin(0, MAX_INT32), MAX_INT32, looks[..2]) == Scan(Reading(0, [1, 2], 1), [g])
  {
    hide Path, Run, HeightRange, FindHash;
    Started(0, MAX_INT32, looks);
    RunLast(Begin(0, MAX_INT32), MAX_INT32, looks, 0);
    RunLast(Begin(0, MAX_INT32), MAX_INT32, looks, 1);
    WholeRange(a);
    assert HeightRange(a, 0, MAX_INV_PER_MSG) == [1, 2];
    FindGenesis(g, a);
  }

  lemma WholeRange(tip: BlockNode)
    requires |Path(tip)| <= MAX_INV_PER_MSG
    ensures var list := HeightRange(tip, 0, MAX_INV_PER_MSG);
            |list| == |Path(tip)| && forall i :: 0 <= i < |list| ==> list[i] == Path(tip)[i].block.hash
  {
    hide Path;
    assert Path(tip)[0..|Path(tip)|] == Path(tip);
  }

  lemma FindGenesis(g: BlockNode, a: BlockNode)
    requires g.block.hash == 1 && a.block.hash == 2 && a.parent == Some(g)
    ensures FindHash(a, 1) == Some(g)
  {
  }

  // ---------------------------------------------------------------------------
  // The loops

  /**
    `scanBlockChunks`.  It makes one call into the chain at a time, as `Step` says.  Whatever the chain does
    between looks, the blocks rescanned form a trail from the start height; a rescan that finishes has reached
    the stop height or the end of the chain as last seen; and when the client is registered the trail is the
    best chain of that moment, unless nothing was rescanned.
  */
  method ScanBlockChunks(start: int, maxBlock: int, looks: seq<Look>, ghost blocks: set<BlockNode>)
    returns (outcome: Outcome, scanned: seq<BlockNode>, used: nat)
    requires Universe(blocks) && forall o :: o in looks ==> o.tip in blocks
    ensures used <= |looks|
    ensures var end := Run(Begin(start, maxBlock), maxBlock, looks);
            end.scanned == scanned && if end.phase.Done? then outcome == end.phase.outcome else outcome == StillRunning
    ensures Trail(scanned, start)
    ensures outcome == Finished ==>
      start + |scanned| >= maxBlock || (used > 0 && start + |scanned| >= |Path(looks[used - 1].tip)|)
    ensures outcome == Registered ==> maxBlock == MAX_INT32 && used > 0
    ensures outcome == Registered && scanned != [] ==>
      var tip := looks[used - 1].tip;
      0 <= start <= |Path(tip)| && scanned == Path(tip)[start..]
  {
    outcome, scanned, used := ScanLoops(start, maxBlock, looks);
    Ended(start, maxBlock, blocks, looks, outcome, scanned, used);
  }

  /** The rescan, ended by the last of the looks it used, or out of looks. */
  ghost predicate EndsAt(start: int, maxBlock: int, looks: seq<Look>, outcome: Outcome, scanned: seq<BlockNode>,
                         used: nat)
  {
    var begin := Begin(start, maxBlock);
    && used <= |looks|
    && (outcome == StillRunning ==>
          used == |looks| && !Run(begin, maxBlock, looks[..used]).phase.Done?
          && Run(begin, maxBlock, looks[..used]).scanned == scanned)
    && (outcome != StillRunning ==> Run(begin, maxBlock, looks[..used]) == Scan(Done(outcome), scanned))
    && (used > 0 ==> !Run(begin, maxBlock, looks[..used - 1]).phase.Done?)
  }

  /** `recoverFromReorg`: a new range that continues from the last block, or how the rescan ends. */
  method RecoverFromReorg(ghost start: int, maxBlock: int, looks: seq<Look>, used: nat, minBlock: int,
                          scanned: seq<BlockNode>)
    returns (end: Option<Outcome>, hashList: seq<Hash>, used': nat)
    requires 0 < used <= |looks| && !Run(Begin(start, maxBlock), maxBlock, looks[..used - 1]).phase.Done?
    requires Run(Begin(start, maxBlock), maxBlock, looks[..used]) == Scan(Recovering(minBlock), scanned)
    ensures end.Some? ==> EndsAt(start, maxBlock, looks, end.value, scanned, used')
    ensures end.None? ==>
      && used < used' <= |looks| && hashList != []
      && !Run(Begin(start, maxBlock), maxBlock, looks[..used' - 1]).phase.Done?
      && Run(Begin(start, maxBlock), maxBlock, looks[..used']) == Scan(Reading(minBlock, hashList, 0), scanned)
  {
    hide Path, BlockByHash, HeightRange, Run;
    ghost var begin := Begin(start, maxBlock);
    hashList, used' := [], used;
    if used' == |looks| {
      return Some(StillRunning), hashList, used';
    }
    RunLast(begin, maxBlock, looks, used');
    used' := used' + 1;
    if minBlock < 0 || maxBlock < minBlock {
      return Some(DbError), hashList, used';
    }
    hashList := HeightRange(looks[used].tip, minBlock, maxBlock);
    if |hashList| == 0 {
      return Some(Finished), hashList, used';
    }
    if |scanned| == 0 {
      return None, hashList, used';
    }
    if used' == |looks| {
      return Some(StillRunning), hashList, used';
    }
    RunLast(begin, maxBlock, looks, used');
    var (_, first) := BlockByHash(looks[used'], hashList[0]);
    used' := used' + 1;
    if first.None? {
      return Some(DbError), hashList, used';
    }
    if first.value.block.prev != scanned[|scanned| - 1].block.hash {
      return Some(Reorged), hashList, used';
    }
    end := None;
  }

  /** The loops of the source, each call into the chain using one look. */
  method ScanLoops(start: int, maxBlock: int, looks: seq<Look>)
    returns (outcome: Outcome, scanned: seq<BlockNode>, used: nat)
    ensures EndsAt(start, maxBlock, looks, outcome, scanned, used)
  {
    hide Path, BlockByHash, HeightRange, Run;
    ghost var begin := Begin(start, maxBlock);
    scanned, used := [], 0;
    var minBlock := start;
    Started(start, maxBlock, looks);
    while minBlock < maxBlock
      invariant used <= |looks| && Run(begin, maxBlock, looks[..used]) == Scan(Enter(minBlock, maxBlock), scanned)
      invariant used > 0 ==> !Run(begin, maxBlock, looks[..used - 1]).phase.Done?
      decreases |looks| - used
    {
      var maxLoopBlock := maxBlock;
      if maxLoopBlock - minBlock > MAX_INV_PER_MSG {
        maxLoopBlock := minBlock + MAX_INV_PER_MSG;
      }
      if used == |looks| {
        return StillRunning, scanned, used;
      }
      RunLast(begin, maxBlock, looks, used);
      used := used + 1;
      if minBlock < 0 {
        return DbError, scanned, used;
      }
      var hashList := HeightRange(looks[used - 1].tip, minBlock, maxLoopBlock);
      if |hashList| == 0 {
        if maxBlock != MAX_INT32 {
          return Finished, scanned, used;
        }
        if used == |looks| {
          return StillRunning, scanned, used;
        }
        RunLast(begin, maxBlock, looks, used);
        used := used + 1;
        if |scanned| == 0 || scanned[|scanned| - 1].block.hash == looks[used - 1].tip.block.hash {
          return Registered, scanned, used;
        }
        continue;
      }
      var i := 0;
      while i < |hashList|
        invariant 0 <= i <= |hashList| && 0 < used <= |looks|
        invariant Run(begin, maxBlock, looks[..used]) == Scan(Continue(minBlock, hashList, i, maxBlock), scanned)
        invariant !Run(begin, maxBlock, looks[..used - 1]).phase.Done?
        decreases |looks| - used
      {
        if used == |looks| {
          return StillRunning, scanned, used;
        }
        RunLast(begin, maxBlock, looks, used);
        used := used + 1;
        var at := looks[used - 1];
        var (err, blk) := BlockByHash(at, hashList[i]);
        if blk.None? {
          if err != NotFound {
            return DbError, scanned, used;
          }
          if maxBlock != MAX_INT32 {
            return Reorged, scanned, used;
          }
          minBlock := minBlock + i;
          var end;
          end, hashList, used := RecoverFromReorg(start, maxBlock, looks, used, minBlock, scanned);
          if end.Some? {
            return end.value, scanned, used;
          }
          i := 0;
          continue;
        }
        if i == 0 && |scanned| != 0 && blk.value.block.prev != scanned[|scanned| - 1].block.hash {
          return Reorged, scanned, used;
        }
        if at.clientQuit {
          return ClientQuit, scanned, used;
        }
        scanned := scanned + [blk.value];
        if at.quitMeanwhile {
          return ClientQuit, scanned, used;
        }
        i := i + 1;
      }
      minBlock := minBlock + |hashList|;
    }
    outcome := Finished;
  }

  lemma Started(start: int, maxBlock: int, looks: seq<Look>)
    ensures Run(Begin(start, maxBlock), maxBlock, looks[..0]) == Begin(start, maxBlock)
  {
  }

  /** What the end of a rescan means for the client. */
  lemma Ended(start: int, maxBlock: int, blocks: set<BlockNode>, looks: seq<Look>, outcome: Outcome,
              scanned: seq<BlockNode>, used: nat)
    requires Universe(blocks) && forall o :: o in looks ==> o.tip in blocks
    requires EndsAt(start, maxBlock, looks, outcome, scanned, used)
    ensures var end := Run(Begin(start, maxBlock), maxBlock, looks);
            end.scanned == scanned && if end.phase.Done? then outcome == end.phase.outcome else outcome == StillRunning
    ensures Trail(scanned, start)
    ensures outcome == Finished ==>
      start + |scanned| >= maxBlock || (used > 0 && start + |scanned| >= |Path(looks[used - 1].tip)|)
    ensures outcome == Registered ==> maxBlock == MAX_INT32 && used > 0
    ensures outcome == Registered && scanned != [] ==>
      var tip := looks[used - 1].tip;
      0 <= start <= |Path(tip)| && scanned == Path(tip)[start..]
  {
    hide Path, Universe, Step, Run, Trail;
    var begin := Begin(start, maxBlock);
    var end := Run(begin, maxBlock, looks[..used]);
    RunOk(start, maxBlock, blocks, looks, used);
    assert looks == looks[..used] + looks[used..];
    RunSplit(begin, maxBlock, looks[..used], looks[used..]);
    if end.phase.Done? {
      DoneStays(end, maxBlock, looks[used..]);
    } else {
      assert looks[..used] == looks;
    }
    if used > 0 {
      RunOk(start, maxBlock, blocks, looks, used - 1);
      RunLast(begin, maxBlock, looks, used - 1);
      assert looks[used - 1] in looks;
      StepOk(Run(begin, maxBlock, looks[..used - 1]), start, maxBlock, blocks, looks[used - 1]);
    } else {
      Started(start, maxBlock, looks);
    }
  }

  lemma AtTip(blocks: set<BlockNode>, scanned: seq<BlockNode>, start: int, tip: BlockNode)
    requires Universe(blocks) && tip in blocks && Trail(scanned, start) && forall n :: n in scanned ==> n in blocks
    requires scanned == [] || scanned[|scanned| - 1].block.hash == tip.block.hash
    ensures scanned != [] ==> 0 <= start <= |Path(tip)| && scanned == Path(tip)[start..]
  {
    hide Path, Universe, WellBuilt;
    if scanned != [] {
      var last := scanned[|scanned| - 1];
      assert last in scanned;
      SameHash(blocks, last, tip);
      InUniverse(blocks, tip);
      TrailIsPath(scanned, start);
    }
  }

  lemma InUniverse(blocks: set<BlockNode>, n: BlockNode)
    requires Universe(blocks) && n in blocks
    ensures WellBuilt(n)
  {
    hide WellBuilt, Path;
  }
}
