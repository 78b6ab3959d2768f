/** What a rescan does at each look, and that it reaches the end of a chain that keeps still (rpcwebsocket.go). */
module RescanProgress {
  import opened Base
  import opened BlockNodes
  import opened ChainQueries
  import opened FilterCheckpoints
  import opened Rescan

  /** The listed block can be read and, first in its list, continues from the last block handed over. */
  predicate HandsOver(s: Scan, o: Look)
  {
    && s.phase.Reading? && s.phase.i < |s.phase.hashList| && o.fetch == Read && !o.clientQuit
    && FindHash(o.tip, s.phase.hashList[s.phase.i]).Some?
    && (s.phase.i == 0 ==> ContinuesFrom(s.scanned, FindHash(o.tip, s.phase.hashList[s.phase.i]).value))
  }

  /** Which looks hand over a block, and which ends of a rescan are none of its errors. */
  lemma ProgressIff(start: int, maxBlock: int, blocks: set<BlockNode>, looks: seq<Look>, k: nat)
    requires Universe(blocks) && k < |looks| && forall o :: o in looks ==> o.tip in blocks
    requires !Run(Begin(start, maxBlock), maxBlock, looks[..k]).phase.Done?
    ensures var begin, o := Begin(start, maxBlock), looks[k];
            var s, s' := Run(begin, maxBlock, looks[..k]), Run(begin, maxBlock, looks[..k + 1]);
            && (if HandsOver(s, o)
                then s'.scanned == s.scanned + [FindHash(o.tip, s.phase.hashList[s.phase.i]).value]
                else s'.scanned == s.scanned)
            && (s'.phase == Done(Registered) <==>
                  s.phase.Settling? && (s.scanned == [] || s.scanned[|s.scanned| - 1].block.hash == o.tip.block.hash))
            && (s'.phase == Done(ClientQuit) <==>
                  HandsOver(s, o.(clientQuit := false)) && (o.clientQuit || o.quitMeanwhile))
            && (s'.phase == Done(Finished) <==>
                  || (s.phase.Fetching? && |Path(o.tip)| <= s.phase.minBlock && maxBlock != 0x7FFF_FFFF)
                  || (s.phase.Recovering? && |Path(o.tip)| <= s.phase.minBlock)
                  || (HandsOver(s, o) && !o.quitMeanwhile && start + |s'.scanned| == maxBlock))
  {
    hide Path, FindHash, Run, HeightRange, Follows, Trail, Universe, ContinuesFrom;
    var s, o := Run(Begin(start, maxBlock), maxBlock, looks[..k]), looks[k];
    RunLast(Begin(start, maxBlock), maxBlock, looks, k);
    RunOk(start, maxBlock, blocks, looks, k);
  }

  /** The ranges asked for: at most fifty thousand blocks at a time, or all of them after a recovery. */
  lemma RangesFetched(start: int, maxBlock: int, blocks: set<BlockNode>, looks: seq<Look>, k: nat)
    requires Universe(blocks) && k < |looks| && forall o :: o in looks ==> o.tip in blocks
    ensures var begin, o := Begin(start, maxBlock), looks[k];
            var s, s' := Run(begin, maxBlock, looks[..k]), Run(begin, maxBlock, looks[..k + 1]);
            (s.phase.Fetching? || s.phase.Recovering?) && 0 <= s.phase.minBlock < |Path(o.tip)| ==>
              var min := s.phase.minBlock;
              && (s'.phase.Reading? || s'.phase.Confirming?) && s'.phase.minBlock == min
              && (s'.phase.Reading? ==> s'.phase.i == 0)
              && (s'.phase.Confirming? <==> s.phase.Recovering? && s.scanned != [])
              && |s'.phase.hashList| == Least(|Path(o.tip)| - min,
                   if s.phase.Fetching? then Least(50_000, maxBlock - min) else maxBlock - min)
              && forall j :: 0 <= j < |s'.phase.hashList| ==> s'.phase.hashList[j] == Path(o.tip)[min + j].block.hash
  {
    hide Path, Run, HeightRange, Follows, Trail, Universe, FindHash;
    RunLast(Begin(start, maxBlock), maxBlock, looks, k);
    RunOk(start, maxBlock, blocks, looks, k);
  }

  function Least(a: int, b: int): int
  {
    if a < b then a else b
  }

  // ---------------------------------------------------------------------------
  // A chain that keeps still

  /** Where a rescan of the chain to `tip` has to stop. */
  function StopAt(start: nat, maxBlock: int, tip: BlockNode): int
  {
    if Least(|Path(tip)|, maxBlock) < start then start else Least(|Path(tip)|, maxBlock)
  }

  /** What the rescan is to end with. */
  function EndOf(start: nat, maxBlock: int, tip: BlockNode): Phase
  {
    Done(if start < maxBlock == MAX_INT32 && |Path(tip)| < maxBlock then Registered else Finished)
  }

  /** Everything handed over so far is on the chain, and so is the rest of the list. */
  ghost predicate Still(s: Scan, start: nat, maxBlock: int, tip: BlockNode)
  {
    var at, stop := start + |s.scanned|, StopAt(start, maxBlock, tip);
    && at <= stop && (s.scanned != [] ==> stop <= |Path(tip)| && s.scanned == Path(tip)[start..at])
    && match s.phase
       case Fetching(min) => min == at < maxBlock
       case Settling(min) => min == at == stop < maxBlock == MAX_INT32 && |Path(tip)| <= at
       case Reading(min, hashList, i) =>
         && 0 <= min && i < |hashList| && min + i == at && min + |hashList| <= stop <= |Path(tip)|
         && forall j :: 0 <= j < |hashList| ==> hashList[j] == Path(tip)[min + j].block.hash
       case Done(_) => at == stop && s.phase == EndOf(start, maxBlock, tip)
       case _ => false
  }

  /** The looks that are still needed. */
  ghost function Needed(s: Scan, stop: int): int
  {
    match s.phase
    case Fetching(min) => 2 * (stop - min) + 2
    case Reading(min, hashList, i) => |hashList| - i + 2 * (stop - min - |hashList|) + 2
    case Settling(_) => 1
    case _ => 0
  }

  lemma {:induction false} FoundOnPath(blocks: set<BlockNode>, tip: BlockNode, h: nat)
    requires Universe(blocks) && tip in blocks && h < |Path(tip)|
    ensures FindHash(tip, Path(tip)[h].block.hash) == Some(Path(tip)[h])
    ensures h > 0 ==> Path(tip)[h].block.prev == Path(tip)[h - 1].block.hash
  {
    hide Universe, WellBuilt, Path, FindHash;
    var hash := Path(tip)[h].block.hash;
    assert Path(tip)[h] in Path(tip);
    FoundIff(tip, hash);
    ListedBlock(blocks, tip, h, Look(tip, Read, false, false), hash);
  }

  /** The next block of the list is found, continues from the last one and is handed over. */
  lemma StillFinds(s: Scan, start: nat, maxBlock: int, blocks: set<BlockNode>, tip: BlockNode)
    requires Universe(blocks) && tip in blocks && Still(s, start, maxBlock, tip) && s.phase.Reading?
    ensures var Reading(min, hashList, i) := s.phase;
            Step(s, maxBlock, Look(tip, Read, false, false)) ==
              Scan(Continue(min, hashList, i + 1, maxBlock), s.scanned + [Path(tip)[start + |s.scanned|]])
  {
    hide Universe, Path, FindHash, Continue;
    var at := start + |s.scanned|;
    FoundOnPath(blocks, tip, at);
    if s.scanned != [] {
      assert s.scanned[|s.scanned| - 1] == Path(tip)[at - 1];
    }
  }

  lemma Extends(scanned: seq<BlockNode>, path: seq<BlockNode>, start: nat)
    requires start + |scanned| < |path| && (scanned != [] ==> scanned == path[start..start + |scanned|])
    ensures scanned + [path[start + |scanned|]] == path[start..start + |scanned| + 1]
  {
  }

  lemma StillReads(s: Scan, start: nat, maxBlock: int, blocks: set<BlockNode>, tip: BlockNode)
    requires Universe(blocks) && tip in blocks && Still(s, start, maxBlock, tip) && s.phase.Reading?
    ensures var s', stop := Step(s, maxBlock, Look(tip, Read, false, false)), StopAt(start, maxBlock, tip);
            Still(s', start, maxBlock, tip) && Needed(s', stop) < Needed(s, stop)
  {
    hide Universe, Path, Step;
    StillFinds(s, start, maxBlock, blocks, tip);
    Extends(s.scanned, Path(tip), start);
  }

  lemma StillSteps(s: Scan, start: nat, maxBlock: int, blocks: set<BlockNode>, tip: BlockNode)
    requires Universe(blocks) && tip in blocks && Still(s, start, maxBlock, tip) && !s.phase.Done?
    ensures var s', stop := Step(s, maxBlock, Look(tip, Read, false, false)), StopAt(start, maxBlock, tip);
            Still(s', start, maxBlock, tip) && Needed(s', stop) < Needed(s, stop)
  {
    hide Universe, Path, FindHash, HeightRange, ReadBlock;
    match s.phase
    case Reading(_, _, _) => StillReads(s, start, maxBlock, blocks, tip);
    case Fetching(min) =>
    case Settling(_) => TipIsLast(tip);
  }

  lemma TipIsLast(tip: BlockNode)
    ensures |Path(tip)| > 0 && Path(tip)[|Path(tip)| - 1] == tip
  {
  }

  lemma {:induction false} StillRuns(s: Scan, start: nat, maxBlock: int, blocks: set<BlockNode>, tip: BlockNode,
                                     looks: seq<Look>)
    requires Universe(blocks) && tip in blocks && Still(s, start, maxBlock, tip)
    requires (forall o :: o in looks ==> o == Look(tip, Read, false, false))
    requires |looks| >= Needed(s, StopAt(start, maxBlock, tip))
    ensures var s' := Run(s, maxBlock, looks); s'.phase.Done? && Still(s', start, maxBlock, tip)
    decreases |looks|
  {
    hide Universe, Path, Step, Still, StopAt, Needed;
    if s.phase.Done? {
      DoneStays(s, maxBlock, looks);
    } else {
      NeedsSome(s, start, maxBlock, tip);
      assert looks[0] in looks && forall o :: o in looks[1..] ==> o in looks;
      StillSteps(s, start, maxBlock, blocks, tip);
      StillRuns(Step(s, maxBlock, looks[0]), start, maxBlock, blocks, tip, looks[1..]);
    }
  }

  lemma NeedsSome(s: Scan, start: nat, maxBlock: int, tip: BlockNode)
    requires Still(s, start, maxBlock, tip) && !s.phase.Done?
    ensures Needed(s, StopAt(start, maxBlock, tip)) > 0
  {
    hide Path;
  }

  /**
    A rescan of a chain that keeps still ends, and has then handed over every block from the start height to the
    stop height or the tip; without a stop height the client is registered.
  */
  lemma StillChainIsRescanned(start: nat, maxBlock: int, blocks: set<BlockNode>, tip: BlockNode, looks: seq<Look>)
    requires Universe(blocks) && tip in blocks && start < maxBlock && start <= |Path(tip)|
    requires (forall o :: o in looks ==> o == Look(tip, Read, false, false)) && |looks| >= 2 * (|Path(tip)| - start) + 2
    ensures var stop := Least(|Path(tip)|, maxBlock);
            Run(Begin(start, maxBlock), maxBlock, looks) ==
              Scan(Done(if maxBlock == 0x7FFF_FFFF && |Path(tip)| < maxBlock then Registered else Finished),
                   Path(tip)[start..stop])
  {
    hide Universe, Path, Run;
    var begin := Begin(start, maxBlock);
    StillRuns(begin, start, maxBlock, blocks, tip, looks);
    var s := Run(begin, maxBlock, looks);
    if s.scanned == [] {
      assert Path(tip)[start..start] == [];
    }
  }
}
