/** Runs that are interrupted between operations and resumed from what was stored. */
module ChainRestarts {
  import opened Base
  import opened BlockNodes
  import opened Ledger
  import opened ChainModel
  import opened ChainInvariants
  import opened ChainReorg
  import opened ChainSelect
  import opened ChainControl
  import opened ChainRuns
  import opened HeaviestChain
  import opened IndexStore
  import MedianTime
  import SkipSearch

  /** No best chain node is stored as known invalid. */
  ghost predicate StoredClean(s: ChainState)
  {
    forall n :: n in Best(s) && n in s.rows ==> !KnownInvalid(s.rows[n])
  }

  /** If the best chain has no flag waiting to be written, its rows are as clean as its nodes. */
  lemma CleanWhenStored(s: ChainState)
    requires Inv(s) && forall m :: m in s.dirty ==> m !in Best(s)
    ensures StoredClean(s)
  {
    hide Path, TreeOk, LedgerOk, ValidSound;
    TipFacts(s);
    PathKnown(s, s.tip);
  }

  // ---------------------------------------------------------------------------
  // What each operation leaves unwritten

  lemma ExtendFlushes(s: ChainState, n: BlockNode, fastAdd: bool, reap: Verdicts)
    requires s.dirty == {}
    ensures ChainModel.ExtendTip(s, n, fastAdd, reap).0.dirty == {}
  {
    hide NodeEvents, Apply, InputsPresent, SpentCoins, MedianTime.PastMedian, Restatus;
  }

  lemma ConnectFlushes(s: ChainState, n: BlockNode, fast: bool, check: Verdicts, reap: Verdicts)
    requires s.dirty == {} && n.parent.Some?
    ensures ConnectBest(s, n, fast, check, reap).0.dirty == {}
  {
    hide ChainModel.ExtendTip, Restatus, Reorganize, ReorganizeNodes, Judge;
    ExtendFlushes(s, n, true, reap);
    ExtendFlushes(Flush(Restatus(s, {n}, {Valid}, {})), n, false, reap);
  }

  lemma AcceptFlushes(s: ChainState, block: Block, context: Outcome, fast: bool, check: Verdicts, reap: Verdicts)
    ensures AcceptBlock(s, block, context, fast, check, reap).0 == s ||
      AcceptBlock(s, block, context, fast, check, reap).0.dirty == {}
  {
    hide ConnectBest, SkipSearch.NewNode;
    if block.hash !in s.index && block.prev in s.index {
      var n := SkipSearch.NewNode(block, Some(s.index[block.prev]));
      NewNodeFields(block, Some(s.index[block.prev]));
      ConnectFlushes(WithNode(s, n), n, fast, check, reap);
    }
  }

  lemma InvalidateFlushes(s: ChainState, hash: Hash, t: BlockNode, check: Verdicts, reap: Verdicts)
    requires Inv(s)
    ensures InvalidateBlock(s, hash, t, check, reap).0 == s || InvalidateBlock(s, hash, t, check, reap).0.dirty == {}
  {
    hide Steady, BestClean, Path, Restatus, Reorganize, ReorganizeNodes, Descendants, DownTo, SkipInvalid;
    hide NotInvalid, LedgerOk, ValidSound, StoreOk, TreeOk;
    TipFacts(s);
    if hash in s.index && s.index[hash].height > 0 && OnBest(s, s.index[hash]) {
      IndexedKnown(s, hash);
      OnBestIsOnPath(s, s.index[hash]);
      InvalidateDetaches(s, s.index[hash], check, reap);
    }
  }

  lemma {:induction false} AllValidVerify(s: ChainState, view: Utxo, attach: seq<BlockNode>, check: Verdicts)
    requires forall m :: m in attach ==> KnownValid(StatusOf(s, m))
    ensures VerifyAttach(s, view, attach, check).0 == s
    decreases |attach|
  {
    hide NodeEvents, Apply, InputsPresent, Judge, Restatus;
    if attach != [] && InputsPresent(view, NodeEvents(attach[0])) {
      AllValidVerify(s, Apply(view, NodeEvents(attach[0])), attach[1..], check);
    }
  }

  lemma VerifiedAgain(s: ChainState, detach: seq<BlockNode>, attach: seq<BlockNode>, check: Verdicts)
    requires forall m :: m in attach ==> KnownValid(StatusOf(s, m))
    ensures Verify(s, detach, attach, check).0 == s
  {
    hide UndoAll, VerifyAttach, Path;
    match UndoAll(s, s.utxo, detach)
    case None =>
    case Some(view) => AllValidVerify(s, view, attach, check);
  }

  lemma {:induction false} DetachFlushes(s: ChainState, detach: seq<BlockNode>)
    requires s.dirty == {}
    ensures DetachAll(s, detach).0.dirty == {}
    decreases |detach|
  {
    hide Undo, NodeEvents, MedianTime.PastMedian, Path;
    if detach != [] {
      var n := detach[0];
      var coins := JournalEntry(s, n);
      if |coins| == CountSpentOutputs(n.block.txs, 0) {
        var (s1, r) := DisconnectBlock(s, n, Undo(s.utxo, NodeEvents(n), coins));
        if r == Fine {
          DetachFlushes(s1, detach[1..]);
        }
      }
    }
  }

  /** Of the blocks to attach, only one that was refused keeps an unwritten flag. */
  lemma {:induction false} AttachLeaves(s: ChainState, attach: seq<BlockNode>, reap: Verdicts)
    requires s.dirty == {} && Linked(s.tip, attach)
    ensures forall m :: m in AttachAll(s, attach, reap).0.dirty ==> m.parent == Some(AttachAll(s, attach, reap).0.tip)
    decreases |attach|
  {
    hide Apply, InputsPresent, SpentCoins, NodeEvents, MedianTime.PastMedian, Path;
    if attach != [] && reap(attach[0]) == Fine && InputsPresent(s.utxo, NodeEvents(attach[0])) {
      var n := attach[0];
      var (s1, r) := ConnectBlock(s, n, Apply(s.utxo, NodeEvents(n)), SpentCoins(s.utxo, NodeEvents(n)));
      if r == Fine {
        AttachLeaves(s1, attach[1..], reap);
      }
    }
  }

  lemma ReorganizeLeaves(s: ChainState, t: BlockNode, check: Verdicts, reap: Verdicts)
    requires Inv(s) && s.dirty == {} && t in s.status && t.parent.Some?
    requires forall m :: m in Branch(s, t) ==> KnownValid(StatusOf(s, m))
    ensures var s' := Reorganize(s, DownTo(s.tip, ForkLength(s, t)), Branch(s, t), check, reap).0;
            forall m :: m in s'.dirty ==> m.parent == Some(s'.tip)
  {
    hide Steady, BestClean, Path, DownTo, ForkLength, Verify, DetachAll, AttachAll, TreeOk, Branch, ForkNode, Linked;
    TipFacts(s);
    BranchFacts(s, t);
    var k, attach := ForkLength(s, t), Branch(s, t);
    var detach := DownTo(s.tip, k);
    VerifiedAgain(s, detach, attach, check);
    DetachFlushes(s, detach);
    DetachKeeps(s, k);
    AttachLeaves(DetachAll(s, detach).0, attach, reap);
  }

  lemma ChildNotBest(s: ChainState, m: BlockNode)
    requires TreeOk(s) && m in s.status && m.parent == Some(s.tip)
    ensures m !in Best(s)
  {
    hide TreeOk, Path, WellBuilt;
    ParentKnown(s, m);
    TreeTip(s);
    ChildTaller(m);
    OnPathByHeight(m, s.tip);
  }

  /** Reconsidering keeps the stored flags of the best chain clean. */
  lemma ReconsiderStored(s: ChainState, hash: Hash, t: BlockNode, check: Verdicts, reap: Verdicts)
    requires Inv(s) && StoredClean(s) && ReconsiderChoice(s, hash, t)
    ensures StoredClean(ReconsiderBlock(s, hash, t, check, reap).0)
  {
    hide Steady, BestClean, Path, ClearMarks, ReorganizeNodes, Verify, Reorganize, Flush, ReconsiderCandidate;
    hide BranchClean, TreeOk, StoredClean;
    ReconsiderKeepsInv(s, hash, t, check, reap);
    TipFacts(s);
    if hash in s.index && !KnownValid(StatusOf(s, s.index[hash])) {
      IndexedKnown(s, hash);
      var n := s.index[hash];
      var s1 := ClearMarks(s, n);
      ClearMarksKeepsInv(s, n);
      if t.work <= s.tip.work || t.parent.None? {
        ClearedStored(s, n);
      } else {
        TipFacts(s1);
        CandidateOffBest(s1, n, t);
        ReconsiderLeaves(s1, t, check, reap);
      }
    }
  }

  lemma ClearedStored(s: ChainState, n: BlockNode)
    requires StoredClean(s)
    ensures StoredClean(ClearMarks(s, n))
  {
    hide Path;
  }

  /** The second half of `ReconsiderBlock`. */
  ghost function Reconsidered(s: ChainState, t: BlockNode, check: Verdicts, reap: Verdicts): ChainState
    requires t.parent.Some?
  {
    var (s2, detach, attach) := ReorganizeNodes(s, t);
    var (s3, r) := Verify(s2, detach, attach, check);
    if r != Fine then Flush(s3) else Reorganize(Flush(s3), detach, attach, check, reap).0
  }

  lemma ReconsiderLeaves(s: ChainState, t: BlockNode, check: Verdicts, reap: Verdicts)
    requires Inv(s) && t in s.status && t.parent.Some?
    ensures Inv(Reconsidered(s, t, check, reap)) ==> StoredClean(Reconsidered(s, t, check, reap))
  {
    hide Steady, BestClean, Path, ReorganizeNodes, Verify, Reorganize, Flush, BranchClean, TreeOk;
    hide StoredClean, DownTo, ForkLength;
    var s' := Reconsidered(s, t, check, reap);
    if Inv(s') {
      TipFacts(s);
      ReorganizeNodesOutcome(s, t);
      if BranchClean(s, t) {
        ReconsiderDirty(s, t, check, reap);
      } else {
        var s2 := ReorganizeNodes(s, t).0;
        NothingToVerify(s2, check);
        NothingToReorganize(Flush(s2), check, reap);
        FlushFields(s2);
      }
      TipFacts(s');
      StoreDirty(s');
      forall m | m in s'.dirty ensures m !in Best(s') { ChildNotBest(s', m); }
      CleanWhenStored(s');
    }
  }

  lemma ReconsiderDirty(s: ChainState, t: BlockNode, check: Verdicts, reap: Verdicts)
    requires Inv(s) && t in s.status && t.parent.Some? && BranchClean(s, t)
    ensures forall m :: m in Reconsidered(s, t, check, reap).dirty ==>
      m.parent == Some(Reconsidered(s, t, check, reap).tip)
  {
    hide Steady, BestClean, Path, ReorganizeNodes, Verify, Reorganize, Flush, BranchClean, TreeOk, DownTo;
    hide ForkLength, Branch, ForkNode, Linked, VerifiedUpTo;
    TipFacts(s);
    ReorganizeNodesOutcome(s, t);
    BranchFacts(s, t);
    var k, attach := ForkLength(s, t), Branch(s, t);
    var v := Verify(s, DownTo(s.tip, k), attach, check);
    var i := VerifyStops(s, k, attach, check);
    FlushFields(v.0);
    if v.1 == Fine {
      var s4 := Flush(v.0);
      VerifiedFine(s, attach, check, i, v.0);
      VerifiedSteady(s, attach, check, i, v.0, Fine);
      FlushFields(v.0);
      ReconsiderStep(s, t, check, reap);
      AllMarkedValid(s, s4, attach);
      SameFork(s, s4, t);
      ReorganizeLeaves(s4, t, check, reap);
    }
  }

  lemma StoreDirty(s: ChainState)
    requires Steady(s)
    ensures s.dirty <= s.status.Keys
  {
    hide TreeOk, LedgerOk, ValidSound;
  }

  // ---------------------------------------------------------------------------
  // Restarting

  /** A restart between operations loses no block, no tip and no ledger entry, and keeps the invariant. */
  lemma RestartKeepsInv(s: ChainState, scan: seq<Row>)
    requires Inv(s) && StoredClean(s) && Fits(s) && IsScan(s.rows, scan)
    ensures Reload(s, scan) == Some(Restarted(s))
    ensures Inv(Restarted(s)) && StoredClean(Restarted(s)) && SameChain(s, Restarted(s))
  {
    hide Path, LedgerOk, TreeOk, Reload, IsScan, Fits, Sound;
    RestartOutcome(s, scan);
    TipFacts(s);
    var s' := Restarted(s);
    TreeRestatus(s, s');
    LedgerSame(s, s');
    PathKnown(s, s.tip);
    forall n | n in s'.status && KnownValid(s'.status[n]) ensures Sound(n)
    {
      if n in Best(s) {
        assert KnownValid(StatusOf(s, n));
      }
    }
    forall n | n in Best(s') ensures KnownValid(StatusOf(s', n)) && !KnownInvalid(StatusOf(s', n)) &&
      !KnownInvalid(s'.rows[n])
    {
      assert n in s.rows;
    }
  }

  datatype Event = Step(op: Op) | Restart(scan: seq<Row>)

  ghost predicate CanHappen(s: ChainState, e: Event)
  {
    match e
    case Step(op) => Enabled(s, op)
    case Restart(scan) => Fits(s) && IsScan(s.rows, scan)
  }

  ghost function Next(s: ChainState, e: Event): ChainState
  {
    match e
    case Step(op) => Do(s, op)
    case Restart(scan) => if Reload(s, scan).Some? then Reload(s, scan).value else s
  }

  lemma EventKeepsInv(s: ChainState, e: Event)
    requires Inv(s) && StoredClean(s) && CanHappen(s, e)
    ensures Inv(Next(s, e)) && StoredClean(Next(s, e))
  {
    hide Steady, BestClean, StoredClean, Vouched, InvalidateChoice, ReconsiderChoice, AcceptBlock;
    hide InvalidateBlock, ReconsiderBlock, Reload, Restarted, Fits, IsScan, Path;
    match e
    case Restart(scan) => RestartKeepsInv(s, scan);
    case Step(op) =>
      StepKeepsInv(s, op);
      match op
      case Accept(block, context, fast, check, reap) =>
        AcceptFlushes(s, block, context, fast, check, reap);
        if Do(s, op) != s { CleanWhenStored(Do(s, op)); }
      case Invalidate(hash, choice, check, reap) =>
        InvalidateFlushes(s, hash, choice, check, reap);
        if Do(s, op) != s { CleanWhenStored(Do(s, op)); }
      case Reconsider(hash, choice, check, reap) =>
        ReconsiderStored(s, hash, choice, check, reap);
  }

  ghost predicate IsHistory(s: ChainState, es: seq<Event>)
    decreases |es|
  {
    es == [] || (CanHappen(s, es[0]) && IsHistory(Next(s, es[0]), es[1..]))
  }

  ghost function Finally(s: ChainState, es: seq<Event>): ChainState
    decreases |es|
  {
    if es == [] then s else Finally(Next(s, es[0]), es[1..])
  }

  lemma {:induction false} HistoryKeepsInv(s: ChainState, es: seq<Event>)
    requires Inv(s) && StoredClean(s) && IsHistory(s, es)
    ensures Inv(Finally(s, es)) && StoredClean(Finally(s, es))
    decreases |es|
  {
    hide Inv, StoredClean, CanHappen, Next;
    if es != [] {
      EventKeepsInv(s, es[0]);
      HistoryKeepsInv(Next(s, es[0]), es[1..]);
    }
  }

  /**
    Over every history of accepts, invalidations, reconsiderations and restarts, no restart fails and the
    invariant holds.
  */
  lemma EveryHistory(genesis: Block, es: seq<Event>)
    requires IsHistory(InitialState(genesis), es)
    ensures Inv(Finally(InitialState(genesis), es))
    ensures var s := Finally(InitialState(genesis), es);
            forall scan :: Fits(s) && IsScan(s.rows, scan) ==> Reload(s, scan).Some?
  {
    hide Inv, IsHistory, Finally, Reload, Fits, IsScan, Restarted;
    InitialInv(genesis);
    InitiallyStored(genesis);
    HistoryKeepsInv(InitialState(genesis), es);
    var s := Finally(InitialState(genesis), es);
    forall scan | Fits(s) && IsScan(s.rows, scan) ensures Reload(s, scan).Some?
    {
      RestartKeepsInv(s, scan);
    }
  }

  lemma InitiallyStored(genesis: Block)
    ensures StoredClean(InitialState(genesis))
  {
    hide Inv;
    InitialInv(genesis);
    CleanWhenStored(InitialState(genesis));
  }
}
