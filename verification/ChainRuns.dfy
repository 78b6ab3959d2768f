/** Every run of accept, invalidate and reconsider steps. */
module ChainRuns {
  import opened Base
  import opened BlockNodes
  import opened Ledger
  import opened ChainModel
  import opened ChainInvariants
  import opened ChainReorg
  import opened ChainSelect
  import opened ChainAccept
  import opened ChainControl
  import opened HeaviestChain
  import opened UnspentOutputs
  import MedianTime
  import SkipSearch

  // ---------------------------------------------------------------------------
  // Invalidate and reconsider keep the invariant

  /** Switching to an inactive tip, or refusing to. */
  lemma SwitchKeepsInv(s: ChainState, t: BlockNode, check: Verdicts, reap: Verdicts)
    requires Inv(s) && (t == s.tip || t in InactiveTips(s))
    ensures Inv(SwitchTo(s, t, check, reap).0)
  {
    hide Steady, Path, Reorganize, ReorganizeNodes, DownTo, Flush, BestClean, InactiveTips, TreeOk, LedgerOk;
    hide ValidSound, StoreOk, ForkLength;
    TipFacts(s);
    if t != s.tip {
      InactiveTipsOffBest(s, t);
      SwitchStep(s, t, check, reap);
    }
  }

  lemma SwitchStep(s: ChainState, t: BlockNode, check: Verdicts, reap: Verdicts)
    requires Inv(s) && t in s.status && t.parent.Some?
    ensures var (s1, detach, attach) := ReorganizeNodes(s, t);
            Inv(Flush(Reorganize(s1, detach, attach, check, reap).0)) &&
              Inv(Reorganize(s1, detach, attach, check, reap).0)
  {
    hide Steady, Path, Reorganize, ReorganizeNodes, DownTo, Flush, BestClean, ForkLength, BranchClean;
    ReorganizeNodesOutcome(s, t);
    if BranchClean(s, t) {
      var _, _ := ReorganizeKeepsInv(s, t, check, reap);
      FlushKeeps(Reorganize(s, DownTo(s.tip, ForkLength(s, t)), Branch(s, t), check, reap).0);
    } else {
      var s1 := ReorganizeNodes(s, t).0;
      NothingToReorganize(s1, check, reap);
      RefusedOutcome(s, t);
      RefusedInv(s, t);
    }
  }

  lemma RefusedInv(s: ChainState, n: BlockNode)
    requires Inv(s) && n in s.status && n.parent.Some? && !BranchClean(s, n)
    ensures Inv(ReorganizeNodes(s, n).0)
  {
    hide Steady, Path, BranchClean, ReorganizeNodes;
    ReorganizeNodesOutcome(s, n);
    var s1 := ReorganizeNodes(s, n).0;
    forall m | m in Best(s1) ensures CleanNode(s1, m)
    {
      assert m in Best(s);
    }
  }

  lemma InvalidateKeepsInv(s: ChainState, hash: Hash, t: BlockNode, check: Verdicts, reap: Verdicts)
    requires Inv(s) && InvalidateChoice(s, hash, t, check, reap)
    ensures Inv(InvalidateBlock(s, hash, t, check, reap).0)
  {
    hide Steady, Path, SwitchTo, InvalidateDetach, BestClean, TreeOk, LedgerOk, ValidSound, StoreOk, Flush;
    hide Restatus, InactiveTips;
    TipFacts(s);
    if hash in s.index && s.index[hash].height > 0 && !KnownInvalid(StatusOf(s, s.index[hash])) {
      IndexedKnown(s, hash);
      var n := s.index[hash];
      OnBestIsOnPath(s, n);
      if !OnBest(s, n) {
        SideInvalidation(s, n);
        FlushKeeps(SideInvalidated(s, n));
      } else {
        InvalidateDetaches(s, n, check, reap);
        SwitchKeepsInv(InvalidateDetach(s, n, check, reap).0, t, check, reap);
      }
    }
  }

  /** `t` is a tip the selection loop can end with, if the loop runs. */
  ghost predicate InvalidateChoice(s: ChainState, hash: Hash, t: BlockNode, check: Verdicts, reap: Verdicts)
  {
    hash in s.index && s.index[hash].height > 0 && OnBest(s, s.index[hash]) &&
      !KnownInvalid(StatusOf(s, s.index[hash])) ==>
      var (s1, r) := InvalidateDetach(s, s.index[hash], check, reap);
      r == Fine ==> BestCandidate(s1, t)
  }

  /** The calls that change nothing: an unknown block and genesis are errors, a block known invalid is not. */
  lemma InvalidateStays(s: ChainState, hash: Hash, t: BlockNode, check: Verdicts, reap: Verdicts)
    ensures hash !in s.index || s.index[hash].height == 0 ==>
      InvalidateBlock(s, hash, t, check, reap) == (s, OtherError)
    ensures hash in s.index && s.index[hash].height > 0 && KnownInvalid(StatusOf(s, s.index[hash])) ==>
      InvalidateBlock(s, hash, t, check, reap) == (s, Fine)
  {
    hide InvalidateDetach, SwitchTo, Restatus, Flush, KnownInvalid, Path;
  }

  /**
    Where invalidating a best chain block leaves the chain: on the tip chosen next, or below the first block
    whose prefix check is not fine, exactly when the branch of that tip is viable; and on the parent otherwise.
  */
  lemma InvalidateMoves(s: ChainState, hash: Hash, t: BlockNode, check: Verdicts, reap: Verdicts)
    requires Inv(s) && hash in s.index && s.index[hash].height > 0 && s.index[hash] in Best(s)
    requires BestCandidate(InvalidateDetach(s, s.index[hash], check, reap).0, t)
    ensures var s1 := InvalidateDetach(s, s.index[hash], check, reap).0;
            var (s', r) := InvalidateBlock(s, hash, t, check, reap);
            && s.index[hash].parent == Some(s1.tip)
            && s'.tip == (if t != s1.tip && Viable(s1, t, check) then TakeoverTip(s1, t, reap) else s1.tip)
            && r == (if t != s1.tip && BranchClean(s1, t) then AttemptVerdict(s1, t, check, reap) else Fine)
  {
    hide Inv, Path, InvalidateDetach, InvalidateBlock, AttemptVerdict, TakeoverTip, Viable, BranchClean, InactiveTips;
    hide KnownInvalid, Reorganize, ReorganizeNodes;
    InvalidateSwitches(s, hash, t, check, reap);
    var s1 := InvalidateDetach(s, s.index[hash], check, reap).0;
    if t != s1.tip {
      SwitchOutcome(s1, t, check, reap);
    }
  }

  lemma ClearMarksKeepsInv(s: ChainState, n: BlockNode)
    requires Inv(s) && n in s.status && !KnownValid(s.status[n])
    ensures Inv(ClearMarks(s, n)) && SameChain(s, ClearMarks(s, n)) && n !in Best(s)
  {
    hide Steady, Path, Restatus, TreeOk, LedgerOk, ValidSound, StoreOk;
    TipFacts(s);
    var s1 := Restatus(s, {n}, {}, {InvalidAncestor, ValidateFailed});
    OffBestKeepsInv(s, {n}, {}, {InvalidAncestor, ValidateFailed});
    forall m | m in Descendants(s, n) ensures m !in Best(s)
    {
      DescendantsOffBest(s, n, m);
    }
    OffBestKeepsInv(s1, Descendants(s, n), {}, {InvalidAncestor});
  }

  /** `ReconsiderBlock` always finds a tip to reconsider. */
  lemma ReconsiderFindsTip(s: ChainState, n: BlockNode) returns (t: BlockNode)
    requires Inv(s) && n in s.status && !KnownValid(s.status[n])
    ensures ReconsiderCandidate(ClearMarks(s, n), n, t) && t in InactiveTips(ClearMarks(s, n))
  {
    hide Steady, Path, ClearMarks, BestClean;
    ClearMarksKeepsInv(s, n);
    TipFacts(ClearMarks(s, n));
    t := TipAbove(ClearMarks(s, n), n);
  }

  /** Only tips off the best chain qualify. */
  lemma CandidateOffBest(s: ChainState, n: BlockNode, t: BlockNode)
    requires TreeOk(s) && n !in Best(s) && ReconsiderCandidate(s, n, t)
    ensures t in s.status && t !in Best(s) && t.parent.Some?
  {
    hide TreeOk, Path;
    if t in InactiveTips(s) {
      InactiveTipsOffBest(s, t);
    }
  }

  /** Verification first, then the reorganization that repeats it. */
  lemma ReconsiderStep(s: ChainState, t: BlockNode, check: Verdicts, reap: Verdicts)
    requires Inv(s) && t in s.status && t.parent.Some? && BranchClean(s, t)
    ensures var detach, attach := DownTo(s.tip, ForkLength(s, t)), Branch(s, t);
            var s4 := Flush(Verify(s, detach, attach, check).0);
            && Inv(s4)
            && (Verify(s, detach, attach, check).1 == Fine ==> Inv(Reorganize(s4, detach, attach, check, reap).0))
  {
    hide Steady, Path, Reorganize, DownTo, Flush, BestClean, ForkLength, Verify, TreeOk, LedgerOk, ValidSound, StoreOk;
    hide Linked, VerifiedUpTo, BranchClean, SameChain;
    TipFacts(s);
    BranchFacts(s, t);
    var k, attach := ForkLength(s, t), Branch(s, t);
    var detach := DownTo(s.tip, k);
    var i := VerifyStops(s, k, attach, check);
    var s3, r := Verify(s, detach, attach, check).0, Verify(s, detach, attach, check).1;
    VerifiedClean(s, attach, check, i, s3, r);
    VerifiedSteady(s, attach, check, i, s3, r);
    FlushKeeps(s3);
    var s4 := Flush(s3);
    if r == Fine {
      VerifiedFine(s, attach, check, i, s3);
      FlushFields(s3);
      SameFork(s, s4, t);
      StillClean(s, s4, attach, t);
      var _, _ := ReorganizeKeepsInv(s4, t, check, reap);
    }
  }

  lemma VerifiedSteady(s: ChainState, attach: seq<BlockNode>, check: Verdicts, i: nat, s': ChainState, r: Outcome)
    requires VerifiedUpTo(s, attach, check, i, s', r)
    ensures Steady(s') && s'.tip == s.tip && s'.genesis == s.genesis && s'.status.Keys == s.status.Keys
  {
    hide Steady, Passes, VerdictOn;
  }

  lemma VerifiedFine(s: ChainState, attach: seq<BlockNode>, check: Verdicts, i: nat, s': ChainState)
    requires VerifiedUpTo(s, attach, check, i, s', Fine)
    ensures forall m :: m in s.status ==>
      m in s'.status && s'.status[m] == VerifyMark(s.status[m], m, attach, |attach|, Fine)
  {
    hide Steady, VerdictOn;
  }

  /** Where reconsidering a heavier tip leads, once the marks are cleared. */
  lemma ReconsiderOutcome(s: ChainState, t: BlockNode, check: Verdicts, reap: Verdicts)
    requires Inv(s) && t in s.status && t.parent.Some? && BranchClean(s, t)
    ensures var detach, attach := DownTo(s.tip, ForkLength(s, t)), Branch(s, t);
            var s4 := Flush(Verify(s, detach, attach, check).0);
            && s4.tip == s.tip
            && (Verify(s, detach, attach, check).1 == Fine <==> Viable(s, t, check))
            && (Viable(s, t, check) ==>
                  && Reorganize(s4, detach, attach, check, reap).0.tip == TakeoverTip(s, t, reap)
                  && Reorganize(s4, detach, attach, check, reap).1 == TakeoverVerdict(s, t, reap))
  {
    hide Steady, Path, Reorganize, DownTo, Flush, BestClean, ForkLength, Verify, TreeOk, LedgerOk, ValidSound, StoreOk;
    hide Linked, BranchClean, SameChain, TakeoverTip, VerdictOn;
    TipFacts(s);
    BranchFacts(s, t);
    var k, attach := ForkLength(s, t), Branch(s, t);
    var i := VerifyStops(s, k, attach, check);
    var s3 := Verify(s, DownTo(s.tip, k), attach, check).0;
    VerifiedSteady(s, attach, check, i, s3, Verify(s, DownTo(s.tip, k), attach, check).1);
    FlushFields(s3);
    if i < |attach| {
      assert attach[i] in attach;
    } else {
      var s4 := Flush(s3);
      ReconsiderStep(s, t, check, reap);
      VerifiedFine(s, attach, check, i, s3);
      SameFork(s, s4, t);
      StillClean(s, s4, attach, t);
      AllMarkedValid(s, s4, attach);
      AttemptTakeover(s4, t, check, reap);
      SameTakeover(s, s4, t, reap);
    }
  }

  lemma AllMarkedValid(s: ChainState, s': ChainState, attach: seq<BlockNode>)
    requires Known(s, attach)
    requires forall m :: m in s.status ==>
      m in s'.status && s'.status[m] == VerifyMark(s.status[m], m, attach, |attach|, Fine)
    ensures forall m :: m in attach ==> KnownValid(StatusOf(s', m))
  {
    assert attach[..|attach|] == attach;
  }

  lemma SameTakeover(s: ChainState, s': ChainState, t: BlockNode, reap: Verdicts)
    requires s'.tip == s.tip && s'.genesis == s.genesis
    ensures TakeoverTip(s', t, reap) == TakeoverTip(s, t, reap)
    ensures TakeoverVerdict(s', t, reap) == TakeoverVerdict(s, t, reap)
  {
  }

  lemma SameFork(s: ChainState, s': ChainState, t: BlockNode)
    requires s'.tip == s.tip
    ensures ForkLength(s', t) == ForkLength(s, t) && Branch(s', t) == Branch(s, t)
  {
  }

  lemma StillClean(s: ChainState, s': ChainState, attach: seq<BlockNode>, t: BlockNode)
    requires TreeOk(s) && t in s.status && BranchClean(s, t) && s'.tip == s.tip && s'.status.Keys == s.status.Keys
    requires forall m :: m in s.status ==> s'.status[m] == VerifyMark(s.status[m], m, attach, |attach|, Fine)
    ensures BranchClean(s', t)
  {
    hide TreeOk, Path, ForkLength;
    SameFork(s, s', t);
  }

  lemma ReconsiderKeepsInv(s: ChainState, hash: Hash, t: BlockNode, check: Verdicts, reap: Verdicts)
    requires Inv(s) && ReconsiderChoice(s, hash, t)
    ensures Inv(ReconsiderBlock(s, hash, t, check, reap).0)
  {
    hide Steady, Path, Reorganize, ReorganizeNodes, DownTo, Flush, BestClean, ForkLength, Verify, TreeOk;
    hide LedgerOk, ValidSound, StoreOk;
    hide ClearMarks, InactiveTips, BranchClean;
    TipFacts(s);
    if hash in s.index && !KnownValid(StatusOf(s, s.index[hash])) {
      IndexedKnown(s, hash);
      var n := s.index[hash];
      ClearMarksKeepsInv(s, n);
      var s1 := ClearMarks(s, n);
      if t.work > s.tip.work && t.parent.Some? {
        TipFacts(s1);
        CandidateOffBest(s1, n, t);
        ReorganizeNodesOutcome(s1, t);
        if BranchClean(s1, t) {
          ReconsiderStep(s1, t, check, reap);
        } else {
          var s2 := ReorganizeNodes(s1, t).0;
          RefusedOutcome(s1, t);
          NothingToVerify(s2, check);
          NothingToReorganize(Flush(s2), check, reap);
        }
      }
    }
  }

  /** `t` is a tip the loop can end with, if the loop runs. */
  ghost predicate ReconsiderChoice(s: ChainState, hash: Hash, t: BlockNode)
  {
    hash in s.index && !KnownValid(StatusOf(s, s.index[hash])) ==>
      ReconsiderCandidate(ClearMarks(s, s.index[hash]), s.index[hash], t)
  }

  /** A mark that reconsidering `n` does not take away. */
  ghost predicate StaysInvalid(s: ChainState, n: BlockNode, m: BlockNode)
  {
    m != n && (ValidateFailed in StatusOf(s, m) || (InvalidAncestor in StatusOf(s, m) && n !in Path(m)))
  }

  /** The branch of `t` once `n` is reconsidered: no block stays invalid and every block passes. */
  ghost predicate Revived(s: ChainState, n: BlockNode, t: BlockNode, check: Verdicts)
  {
    forall m :: m in Branch(s, t) ==> !StaysInvalid(s, n, m) && Passes(s, m, check)
  }

  lemma ReconsideredFlags(s: ChainState, n: BlockNode, m: BlockNode, check: Verdicts)
    requires Inv(s) && n in s.status && !KnownValid(s.status[n]) && m in s.status
    ensures KnownInvalid(StatusOf(ClearMarks(s, n), m)) <==> StaysInvalid(s, n, m)
    ensures Passes(ClearMarks(s, n), m, check) <==> Passes(s, m, check)
  {
    hide Inv, Path, ClearMarks, VerdictOn;
    ClearMarksExactly(s, n, m);
  }

  lemma RevivedIsViable(s: ChainState, n: BlockNode, t: BlockNode, check: Verdicts)
    requires Inv(s) && n in s.status && !KnownValid(s.status[n]) && t in s.status && t.parent.Some? && t !in Best(s)
    ensures Revived(s, n, t, check) <==> Viable(ClearMarks(s, n), t, check)
  {
    hide Inv, Path, ClearMarks, Passes, Branch, TreeOk, BestClean, StaysInvalid, KnownInvalid, StatusOf, ForkLength;
    InvFacts(s);
    ClearMarksKeepsInv(s, n);
    var s1 := ClearMarks(s, n);
    InvFacts(s1);
    SameFork(s, s1, t);
    BranchFacts(s, t);
    BranchFacts(s1, t);
    forall m | m in s.status
      ensures KnownInvalid(StatusOf(s1, m)) <==> StaysInvalid(s, n, m)
      ensures Passes(s1, m, check) <==> Passes(s, m, check)
    {
      ReconsideredFlags(s, n, m, check);
    }
    var p := t.parent.value;
    ParentInPath(t);
    if p in Best(s1) { CleanBest(s1, p); }
  }

  /** The calls that reconsider nothing, and the one that finds no heavier tip: no row is written. */
  lemma ReconsiderStays(s: ChainState, hash: Hash, t: BlockNode, check: Verdicts, reap: Verdicts)
    requires Inv(s) && ReconsiderChoice(s, hash, t)
    ensures hash !in s.index ==> ReconsiderBlock(s, hash, t, check, reap) == (s, OtherError)
    ensures hash in s.index && KnownValid(StatusOf(s, s.index[hash])) ==>
      ReconsiderBlock(s, hash, t, check, reap) == (s, Fine)
    ensures hash in s.index && !KnownValid(StatusOf(s, s.index[hash])) && t.work <= s.tip.work ==>
      var (s', r) := ReconsiderBlock(s, hash, t, check, reap);
      r == Fine && SameChain(s, s') && s'.rows == s.rows
  {
    hide Inv, Path, Restatus, Reorganize, ReorganizeNodes, Verify, ReconsiderCandidate;
    InvFacts(s);
    if hash in s.index && !KnownValid(StatusOf(s, s.index[hash])) {
      IndexedKnown(s, hash);
      ClearMarksKeepsInv(s, s.index[hash]);
      ClearMarksRows(s, s.index[hash]);
    }
  }

  lemma ClearMarksRows(s: ChainState, n: BlockNode)
    ensures ClearMarks(s, n).rows == s.rows
  {
    hide Path;
  }

  /**
    Where reconsidering a block leaves the chain when the tip it finds is heavier: on that tip, or below the
    first block whose prefix check is not fine, exactly when the branch is revived; and where it was otherwise.
  */
  lemma ReconsiderMoves(s: ChainState, hash: Hash, t: BlockNode, check: Verdicts, reap: Verdicts)
    requires Inv(s) && hash in s.index && !KnownValid(StatusOf(s, s.index[hash])) && ReconsiderChoice(s, hash, t)
    requires t.work > s.tip.work
    ensures var (s', r) := ReconsiderBlock(s, hash, t, check, reap);
            if Revived(s, s.index[hash], t, check) then
              s'.tip == TakeoverTip(s, t, reap) && r == TakeoverVerdict(s, t, reap)
            else s'.tip == s.tip && r == Fine
  {
    hide Steady, Path, Reorganize, ReorganizeNodes, DownTo, Flush, BestClean, ForkLength, Verify, TreeOk, Branch;
    hide LedgerOk, ValidSound, StoreOk, ClearMarks, InactiveTips, BranchClean, TakeoverTip, TakeoverVerdict, Revived;
    TipFacts(s);
    IndexedKnown(s, hash);
    var n := s.index[hash];
    ClearMarksKeepsInv(s, n);
    var s1 := ClearMarks(s, n);
    TipFacts(s1);
    CandidateOffBest(s1, n, t);
    SameFork(s, s1, t);
    SameTakeover(s, s1, t, reap);
    RevivedIsViable(s, n, t, check);
    ReorganizeNodesOutcome(s1, t);
    if BranchClean(s1, t) {
      ReconsiderOutcome(s1, t, check, reap);
    } else {
      var s2 := ReorganizeNodes(s1, t).0;
      RefusedOutcome(s1, t);
      NothingToVerify(s2, check);
      NothingToReorganize(Flush(s2), check, reap);
    }
  }

  /** Reconsidering a heavier tip changes flags on its branch only. */
  lemma ReconsiderTouchesBranch(s: ChainState, t: BlockNode, check: Verdicts, reap: Verdicts, m: BlockNode)
    requires Inv(s) && t in s.status && t.parent.Some? && BranchClean(s, t) && m in s.status && m !in Branch(s, t)
    ensures var detach, attach := DownTo(s.tip, ForkLength(s, t)), Branch(s, t);
            var s4 := Flush(Verify(s, detach, attach, check).0);
            && StatusOf(s4, m) == s.status[m]
            && (Verify(s, detach, attach, check).1 == Fine ==>
                  StatusOf(Reorganize(s4, detach, attach, check, reap).0, m) == s.status[m])
  {
    hide Steady, Path, Reorganize, DownTo, Flush, BestClean, ForkLength, Verify, TreeOk, LedgerOk, ValidSound, StoreOk;
    hide Linked, BranchClean, SameChain, Passes, VerdictOn, Branch;
    TipFacts(s);
    BranchFacts(s, t);
    var k, attach := ForkLength(s, t), Branch(s, t);
    var i := VerifyStops(s, k, attach, check);
    var s3, r := Verify(s, DownTo(s.tip, k), attach, check).0, Verify(s, DownTo(s.tip, k), attach, check).1;
    VerifiedSteady(s, attach, check, i, s3, r);
    assert s3.status[m] == VerifyMark(s.status[m], m, attach, i, r);
    FlushFields(s3);
    if r == Fine {
      var s4 := Flush(s3);
      ReconsiderStep(s, t, check, reap);
      VerifiedFine(s, attach, check, i, s3);
      SameFork(s, s4, t);
      StillClean(s, s4, attach, t);
      AttemptTouchesBranch(s4, t, check, reap, m);
    }
  }

  /** Off the branch of the tip it ends with, or everywhere when that tip is no heavier, only clearing shows. */
  lemma ReconsiderLeavesCleared(s: ChainState, hash: Hash, t: BlockNode, check: Verdicts, reap: Verdicts, m: BlockNode)
    requires Inv(s) && hash in s.index && !KnownValid(StatusOf(s, s.index[hash])) && ReconsiderChoice(s, hash, t)
    requires m in s.status && (t.work <= s.tip.work || m !in Branch(s, t))
    ensures var s1 := ClearMarks(s, s.index[hash]);
            && s1.status.Keys == s.status.Keys
            && StatusOf(ReconsiderBlock(s, hash, t, check, reap).0, m) == s1.status[m]
            && (t.work <= s.tip.work ==> SameChain(s, ReconsiderBlock(s, hash, t, check, reap).0))
  {
    hide Steady, Path, Reorganize, ReorganizeNodes, DownTo, Flush, BestClean, ForkLength, Verify, TreeOk;
    hide LedgerOk, ValidSound, StoreOk, ClearMarks, InactiveTips, BranchClean, Branch;
    TipFacts(s);
    IndexedKnown(s, hash);
    var n := s.index[hash];
    ClearMarksKeepsInv(s, n);
    var s1 := ClearMarks(s, n);
    if t.work > s.tip.work && t.parent.Some? {
      TipFacts(s1);
      CandidateOffBest(s1, n, t);
      SameFork(s, s1, t);
      ReorganizeNodesOutcome(s1, t);
      if BranchClean(s1, t) {
        ReconsiderTouchesBranch(s1, t, check, reap, m);
      } else {
        var s2 := ReorganizeNodes(s1, t).0;
        RefusedTouchesBranch(s1, t, m);
        FlushFields(s2);
        NothingToVerify(s2, check);
        NothingToReorganize(Flush(s2), check, reap);
      }
    }
  }

  /**
    What a reconsidered block's marks become: it is cleared itself, a descendant stays known invalid exactly
    if it failed on its own, and the verdict on every other block stands.
  */
  lemma ReconsiderClears(s: ChainState, hash: Hash, t: BlockNode, check: Verdicts, reap: Verdicts, m: BlockNode)
    requires Inv(s) && hash in s.index && !KnownValid(StatusOf(s, s.index[hash])) && ReconsiderChoice(s, hash, t)
    requires m in s.status && (t.work <= s.tip.work || m !in Branch(s, t))
    ensures var n, after := s.index[hash], StatusOf(ReconsiderBlock(s, hash, t, check, reap).0, m);
            && (KnownInvalid(after) <==>
                  m != n && (ValidateFailed in s.status[m] || (InvalidAncestor in s.status[m] && n !in Path(m))))
            && (KnownValid(after) <==> KnownValid(s.status[m]))
  {
    hide Inv, Path, ReconsiderBlock, ClearMarks, Branch, ReconsiderChoice;
    ReconsiderLeavesCleared(s, hash, t, check, reap, m);
    ClearMarksExactly(s, s.index[hash], m);
  }

  /**
    Invalidating a side branch block and then reconsidering it: each block gets its flags back, except that
    validity has to be established again on the branch, and marks inherited by blocks already invalid are gone.
  */
  lemma ReconsiderUndoesInvalidate(s: ChainState, hash: Hash, t0: BlockNode, check0: Verdicts, reap0: Verdicts,
                                   t: BlockNode, check: Verdicts, reap: Verdicts, m: BlockNode)
    requires Inv(s) && hash in s.index && s.index[hash] !in Best(s) && !KnownInvalid(StatusOf(s, s.index[hash]))
    requires ReconsiderChoice(InvalidateBlock(s, hash, t0, check0, reap0).0, hash, t)
    requires m in s.status && (t.work <= s.tip.work || m !in Branch(s, t))
    ensures var n, s' := s.index[hash], InvalidateBlock(s, hash, t0, check0, reap0).0;
            var s'' := ReconsiderBlock(s', hash, t, check, reap).0;
            && StatusOf(s'', m) == (if n !in Path(m) then s.status[m]
                                    else if KnownInvalid(s.status[m]) then s.status[m] - {InvalidAncestor}
                                    else s.status[m] - {Valid})
            && (t.work <= s.tip.work ==> SameChain(s, s''))
  {
    hide Inv, Path, ReconsiderBlock, ClearMarks, Branch, ReconsiderChoice, InvalidateBlock, Flush, SideInvalidated;
    var n := s.index[hash];
    SideInvalidateIs(s, hash, t0, check0, reap0);
    var s1 := SideInvalidated(s, n);
    var s' := Flush(s1);
    FlushFields(s1);
    SameFork(s, s', t);
    ClearMarksUndo(s, n, m);
    ReconsiderLeavesCleared(s', hash, t, check, reap, m);
    ClearMarksSameFlags(s1, s', n, m);
  }

  lemma SideInvalidateIs(s: ChainState, hash: Hash, t: BlockNode, check: Verdicts, reap: Verdicts)
    requires Inv(s) && hash in s.index && s.index[hash] !in Best(s) && !KnownInvalid(StatusOf(s, s.index[hash]))
    ensures var s1 := SideInvalidated(s, s.index[hash]);
            && s.index[hash] in s.status && InvalidateBlock(s, hash, t, check, reap) == (Flush(s1), Fine)
            && Inv(Flush(s1)) && SameChain(s, Flush(s1)) && !KnownValid(StatusOf(Flush(s1), s.index[hash]))
  {
    hide Path, InvalidateDetach, SwitchTo, Flush, Restatus, Steady, BestClean, TreeOk, WellBuilt;
    InvFacts(s);
    IndexedKnown(s, hash);
    var n := s.index[hash];
    OnBestIsOnPath(s, n);
    ParentInPathSelf(n);
    OffBestUpward(s, n, n);
    ParentKnown(s, n);
    ChildTaller(n);
    SideInvalidation(s, n);
    FlushKeeps(SideInvalidated(s, n));
  }

  /** Invalidating a side chain block: it and everything above it is invalid, nothing else changes, and no error. */
  lemma InvalidateSide(s: ChainState, hash: Hash, t: BlockNode, check: Verdicts, reap: Verdicts)
    requires Inv(s) && hash in s.index && s.index[hash] !in Best(s) && !KnownInvalid(StatusOf(s, s.index[hash]))
    ensures var (s', r) := InvalidateBlock(s, hash, t, check, reap);
            && r == Fine && SameChain(s, s')
            && (forall m :: m in s.status ==>
                  if s.index[hash] in Path(m) then KnownInvalid(s'.status[m]) else s'.status[m] == s.status[m])
  {
    hide Inv, Path, InvalidateBlock, SideInvalidated, KnownInvalid;
    SideInvalidateIs(s, hash, t, check, reap);
    SideInvalidation(s, s.index[hash]);
  }

  lemma ClearMarksSameFlags(s: ChainState, s': ChainState, n: BlockNode, m: BlockNode)
    requires s'.status == s.status && m in s.status
    ensures StatusOf(ClearMarks(s', n), m) == StatusOf(ClearMarks(s, n), m)
  {
    hide Path, ClearMarks;
    ClearMarksExactly(s, n, m);
    ClearMarksExactly(s', n, m);
  }

  lemma NothingToVerify(s: ChainState, check: Verdicts)
    ensures Verify(s, [], [], check) == (s, Fine)
  {
  }

  // ---------------------------------------------------------------------------
  // Runs

  /** `createChainState`: the state of a fresh database. */
  function InitialState(genesis: Block): ChainState
  {
    var g := SkipSearch.NewNode(genesis, None);
    ChainState(
      g,
      map[genesis.hash := g],
      map[g := {DataStored, Valid}],
      {},
      map[g := {DataStored, Valid}],
      g,
      map[],
      map[],
      map[genesis.hash := 0],
      map[0 := genesis.hash],
      BestState(genesis.hash, 0, |genesis.txs|, |genesis.txs|, genesis.timestamp),
      SavedState(genesis.hash, 0, |genesis.txs|, genesis.work))
  }

  lemma InitialInv(genesis: Block)
    ensures Inv(InitialState(genesis)) && Optimal(InitialState(genesis))
  {
    hide LedgerOk;
    var s := InitialState(genesis);
    assert Path(s.tip) == [s.tip];
    InitialLedger(genesis);
  }

  lemma InitialLedger(genesis: Block)
    ensures LedgerOk(InitialState(genesis))
  {
    var g := InitialState(genesis).tip;
    assert MedianTime.Window(Some(g), MedianTime.MEDIAN_TIME_BLOCKS) == [genesis.timestamp];
    assert MedianTime.Sorted([genesis.timestamp]) == [genesis.timestamp];
    assert Path(g) == [g];
  }

  datatype Op =
    | Accept(block: Block, context: Outcome, fast: bool, check: Verdicts, reap: Verdicts)
    | Invalidate(hash: Hash, choice: BlockNode, check: Verdicts, reap: Verdicts)
    | Reconsider(hash: Hash, choice: BlockNode, check: Verdicts, reap: Verdicts)

  /** The step can happen: fast adds are vouched for, and a chosen tip is one the loops can choose. */
  ghost predicate Enabled(s: ChainState, op: Op)
  {
    match op
    case Accept(block, _, fast, _, _) => Vouched(s, block, fast)
    case Invalidate(hash, choice, check, reap) => InvalidateChoice(s, hash, choice, check, reap)
    case Reconsider(hash, choice, _, _) => ReconsiderChoice(s, hash, choice)
  }

  function Do(s: ChainState, op: Op): ChainState
  {
    match op
    case Accept(block, context, fast, check, reap) => AcceptBlock(s, block, context, fast, check, reap).0
    case Invalidate(hash, choice, check, reap) => InvalidateBlock(s, hash, choice, check, reap).0
    case Reconsider(hash, choice, check, reap) => ReconsiderBlock(s, hash, choice, check, reap).0
  }

  lemma StepKeepsInv(s: ChainState, op: Op)
    requires Inv(s) && Enabled(s, op)
    ensures Inv(Do(s, op))
  {
    hide Inv, Vouched, InvalidateChoice, ReconsiderChoice, AcceptBlock, InvalidateBlock, ReconsiderBlock;
    match op
    case Accept(block, context, fast, check, reap) => AcceptKeepsInv(s, block, context, fast, check, reap);
    case Invalidate(hash, choice, check, reap) => InvalidateKeepsInv(s, hash, choice, check, reap);
    case Reconsider(hash, choice, check, reap) => ReconsiderKeepsInv(s, hash, choice, check, reap);
  }

  /** The states a run goes through, starting at `s`; every step is enabled where it is taken. */
  ghost predicate IsRun(s: ChainState, ops: seq<Op>)
    decreases |ops|
  {
    ops == [] || (Enabled(s, ops[0]) && IsRun(Do(s, ops[0]), ops[1..]))
  }

  function After(s: ChainState, ops: seq<Op>): ChainState
    decreases |ops|
  {
    if ops == [] then s else After(Do(s, ops[0]), ops[1..])
  }

  lemma {:induction false} RunKeepsInv(s: ChainState, ops: seq<Op>)
    requires Inv(s) && IsRun(s, ops)
    ensures Inv(After(s, ops))
    decreases |ops|
  {
    hide Inv, Enabled, Do;
    if ops != [] {
      StepKeepsInv(s, ops[0]);
      RunKeepsInv(Do(s, ops[0]), ops[1..]);
    }
  }

  /** Every state reachable from a fresh database satisfies the invariant. */
  lemma ReachableInv(genesis: Block, ops: seq<Op>)
    requires IsRun(InitialState(genesis), ops)
    ensures Inv(After(InitialState(genesis), ops))
  {
    hide Inv, InitialState;
    InitialInv(genesis);
    RunKeepsInv(InitialState(genesis), ops);
  }

  /** An accept step that is not interrupted and does not strand the chain. */
  ghost predicate Undisturbed(s: ChainState, op: Op)
  {
    && op.Accept? && !Strands(s, op.block, op.context, op.check, op.reap)
    && !Interrupted(s, op.block, op.context, op.fast, op.check, op.reap)
  }

  ghost predicate UndisturbedRun(s: ChainState, ops: seq<Op>)
    decreases |ops|
  {
    ops == [] || (Undisturbed(s, ops[0]) && UndisturbedRun(Do(s, ops[0]), ops[1..]))
  }

  /** Over every undisturbed run of accept steps the best chain is the heaviest valid one and never loses work. */
  lemma {:induction false} HeaviestChainWins(s: ChainState, ops: seq<Op>)
    requires Inv(s) && Optimal(s) && IsRun(s, ops) && UndisturbedRun(s, ops)
    ensures Optimal(After(s, ops)) && After(s, ops).tip.work >= s.tip.work
    decreases |ops|
  {
    hide Inv, Optimal, Vouched, Interrupted, Strands, AcceptBlock;
    if ops != [] {
      var op := ops[0];
      StepKeepsInv(s, op);
      AcceptStaysHeaviest(s, op.block, op.context, op.fast, op.check, op.reap);
      HeaviestChainWins(Do(s, op), ops[1..]);
    }
  }

  // ---------------------------------------------------------------------------
  // What the invariant means, in terms of the best chain

  function CountTxns(ns: seq<BlockNode>): nat
  {
    if ns == [] then 0 else CountTxns(ns[..|ns| - 1]) + |ns[|ns| - 1].block.txs|
  }

  lemma {:induction false} TotalIsSum(n: BlockNode)
    ensures TotalTxns(n) == CountTxns(Path(n))
    decreases n
  {
    if n.parent.Some? {
      TotalIsSum(n.parent.value);
      assert Path(n)[..|Path(n)| - 1] == Path(n.parent.value);
    } else {
      assert Path(n)[..0] == [];
    }
  }

  /**
    The snapshot, field by field: the tip's hash, height and transactions, the transactions of the whole best
    chain, and the timestamp that splits those of the last eleven blocks at their middle; and the saved state.
  */
  lemma SnapshotIsBest(s: ChainState)
    requires Inv(s)
    ensures s.snapshot.hash == s.tip.block.hash && s.snapshot.height == s.tip.height == |Best(s)| - 1
    ensures s.snapshot.numTxns == |s.tip.block.txs| && s.snapshot.totalTxns == CountTxns(Best(s))
    ensures var w := MedianTime.Window(Some(s.tip), MedianTime.MEDIAN_TIME_BLOCKS);
            var median := s.snapshot.median;
            && |w| == (if |Best(s)| < 11 then |Best(s)| else 11)
            && (forall i :: 0 <= i < |w| ==> w[i] == Best(s)[|Best(s)| - 1 - i].block.timestamp)
            && MedianTime.CountBelow(w, median) <= |w| / 2 < MedianTime.CountBelow(w, median + 1)
    ensures s.saved.hash == s.tip.block.hash && s.saved.height == s.tip.height
    ensures s.saved.totalTxns == CountTxns(Best(s))
  {
    hide Path, MedianTime.Window, MedianTime.PastMedian, MedianTime.CountBelow, TreeOk, WellBuilt, BestClean, Sound;
    hide CountTxns, Replay, JournalMap, HashIndex, HeightIndex, ValidSound, StoreOk;
    TipFacts(s);
    PathLength(s.tip);
    TotalIsSum(s.tip);
    MedianTime.WindowIsLastEleven(s.tip);
    MedianTime.MedianByRank(s.tip, MedianTime.PastMedian(s.tip));
  }

  /** The journal holds exactly the best chain blocks above genesis. */
  lemma JournalIsBestChain(s: ChainState, n: BlockNode)
    requires Inv(s) && n in s.status
    ensures n.block.hash in s.journal <==> n in Best(s) && n != s.genesis
    ensures n in Best(s) && n != s.genesis ==>
      n.parent.Some? && Sound(n) && s.journal[n.block.hash] == JournalOf(n)
  {
    hide Steady, Path, TreeOk, LedgerOk, JournalOf, Sound, WellBuilt, BestClean;
    TipFacts(s);
    ParentKnown(s, n);
    if n in Best(s) && n != s.genesis {
      BestJournaled(s, n);
    }
    if n.block.hash in s.journal {
      JournaledIsBest(s, n);
    }
  }

  /** What the entry of a block keeps: for every input in turn, the output it consumed. */
  lemma JournalEntryIs(s: ChainState, n: BlockNode, i: nat, j: nat)
    requires Inv(s) && n in s.status && n in Best(s) && n != s.genesis
    requires 0 < i < |n.block.txs| && j < |n.block.txs[i].inputs|
    ensures n.parent.Some? && n.block.hash in s.journal
    ensures var entry, op, txs := s.journal[n.block.hash], n.block.txs[i].inputs[j], n.block.txs;
            var u := AfterTxs(Replay(n.parent.value), txs, i, n.height);
            && |entry| == InputsBefore(txs, |txs|) && InputsBefore(txs, i) + j < |entry|
            && op in u && entry[InputsBefore(txs, i) + j] == u[op]
  {
    hide Inv, Path, AfterTxs, BlockEvents, InputsPresent, SpentCoins, Replay, Overwritten;
    JournalIsBestChain(s, n);
    var txs, u := n.block.txs, Replay(n.parent.value);
    assert txs[..|txs|] == txs;
    PrefixFits(u, txs, |txs|, n.height);
    JournalHolds(u, txs, |txs|, n.height, i, j);
  }

  lemma BestJournaled(s: ChainState, n: BlockNode)
    requires Steady(s) && n in Best(s) && n.parent.Some?
    ensures Sound(n) && n.block.hash in s.journal && s.journal[n.block.hash] == JournalOf(n)
  {
    hide Path, TreeOk, JournalMap, JournalOf, Sound;
    TipFacts(s);
    JournalAt(s, s.tip, n);
  }

  lemma JournaledIsBest(s: ChainState, n: BlockNode)
    requires Steady(s) && n in s.status && n.block.hash in s.journal
    ensures n in Best(s) && n != s.genesis
  {
    hide Path, TreeOk, JournalMap, Sound, HashIndex;
    TipFacts(s);
    JournalKeys(s.tip);
    var m := HashIndexOnly(s.tip, n.block.hash);
    PathKnown(s, s.tip);
    SameHashSameNode(s, m, n);
    GenesisUnjournaled(s, s.tip);
  }

  lemma SameHashSameNode(s: ChainState, m: BlockNode, n: BlockNode)
    requires TreeOk(s) && m in s.status && n in s.status && m.block.hash == n.block.hash
    ensures m == n
  {
    hide Path, WellBuilt;
  }

  lemma {:induction false} GenesisUnjournaled(s: ChainState, t: BlockNode)
    requires TreeOk(s) && t in s.status && Sound(t)
    ensures s.genesis.block.hash !in JournalMap(t)
    decreases t
  {
    hide TreeOk, WellBuilt, JournalOf, HashIndex, Connectable;
    ParentKnown(s, t);
    if t.parent.Some? {
      GenesisUnjournaled(s, t.parent.value);
      FreshAbove(s, t);
      PathKnown(s, t.parent.value);
      HashIndexHolds(t.parent.value, s.genesis);
    }
  }

  /** The two index buckets are inverse to each other and cover exactly the best chain. */
  lemma BucketsAreBestChain(s: ChainState, n: BlockNode)
    requires Inv(s) && n in s.status
    ensures n.block.hash in s.hashToHeight <==> n in Best(s)
    ensures n in Best(s) ==>
      && s.hashToHeight[n.block.hash] == n.height
      && n.height in s.heightToHash && s.heightToHash[n.height] == n.block.hash
    ensures forall k :: k in s.heightToHash <==> 0 <= k < |Best(s)|
  {
    hide Steady, Path, TreeOk, ValidSound, StoreOk, JournalMap, Sound, WellBuilt, HashIndex, HeightIndex;
    TipFacts(s);
    PathLength(s.tip);
    HeightIndexKeys(s.tip);
    if n in Best(s) {
      BucketsAt(s, s.tip, n);
    }
    if n.block.hash in s.hashToHeight {
      var m := HashIndexOnly(s.tip, n.block.hash);
      PathKnown(s, s.tip);
      SameHashSameNode(s, m, n);
    }
  }

  lemma {:induction false} BucketsAt(s: ChainState, t: BlockNode, n: BlockNode)
    requires TreeOk(s) && t in s.status && n in Path(t)
    ensures n.block.hash in HashIndex(t) && HashIndex(t)[n.block.hash] == n.height
    ensures n.height in HeightIndex(t) && HeightIndex(t)[n.height] == n.block.hash
    decreases t
  {
    hide TreeOk, WellBuilt;
    ParentKnown(s, t);
    if n != t {
      BucketsAt(s, t.parent.value, n);
      FreshAbove(s, t);
    }
  }
}
