/** The heaviest chain without a known invalid block is the best chain. */
module HeaviestChain {
  import opened Base
  import opened BlockNodes
  import opened Ledger
  import opened ChainModel
  import opened ChainInvariants
  import opened ChainReorg
  import opened ChainSelect
  import opened ChainAccept
  import SkipSearch

  /** The block reaches the index: it is new, its parent is there and not known invalid, and its context is right. */
  predicate Admitted(s: ChainState, block: Block, context: Outcome)
  {
    && block.hash !in s.index && block.prev in s.index
    && !KnownInvalid(StatusOf(s, s.index[block.prev])) && context == Fine
  }

  function NodeFor(s: ChainState, block: Block): BlockNode
    requires block.prev in s.index
  {
    SkipSearch.NewNode(block, Some(s.index[block.prev]))
  }

  /** What a caller of a fast add vouches for: the block fits the chain it extends. */
  ghost predicate Vouched(s: ChainState, block: Block, fast: bool)
  {
    fast && block.prev in s.index && s.index[block.prev] == s.tip ==> Connectable(s.utxo, NodeFor(s, block))
  }

  lemma AdmittedNewcomer(s: ChainState, block: Block, context: Outcome)
    requires Inv(s) && Admitted(s, block, context)
    ensures var n := NodeFor(s, block);
            && n !in s.status && Newcomer(WithNode(s, n), n)
            && WithNode(s, n).tip == s.tip && WithNode(s, n).status == s.status[n := {DataStored}]
            && WithNode(s, n).index == s.index[block.hash := n] && WithNode(s, n).utxo == s.utxo
            && n.work >= s.index[block.prev].work
  {
    hide Steady, Path, WellBuilt, WithNode, TreeOk, LedgerOk, ValidSound, StoreOk, BestClean;
    TipFacts(s);
    IndexedKnown(s, block.prev);
    var p := s.index[block.prev];
    ParentKnown(s, p);
    SkipSearch.NewNodeWellBuilt(block, p);
    WithNodeInv(s, NodeFor(s, block));
  }

  /** Every accept step keeps the invariant, and flags on known nodes only grow. */
  lemma AcceptKeepsInv(s: ChainState, block: Block, context: Outcome, fast: bool, check: Verdicts, reap: Verdicts)
    requires Inv(s) && Vouched(s, block, fast)
    ensures Inv(AcceptBlock(s, block, context, fast, check, reap).0)
  {
    hide Steady, Path, WithNode, ConnectBest, Takeover, BestClean, Connectable;
    if Admitted(s, block, context) {
      AdmittedNewcomer(s, block, context);
      var n := NodeFor(s, block);
      var s1 := WithNode(s, n);
      if n.parent == Some(s1.tip) {
        ConnectExtends(s1, n, fast, check, reap);
      } else if Takeover(s1, n, check) {
        TakeoverOutcome(s1, n, fast, check, reap);
      } else {
        SideBlockOutcome(s1, n, fast, check, reap);
      }
    }
  }

  /** A block that is not admitted changes nothing, is not on the main chain, and gets the error it deserves. */
  lemma RefusedAnswer(s: ChainState, block: Block, context: Outcome, fast: bool, check: Verdicts, reap: Verdicts)
    requires !Admitted(s, block, context)
    ensures var (s', main, r) := AcceptBlock(s, block, context, fast, check, reap);
            && s' == s && !main && r != Fine
            && r == if block.hash in s.index || block.prev !in s.index || KnownInvalid(StatusOf(s, s.index[block.prev]))
                    then RuleError else context
  {
    hide ConnectBest, WithNode, KnownInvalid;
  }

  /** What is to be answered for a block that is admitted. */
  ghost function AcceptVerdict(s: ChainState, block: Block, fast: bool, check: Verdicts, reap: Verdicts): Outcome
    requires block.prev in s.index
  {
    var n := NodeFor(s, block);
    var s1 := WithNode(s, n);
    if n.parent == Some(s.tip) then ExtensionVerdict(s, n, fast, check, reap)
    else if n.work > s.tip.work && BranchClean(s1, n) then AttemptVerdict(s1, n, check, reap)
    else Fine
  }

  /**
    A block that is admitted is in the index afterwards whatever the answer, and counts as on the main chain
    exactly if there is no error and it extends the tip or is heavier.
  */
  lemma AdmittedAnswer(s: ChainState, block: Block, context: Outcome, fast: bool, check: Verdicts, reap: Verdicts)
    requires Inv(s) && Vouched(s, block, fast) && Admitted(s, block, context)
    ensures var n := NodeFor(s, block);
            var (s', main, r) := AcceptBlock(s, block, context, fast, check, reap);
            && s'.index == s.index[block.hash := n] && n in s'.status && r == AcceptVerdict(s, block, fast, check, reap)
            && (main <==> r == Fine && (n.parent == Some(s.tip) || n.work > s.tip.work))
  {
    hide Steady, Path, WithNode, ConnectBest, BestClean, Connectable, TakeoverTip, BranchClean, Branch, Judge;
    hide AttemptVerdict, Passes, VerdictMissing, Tainted;
    AdmittedNewcomer(s, block, context);
    var n := NodeFor(s, block);
    var s1 := WithNode(s, n);
    if n.parent == Some(s1.tip) {
      ConnectExtends(s1, n, fast, check, reap);
    } else if Takeover(s1, n, check) {
      TakeoverOutcome(s1, n, fast, check, reap);
    } else {
      SideBlockOutcome(s1, n, fast, check, reap);
      if n.work > s.tip.work && BranchClean(s1, n) {
        NotAllPass(s1, n, check, reap);
      }
    }
  }

  lemma ConnectGrows(s: ChainState, n: BlockNode, fast: bool, check: Verdicts, reap: Verdicts)
    requires Newcomer(s, n) && (fast && n.parent == Some(s.tip) ==> Connectable(s.utxo, n))
    ensures Grows(s, ConnectBest(s, n, fast, check, reap).0)
  {
    hide Inv, Path, ConnectBest, Connectable, TakeoverTip, BranchClean, Branch, AttemptVerdict, Passes;
    hide VerdictMissing, Tainted, Takeover, ExtensionVerdict, FirstRefused, KnownInvalid, Grows;
    if n.parent == Some(s.tip) {
      ConnectExtends(s, n, fast, check, reap);
    } else if Takeover(s, n, check) {
      TakeoverOutcome(s, n, fast, check, reap);
    } else {
      SideBlockOutcome(s, n, fast, check, reap);
    }
  }

  /** Its data is stored, and no other node loses a flag. */
  lemma AdmittedStored(s: ChainState, block: Block, context: Outcome, fast: bool, check: Verdicts, reap: Verdicts)
    requires Inv(s) && Vouched(s, block, fast) && Admitted(s, block, context)
    ensures var n, s' := NodeFor(s, block), AcceptBlock(s, block, context, fast, check, reap).0;
            && n !in s.status && s'.status.Keys == s.status.Keys + {n} && DataStored in s'.status[n]
            && forall m :: m in s.status ==> s.status[m] <= s'.status[m]
  {
    hide Inv, Path, WithNode, ConnectBest, Connectable, KnownInvalid;
    AdmittedNewcomer(s, block, context);
    var n := NodeFor(s, block);
    ConnectGrows(WithNode(s, n), n, fast, check, reap);
  }

  lemma NotAllPass(s: ChainState, n: BlockNode, check: Verdicts, reap: Verdicts)
    requires exists m :: m in Branch(s, n) && !Passes(s, m, check)
    ensures AttemptVerdict(s, n, check, reap) != Fine
  {
    hide Path, Branch, FirstFailing, Connectable, Replay;
    AllPass(s, Branch(s, n), check);
  }

  // ---------------------------------------------------------------------------
  // Optimality

  /** Whatever has more work than the tip has a known invalid block on its way. */
  ghost predicate Optimal(s: ChainState)
  {
    forall m :: m in s.status && m.work > s.tip.work ==> Tainted(s, m)
  }

  lemma TaintedGrows(s: ChainState, s': ChainState, m: BlockNode)
    requires Tainted(s, m) && forall x :: x in s.status ==> x in s'.status && s.status[x] <= s'.status[x]
    ensures Tainted(s', m)
  {
    hide Path;
    var x :| x in Path(m) && KnownInvalid(StatusOf(s, x));
    assert x in s'.status && KnownInvalid(StatusOf(s', x));
  }

  /** A step that adds one node, loses no flag and does not lose work stays optimal if it settles the new node. */
  lemma OptimalKept(s: ChainState, n: BlockNode, s1: ChainState, s': ChainState)
    requires Optimal(s) && n !in s.status && s1.status == s.status[n := {DataStored}] && Grows(s1, s')
    requires s'.tip.work >= s.tip.work && (n.work <= s'.tip.work || Tainted(s', n))
    ensures Optimal(s')
  {
    hide Path, Tainted;
    forall m | m in s'.status && m.work > s'.tip.work ensures Tainted(s', m)
    {
      if m != n {
        assert m in s.status;
        TaintedGrows(s, s', m);
      }
    }
  }

  /**
    The one way a block can make the chain lose work: its branch passes verification
    and replaces the tip, but the prefix check of one of its blocks fails after the
    old branch is gone, at a point where less work has been attached than was detached.
  */
  ghost predicate Strands(s: ChainState, block: Block, context: Outcome, check: Verdicts, reap: Verdicts)
  {
    && Admitted(s, block, context)
    && var n := NodeFor(s, block);
       var s1 := WithNode(s, n);
       Takeover(s1, n, check) && TakeoverTip(s1, n, reap).work < s.tip.work
  }

  /**
    The one way a block heavier than the tip can be left out without a verdict: some check it needs ends with an
    error that is about no rule.  On the tip that is the check of the block, or of its prefix once the block is
    fine; on a branch that passes, the first refused prefix check, below the block's own work; on any other clean
    branch, the check of the first block that does not pass.
  */
  ghost predicate Interrupted(s: ChainState, block: Block, context: Outcome, fast: bool, check: Verdicts,
                              reap: Verdicts)
  {
    && Admitted(s, block, context)
    && var n := NodeFor(s, block);
       var s1 := WithNode(s, n);
       && n.work > s.tip.work
       && if n.parent == Some(s.tip) then ExtensionVerdict(s, n, fast, check, reap) == OtherError
          else if Takeover(s1, n, check) then
            && FirstRefused(Branch(s1, n), reap) < |Branch(s1, n)|
            && reap(Branch(s1, n)[FirstRefused(Branch(s1, n), reap)]) == OtherError
            && TakeoverTip(s1, n, reap).work < n.work
          else BranchClean(s1, n) && VerdictMissing(s1, n, check)
  }

  /** Seen from the result: the error came back, and the block is heavier than the chain it left. */
  lemma InterruptedOutcome(s: ChainState, block: Block, context: Outcome, fast: bool, check: Verdicts, reap: Verdicts)
    requires Inv(s) && Vouched(s, block, fast) && Admitted(s, block, context)
    ensures var (s', _, r) := AcceptBlock(s, block, context, fast, check, reap);
            Interrupted(s, block, context, fast, check, reap) <==>
              r == OtherError && NodeFor(s, block).work > s'.tip.work
  {
    hide Steady, Path, WithNode, ConnectBest, Takeover, BestClean, Connectable, TakeoverTip, VerdictMissing, Judge;
    hide BranchClean, Branch;
    AdmittedNewcomer(s, block, context);
    var n := NodeFor(s, block);
    var s1 := WithNode(s, n);
    if n.parent == Some(s1.tip) {
      ConnectExtends(s1, n, fast, check, reap);
    } else if Takeover(s1, n, check) {
      TakeoverHeavier(s1, n, check);
      TakeoverOutcome(s1, n, fast, check, reap);
    } else {
      SideBlockOutcome(s1, n, fast, check, reap);
    }
  }

  lemma TakeoverHeavier(s: ChainState, n: BlockNode, check: Verdicts)
    requires Takeover(s, n, check)
    ensures n.work > s.tip.work && n.parent != Some(s.tip)
  {
  }

  /** Unless stranded or interrupted, an accept step never loses work and never overlooks a heavier valid chain. */
  lemma AcceptStaysHeaviest(s: ChainState, block: Block, context: Outcome, fast: bool, check: Verdicts, reap: Verdicts)
    requires Inv(s) && Optimal(s) && Vouched(s, block, fast) && !Strands(s, block, context, check, reap)
    requires !Interrupted(s, block, context, fast, check, reap)
    ensures Optimal(AcceptBlock(s, block, context, fast, check, reap).0)
    ensures AcceptBlock(s, block, context, fast, check, reap).0.tip.work >= s.tip.work
  {
    hide Steady, Path, WithNode, ConnectBest, Takeover, BestClean, Connectable, Optimal, Tainted, TakeoverTip;
    hide Interrupted;
    if Admitted(s, block, context) {
      InterruptedOutcome(s, block, context, fast, check, reap);
      AdmittedNewcomer(s, block, context);
      var n := NodeFor(s, block);
      var s1 := WithNode(s, n);
      var s' := AcceptBlock(s, block, context, fast, check, reap).0;
      if n.parent == Some(s1.tip) {
        ConnectExtends(s1, n, fast, check, reap);
        if KnownInvalid(StatusOf(s', n)) { TaintedSelf(s', n); }
      } else if Takeover(s1, n, check) {
        TakeoverOutcome(s1, n, fast, check, reap);
      } else {
        SideBlockOutcome(s1, n, fast, check, reap);
      }
      OptimalKept(s, n, s1, s');
    }
  }

  lemma TaintedSelf(s: ChainState, n: BlockNode)
    requires KnownInvalid(StatusOf(s, n))
    ensures Tainted(s, n)
  {
    assert Path(n)[|Path(n)| - 1] == n;
  }

  /** The stranded case does lose: the chain it left was heavier and has no known invalid block. */
  lemma StrandedLoses(s: ChainState, block: Block, context: Outcome, fast: bool, check: Verdicts, reap: Verdicts)
    requires Inv(s) && Strands(s, block, context, check, reap)
    ensures !Optimal(AcceptBlock(s, block, context, fast, check, reap).0)
    ensures AcceptBlock(s, block, context, fast, check, reap).0.tip.work < s.tip.work
  {
    hide Steady, Path, WithNode, ConnectBest, Takeover, Connectable, TreeOk, TakeoverTip;
    AdmittedNewcomer(s, block, context);
    TipFacts(s);
    var n := NodeFor(s, block);
    var s1 := WithNode(s, n);
    TakeoverOutcome(s1, n, fast, check, reap);
    var s' := AcceptBlock(s, block, context, fast, check, reap).0;
    assert s.tip in s'.status;
  }

  /** The interrupted case overlooks its own block, which has no known invalid block on its way. */
  lemma InterruptedLoses(s: ChainState, block: Block, context: Outcome, fast: bool, check: Verdicts, reap: Verdicts)
    requires Inv(s) && Vouched(s, block, fast) && Interrupted(s, block, context, fast, check, reap)
    ensures !Optimal(AcceptBlock(s, block, context, fast, check, reap).0)
    ensures !Tainted(AcceptBlock(s, block, context, fast, check, reap).0, NodeFor(s, block))
  {
    hide Steady, Path, WithNode, ConnectBest, Takeover, BestClean, Connectable, Tainted, TakeoverTip, Interrupted;
    InterruptedAdmitted(s, block, context, fast, check, reap);
    InterruptedOutcome(s, block, context, fast, check, reap);
    AdmittedNewcomer(s, block, context);
    var n := NodeFor(s, block);
    var s1 := WithNode(s, n);
    var s' := AcceptBlock(s, block, context, fast, check, reap).0;
    if n.parent == Some(s1.tip) {
      ConnectExtends(s1, n, fast, check, reap);
      UntaintedChild(s', n);
    } else if Takeover(s1, n, check) {
      TakeoverOutcome(s1, n, fast, check, reap);
    } else {
      SideBlockOutcome(s1, n, fast, check, reap);
    }
    assert n in s'.status;
  }

  lemma InterruptedAdmitted(s: ChainState, block: Block, context: Outcome, fast: bool, check: Verdicts,
                            reap: Verdicts)
    requires Interrupted(s, block, context, fast, check, reap)
    ensures Admitted(s, block, context)
  {
  }

  lemma UntaintedChild(s: ChainState, n: BlockNode)
    requires BestClean(s) && n.parent == Some(s.tip) && !KnownInvalid(StatusOf(s, n))
    ensures !Tainted(s, n)
  {
    forall m | m in Path(n) ensures !KnownInvalid(StatusOf(s, m))
    {
      assert m in Best(s) || m == n;
    }
  }

  /** Exactly when accepting a block keeps the heaviest valid chain. */
  lemma HeaviestIff(s: ChainState, block: Block, context: Outcome, fast: bool, check: Verdicts, reap: Verdicts)
    requires Inv(s) && Optimal(s) && Vouched(s, block, fast)
    ensures Optimal(AcceptBlock(s, block, context, fast, check, reap).0)
            <==> !Strands(s, block, context, check, reap) && !Interrupted(s, block, context, fast, check, reap)
  {
    hide Inv, Optimal, Vouched, Strands, Interrupted, AcceptBlock;
    if Strands(s, block, context, check, reap) {
      StrandedLoses(s, block, context, fast, check, reap);
    } else if Interrupted(s, block, context, fast, check, reap) {
      InterruptedLoses(s, block, context, fast, check, reap);
    } else {
      AcceptStaysHeaviest(s, block, context, fast, check, reap);
    }
  }
}
