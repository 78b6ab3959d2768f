/** Accepting blocks: what a step does to the chain, and why the heaviest valid chain wins. */
module ChainAccept {
  import opened Base
  import opened BlockNodes
  import opened Ledger
  import opened ChainModel
  import opened ChainInvariants
  import opened ChainReorg
  import opened ChainSelect

  /** A node just added to the index. */
  ghost predicate Newcomer(s: ChainState, n: BlockNode)
  {
    Inv(s) && n in s.status && n !in Best(s) && n.parent.Some? && s.status[n] == {DataStored}
  }

  lemma PrevIsParent(s: ChainState, n: BlockNode)
    requires TreeOk(s) && n in s.status && n.parent.Some?
    ensures n.block.prev == s.tip.block.hash <==> n.parent == Some(s.tip)
  {
    hide Path, WalkBack, AncestorHeight;
    ParentKnown(s, n);
  }

  // ---------------------------------------------------------------------------
  // First case: the block extends the tip

  lemma JudgedSound(s: ChainState, n: BlockNode, check: Verdicts)
    requires Steady(s) && n.parent == Some(s.tip) && (Connectable(s.utxo, n) || Judge(s.utxo, n, check) == Fine)
    ensures Sound(n)
  {
    hide Steady, NodeEvents, InputsPresent, Overwritten, TreeOk, LedgerOk, ValidSound, StoreOk, WellBuilt;
    TipFacts(s);
  }

  /** What comes back for a block on the tip: the verdict on the block, or once that is fine on its prefix. */
  function ExtensionVerdict(s: ChainState, n: BlockNode, fast: bool, check: Verdicts, reap: Verdicts): Outcome
  {
    if !fast && Judge(s.utxo, n, check) != Fine then Judge(s.utxo, n, check) else reap(n)
  }

  lemma ConnectExtends(s: ChainState, n: BlockNode, fast: bool, check: Verdicts, reap: Verdicts)
    requires Newcomer(s, n) && n.parent == Some(s.tip) && (fast ==> Connectable(s.utxo, n))
    ensures var (s', main, r) := ConnectBest(s, n, fast, check, reap);
            && Inv(s') && Grows(s, s') && s'.index == s.index
            && main == (r == Fine) && s'.tip == (if main then n else s.tip)
            && (r == RuleError ==> ValidateFailed in StatusOf(s', n))
            && r == ExtensionVerdict(s, n, fast, check, reap)
            && (r == OtherError ==> !KnownInvalid(StatusOf(s', n)))
  {
    hide Steady, Path, Sound, NodeEvents, InputsPresent, Connectable, ExtendTip, Flush, Restatus, BestClean, TreeOk;
    TipFacts(s);
    PrevIsParent(s, n);
    if fast {
      JudgedSound(s, n, check);
      ExtendTipOutcome(s, n, true, reap);
    } else {
      match Judge(s.utxo, n, check)
      case Fine =>
        JudgedSound(s, n, check);
        MarkKeepsInv(s, n, Valid);
        ExtendTipOutcome(Flush(Restatus(s, {n}, {Valid}, {})), n, false, reap);
      case RuleError =>
        MarkKeepsInv(s, n, ValidateFailed);
      case OtherError =>
    }
  }

  // ---------------------------------------------------------------------------
  // Last case: the block makes a side branch the heaviest

  function FirstRefused(ns: seq<BlockNode>, reap: Verdicts): (i: nat)
    ensures i <= |ns|
    ensures forall j :: 0 <= j < i ==> reap(ns[j]) == Fine
    ensures i < |ns| ==> reap(ns[i]) != Fine
  {
    if ns == [] || reap(ns[0]) != Fine then 0 else 1 + FirstRefused(ns[1..], reap)
  }

  function FirstFailing(s: ChainState, ns: seq<BlockNode>, check: Verdicts): (i: nat)
    ensures i <= |ns|
    ensures forall j :: 0 <= j < i ==> Passes(s, ns[j], check)
    ensures i < |ns| ==> !Passes(s, ns[i], check)
  {
    if ns == [] || !Passes(s, ns[0], check) then 0 else 1 + FirstFailing(s, ns[1..], check)
  }

  /** Verification stops at the first block that does not pass, for want of a verdict on it. */
  ghost predicate VerdictMissing(s: ChainState, n: BlockNode, check: Verdicts)
  {
    var i := FirstFailing(s, Branch(s, n), check);
    i < |Branch(s, n)| && check(Branch(s, n)[i]) == OtherError
  }

  /** The block takes its branch past the tip's work and every block of the branch passes verification. */
  ghost predicate Takeover(s: ChainState, n: BlockNode, check: Verdicts)
  {
    && n.parent != Some(s.tip) && n.work > s.tip.work && BranchClean(s, n)
    && forall m :: m in Branch(s, n) ==> Passes(s, m, check)
  }

  /** Where a takeover ends: at the block, or below the first one whose prefix check fails. */
  function TakeoverTip(s: ChainState, n: BlockNode, reap: Verdicts): BlockNode
  {
    Last(ForkNode(s, n), Branch(s, n)[..FirstRefused(Branch(s, n), reap)])
  }

  /** What a takeover returns: the verdict of the first prefix check that is not fine. */
  function TakeoverVerdict(s: ChainState, n: BlockNode, reap: Verdicts): Outcome
  {
    var i := FirstRefused(Branch(s, n), reap);
    if i < |Branch(s, n)| then reap(Branch(s, n)[i]) else Fine
  }

  /** What an attempt returns: the verdict on the first block that does not pass, or that of the takeover. */
  function AttemptVerdict(s: ChainState, n: BlockNode, check: Verdicts, reap: Verdicts): Outcome
  {
    var i := FirstFailing(s, Branch(s, n), check);
    if i < |Branch(s, n)| then VerdictOn(Branch(s, n)[i], check) else TakeoverVerdict(s, n, reap)
  }

  lemma AllPass(s: ChainState, ns: seq<BlockNode>, check: Verdicts)
    ensures (forall m :: m in ns ==> Passes(s, m, check)) <==> FirstFailing(s, ns, check) == |ns|
  {
    hide Passes, FirstFailing;
    var i := FirstFailing(s, ns, check);
    assert i < |ns| ==> ns[i] in ns;
  }

  /** The reorganization that a block heavier than the tip asks for, on a clean branch. */
  function Attempt(s: ChainState, n: BlockNode, check: Verdicts, reap: Verdicts): (ChainState, Outcome)
  {
    Reorganize(s, DownTo(s.tip, ForkLength(s, n)), Branch(s, n), check, reap)
  }

  lemma PassingVerdict(s: ChainState, n: BlockNode, check: Verdicts, reap: Verdicts)
    requires forall m :: m in Branch(s, n) ==> Passes(s, m, check)
    ensures var i := FirstRefused(Branch(s, n), reap);
            AttemptVerdict(s, n, check, reap) == if i < |Branch(s, n)| then reap(Branch(s, n)[i]) else Fine
  {
    hide Passes, Branch;
    AllPass(s, Branch(s, n), check);
  }

  lemma AttemptReorganizes(s: ChainState, n: BlockNode, check: Verdicts, reap: Verdicts)
    requires Inv(s) && n in s.status && n.parent.Some? && BranchClean(s, n)
    requires forall m :: m in Branch(s, n) ==> Passes(s, m, check)
    ensures var (s', r) := Attempt(s, n, check, reap);
            && Inv(s')
            && ReorganizedUpTo(s, ForkNode(s, n), Branch(s, n), check, reap, FirstRefused(Branch(s, n), reap), s', r)
  {
    hide Inv, Path, Sound, Reorganize, DownTo, TreeOk, ForkLength, Passes, BestClean, LedgerOk, Steady, Branch;
    hide ForkNode, Last;
    var attach := Branch(s, n);
    var verified, i := ReorganizeKeepsInv(s, n, check, reap);
    assert i < |attach| ==> attach[i] in attach;
    assert verified && i == FirstRefused(attach, reap);
  }

  /** What the marks of a reorganization that passed verification say of the way to its last block. */
  lemma ReorganizedMarks(s: ChainState, n: BlockNode, check: Verdicts, reap: Verdicts, i: nat, s': ChainState,
                         r: Outcome)
    requires Inv(s) && n in s.status && n.parent.Some? && BranchClean(s, n)
    requires ReorganizedUpTo(s, ForkNode(s, n), Branch(s, n), check, reap, i, s', r)
    ensures Grows(s, s')
    ensures (r == RuleError ==> Tainted(s', n)) && (r == OtherError ==> !Tainted(s', n))
    ensures forall m :: m in Best(s) ==> StatusOf(s', m) == StatusOf(s, m)
  {
    hide Steady, Path, TreeOk, ForkLength, Passes, BestClean, LedgerOk, Linked, AllSound, Last, BranchClean;
    hide ValidSound, StoreOk, ForkNode, WellBuilt;
    TipFacts(s);
    BranchFacts(s, n);
    var attach := Branch(s, n);
    BestUntouched(s, attach, i, s', r);
    if r == OtherError {
      UntaintedBranch(s, s', n);
    } else if r == RuleError {
      assert attach[i] in attach;
      assert attach[i] in Path(n) && KnownInvalid(StatusOf(s', attach[i]));
    }
  }

  lemma ReorganizedTip(s: ChainState, n: BlockNode, check: Verdicts, reap: Verdicts, i: nat, s': ChainState, r: Outcome)
    requires Inv(s) && n in s.status && n.parent.Some?
    requires ReorganizedUpTo(s, ForkNode(s, n), Branch(s, n), check, reap, i, s', r)
    ensures i <= |Branch(s, n)| && s'.index == s.index && s'.tip == Last(ForkNode(s, n), Branch(s, n)[..i])
    ensures r == (if i < |Branch(s, n)| then reap(Branch(s, n)[i]) else Fine) && (r == Fine ==> s'.tip == n)
  {
    hide Inv, Path, Steady, Branch, Passes, AllSound, ReorgMark;
    InvFacts(s);
    BranchFacts(s, n);
    assert Branch(s, n)[..|Branch(s, n)|] == Branch(s, n);
  }

  /** Every block of the branch passes: the chain moves to the block, or as far as prefix checks allow. */
  lemma AttemptTakeover(s: ChainState, n: BlockNode, check: Verdicts, reap: Verdicts)
    requires Inv(s) && n in s.status && n.parent.Some? && BranchClean(s, n)
    requires forall m :: m in Branch(s, n) ==> Passes(s, m, check)
    ensures var (s', r) := Attempt(s, n, check, reap);
            var i := FirstRefused(Branch(s, n), reap);
            && Inv(s') && Grows(s, s') && s'.index == s.index
            && s'.tip == TakeoverTip(s, n, reap)
            && r == (if i < |Branch(s, n)| then reap(Branch(s, n)[i]) else Fine) == AttemptVerdict(s, n, check, reap)
            && (r == Fine ==> s'.tip == n)
            && (r == RuleError ==> Tainted(s', n)) && (r == OtherError ==> !Tainted(s', n))
            && (forall m :: m in Best(s) ==> StatusOf(s', m) == StatusOf(s, m))
  {
    hide Inv, Path, Sound, ForkLength, Passes, Attempt, FirstRefused, AttemptVerdict, AllSound, Grows, Tainted;
    hide BranchClean, Branch, ReorganizedUpTo;
    PassingVerdict(s, n, check, reap);
    AttemptReorganizes(s, n, check, reap);
    var i := FirstRefused(Branch(s, n), reap);
    var rr := Attempt(s, n, check, reap);
    ReorganizedMarks(s, n, check, reap, i, rr.0, rr.1);
    ReorganizedTip(s, n, check, reap, i, rr.0, rr.1);
  }

  /** No mark on the best chain, none on the branch: no mark on the way to the block. */
  lemma UntaintedBranch(s: ChainState, s': ChainState, n: BlockNode)
    requires Inv(s) && n in s.status && BranchClean(s, n) && s'.status.Keys == s.status.Keys
    requires forall m :: m in s.status ==> s'.status[m] <= s.status[m] + {Valid}
    ensures !Tainted(s', n)
  {
    hide Steady, Path, TreeOk, ForkLength, Branch;
    InvFacts(s);
    BranchFacts(s, n);
    PathKnown(s, n);
  }

  /**
    A block of the branch breaks a rule: it is marked as failed, those above it as having failed below, and
    nothing else moves.
  */
  lemma VerificationStops(s: ChainState, n: BlockNode, check: Verdicts, reap: Verdicts, i: nat)
    requires Inv(s) && n in s.status && n.parent.Some? && BranchClean(s, n) && i < |Branch(s, n)|
    requires forall j :: 0 <= j < i ==> Passes(s, Branch(s, n)[j], check)
    requires !Passes(s, Branch(s, n)[i], check) && VerdictOn(Branch(s, n)[i], check) == RuleError
    ensures var (s', r) := Attempt(s, n, check, reap);
            && r == RuleError && SameChain(s, s')
            && ValidateFailed in StatusOf(s', Branch(s, n)[i])
            && (forall j :: 0 <= j < i ==> KnownValid(StatusOf(s', Branch(s, n)[j])))
            && (forall j :: i < j < |Branch(s, n)| ==> InvalidAncestor in StatusOf(s', Branch(s, n)[j]))
  {
    hide Inv, Path, Reorganize, DownTo, TreeOk, ForkLength, Linked, Passes, Branch, VerdictOn, VerifiedUpTo;
    InvFacts(s);
    BranchFacts(s, n);
    var verified, k := ReorganizeKeepsInv(s, n, check, reap);
    var attach, r := Branch(s, n), Attempt(s, n, check, reap);
    assert attach[i] in attach;
    assert !verified;
    StoppedAt(s, attach, check, k, r.0, r.1, i);
    MarkedFrom(s, attach, check, k, r.0, r.1);
  }

  lemma StoppedAt(s: ChainState, attach: seq<BlockNode>, check: Verdicts, k: nat, s': ChainState, r: Outcome, i: nat)
    requires k < |attach| && VerifiedUpTo(s, attach, check, k, s', r)
    requires i < |attach| && !Passes(s, attach[i], check) && forall j :: 0 <= j < i ==> Passes(s, attach[j], check)
    ensures k == i && r == VerdictOn(attach[i], check) && SameChain(s, s')
  {
    hide Passes, Steady, Sound, VerdictOn, SameChain;
  }

  lemma MarkedFrom(s: ChainState, attach: seq<BlockNode>, check: Verdicts, k: nat, s': ChainState, r: Outcome)
    requires k < |attach| && VerifiedUpTo(s, attach, check, k, s', r) && r == RuleError && Known(s, attach)
    ensures ValidateFailed in StatusOf(s', attach[k])
    ensures forall j :: 0 <= j < k ==> KnownValid(StatusOf(s', attach[j]))
    ensures forall j :: k < j < |attach| ==> InvalidAncestor in StatusOf(s', attach[j])
  {
    hide Passes, Steady, Sound, VerdictOn;
    forall j | 0 <= j < |attach| ensures attach[j] in s.status && (j < k ==> attach[j] in attach[..k])
      ensures j > k ==> attach[j] in attach[k + 1..]
    {
      assert attach[j] in attach;
      assert j < k ==> attach[..k][j] == attach[j];
      assert j > k ==> attach[k + 1..][j - k - 1] == attach[j];
    }
  }

  /**
    The prefix check refuses a block whose turn has come: the chain stays on the block before it, with its
    own ledger.
  */
  lemma PrefixCheckStops(s: ChainState, n: BlockNode, check: Verdicts, reap: Verdicts)
    requires Inv(s) && n in s.status && n.parent.Some? && BranchClean(s, n)
    requires forall m :: m in Branch(s, n) ==> Passes(s, m, check)
    requires FirstRefused(Branch(s, n), reap) < |Branch(s, n)|
    ensures var (s', r) := Attempt(s, n, check, reap);
            var i := FirstRefused(Branch(s, n), reap);
            && r == reap(Branch(s, n)[i])
            && s'.tip == (if i == 0 then ForkNode(s, n) else Branch(s, n)[i - 1])
            && s'.utxo == Replay(s'.tip)
            && (r == RuleError ==> ValidateFailed in StatusOf(s', Branch(s, n)[i]))
  {
    hide Inv, Path, Attempt, Passes, Branch, ReorganizedUpTo, ForkNode, Replay, BranchClean;
    AttemptReorganizes(s, n, check, reap);
    var r := Attempt(s, n, check, reap);
    var i := FirstRefused(Branch(s, n), reap);
    BranchKnown(s, n);
    RefusedAt(s, ForkNode(s, n), Branch(s, n), check, reap, i, r.0, r.1);
    LedgerAt(r.0);
  }

  lemma BranchKnown(s: ChainState, n: BlockNode)
    requires Inv(s) && n in s.status
    ensures Known(s, Branch(s, n))
  {
    hide Inv, Path, Known, Branch;
    InvFacts(s);
    BranchFacts(s, n);
  }

  lemma LedgerAt(s: ChainState)
    requires Inv(s)
    ensures s.utxo == Replay(s.tip)
  {
    hide Inv, Steady;
    InvFacts(s);
    TipFacts(s);
  }

  lemma RefusedAt(s: ChainState, fork: BlockNode, attach: seq<BlockNode>, check: Verdicts, reap: Verdicts, i: nat,
                  s': ChainState, r: Outcome)
    requires Known(s, attach) && FirstRefused(attach, reap) < |attach|
    requires ReorganizedUpTo(s, fork, attach, check, reap, i, s', r)
    ensures i == FirstRefused(attach, reap) && r == reap(attach[i])
    ensures s'.tip == if i == 0 then fork else attach[i - 1]
    ensures r == RuleError ==> ValidateFailed in StatusOf(s', attach[i])
  {
    hide Passes, Steady, Sound, FirstRefused;
    assert i < |attach| ==> attach[i] in attach;
  }

  /** Some block of the branch does not pass: only flags change. */
  lemma AttemptFails(s: ChainState, n: BlockNode, check: Verdicts, reap: Verdicts)
    requires Inv(s) && n in s.status && n.parent.Some? && BranchClean(s, n)
    requires exists m :: m in Branch(s, n) && !Passes(s, m, check)
    ensures var (s', r) := Attempt(s, n, check, reap);
            && Inv(s') && Grows(s, s') && s'.index == s.index && s'.tip == s.tip && r != Fine
            && (r == RuleError ==> Tainted(s', n)) && (r == OtherError ==> !Tainted(s', n))
            && (r == OtherError <==> VerdictMissing(s, n, check)) && r == AttemptVerdict(s, n, check, reap)
  {
    hide Inv, Path, Reorganize, DownTo, ForkLength, Branch, Tainted, BranchClean, VerifiedUpTo, Grows, Passes;
    var verified, i := ReorganizeKeepsInv(s, n, check, reap);
    var r := Attempt(s, n, check, reap);
    assert !verified;
    StopsShort(s, n, check, i, r.0, r.1);
  }

  /** Verification that stopped: flags only grow, and the verdict says what happened to the block it stopped at. */
  lemma StopMarks(s: ChainState, attach: seq<BlockNode>, check: Verdicts, i: nat, s': ChainState, r: Outcome)
    requires i < |attach| && attach[i] in s.status && VerifiedUpTo(s, attach, check, i, s', r)
    ensures Grows(s, s') && s'.index == s.index && s'.tip == s.tip && r != Fine
    ensures r == RuleError ==> KnownInvalid(StatusOf(s', attach[i]))
    ensures r == OtherError <==> check(attach[i]) == OtherError
    ensures r == OtherError ==> forall m :: m in s.status ==> s'.status[m] <= s.status[m] + {Valid}
  {
    hide Path, Steady, Sound, Connectable, Replay;
    assert s'.status[attach[i]] == VerifyMark(s.status[attach[i]], attach[i], attach, i, r);
  }

  /** Verification that stopped below the end of the branch. */
  lemma StopsShort(s: ChainState, n: BlockNode, check: Verdicts, i: nat, s': ChainState, r: Outcome)
    requires Inv(s) && n in s.status && BranchClean(s, n) && i < |Branch(s, n)|
    requires VerifiedUpTo(s, Branch(s, n), check, i, s', r)
    ensures Grows(s, s') && s'.index == s.index && s'.tip == s.tip && r != Fine
    ensures r == RuleError ==> Tainted(s', n)
    ensures r == OtherError ==> !Tainted(s', n)
    ensures r == OtherError <==> VerdictMissing(s, n, check)
    ensures i == FirstFailing(s, Branch(s, n), check) && r == VerdictOn(Branch(s, n)[i], check)
  {
    hide Inv, Path, ForkLength, Branch, Tainted, BranchClean, VerifiedUpTo, TreeOk, BestClean, Steady, Linked;
    InvFacts(s);
    BranchFacts(s, n);
    var bad := Branch(s, n)[i];
    assert bad in Branch(s, n);
    StopMarks(s, Branch(s, n), check, i, s', r);
    StopsFirst(s, Branch(s, n), check, i, s', r);
    if r == OtherError {
      UntaintedBranch(s, s', n);
    } else {
      TaintedBy(s', n, bad);
    }
  }

  lemma StopsFirst(s: ChainState, attach: seq<BlockNode>, check: Verdicts, i: nat, s': ChainState, r: Outcome)
    requires i < |attach| && VerifiedUpTo(s, attach, check, i, s', r)
    ensures i == FirstFailing(s, attach, check) && r == VerdictOn(attach[i], check)
  {
    hide Passes, Steady, Sound, FirstFailing;
  }

  lemma TaintedBy(s: ChainState, n: BlockNode, m: BlockNode)
    requires m in Path(n) && KnownInvalid(StatusOf(s, m))
    ensures Tainted(s, n)
  {
    hide Path;
  }

  /** `connectBestChain` when the block does not extend the tip but has more work. */
  lemma SideBlockAttempts(s: ChainState, n: BlockNode, fast: bool, check: Verdicts, reap: Verdicts)
    requires Newcomer(s, n) && n.parent != Some(s.tip) && n.work > s.tip.work
    ensures BranchClean(s, n) ==>
      ConnectBest(s, n, fast, check, reap) ==
        (Flush(Attempt(s, n, check, reap).0), Attempt(s, n, check, reap).1 == Fine, Attempt(s, n, check, reap).1)
    ensures !BranchClean(s, n) ==>
      ConnectBest(s, n, fast, check, reap) == (Flush(ReorganizeNodes(s, n).0), true, Fine)
  {
    hide Steady, Path, Reorganize, ReorganizeNodes, DownTo, TreeOk, ForkLength, BestClean, Flush, BranchClean;
    TipFacts(s);
    PrevIsParent(s, n);
    ReorganizeNodesOutcome(s, n);
    NothingToReorganize(ReorganizeNodes(s, n).0, check, reap);
  }

  lemma TakeoverOutcome(s: ChainState, n: BlockNode, fast: bool, check: Verdicts, reap: Verdicts)
    requires Newcomer(s, n) && Takeover(s, n, check)
    ensures var (s', main, r) := ConnectBest(s, n, fast, check, reap);
            var i := FirstRefused(Branch(s, n), reap);
            && Inv(s') && Grows(s, s') && s'.index == s.index
            && s'.tip == TakeoverTip(s, n, reap) && main == (r == Fine)
            && r == (if i < |Branch(s, n)| then reap(Branch(s, n)[i]) else Fine) == AttemptVerdict(s, n, check, reap)
            && (r == Fine ==> s'.tip == n)
            && (r == RuleError ==> Tainted(s', n)) && (r == OtherError ==> !Tainted(s', n))
            && (forall m :: m in Best(s) ==> StatusOf(s', m) == StatusOf(s, m))
  {
    hide AttemptVerdict;
    hide Steady, Path, Attempt, Flush, BestClean, Passes, ConnectBest, BranchClean, ForkNode;
    SideBlockAttempts(s, n, fast, check, reap);
    AttemptTakeover(s, n, check, reap);
    FlushKeeps(Attempt(s, n, check, reap).0);
  }

  /** A block that neither extends the tip nor takes over leaves the best chain where it is. */
  lemma SideBlockOutcome(s: ChainState, n: BlockNode, fast: bool, check: Verdicts, reap: Verdicts)
    requires Newcomer(s, n) && n.parent != Some(s.tip) && !Takeover(s, n, check)
    ensures var (s', main, r) := ConnectBest(s, n, fast, check, reap);
            && Inv(s') && Grows(s, s') && s'.index == s.index && s'.tip == s.tip
            && (main <==> n.work > s.tip.work && !BranchClean(s, n))
            && (n.work > s.tip.work && r != OtherError ==> Tainted(s', n))
            && (r == OtherError ==> !Tainted(s', n))
            && (r == OtherError <==> n.work > s.tip.work && BranchClean(s, n) && VerdictMissing(s, n, check))
            && r == (if n.work > s.tip.work && BranchClean(s, n) then AttemptVerdict(s, n, check, reap) else Fine)
  {
    hide AttemptVerdict;
    hide Steady, Path, Attempt, Flush, BestClean, Passes, BranchClean, TreeOk, ReorganizeNodes, LedgerOk;
    hide ValidSound, StoreOk, VerdictMissing;
    TipFacts(s);
    PrevIsParent(s, n);
    if n.work > s.tip.work {
      SideBlockAttempts(s, n, fast, check, reap);
      if BranchClean(s, n) {
        AttemptFails(s, n, check, reap);
        FlushKeeps(Attempt(s, n, check, reap).0);
      } else {
        RefusedOutcome(s, n);
      }
    }
  }

  lemma RefusedOutcome(s: ChainState, n: BlockNode)
    requires Inv(s) && n in s.status && n.parent.Some? && !BranchClean(s, n)
    ensures var s' := Flush(ReorganizeNodes(s, n).0);
            Inv(s') && Grows(s, s') && s'.index == s.index && s'.tip == s.tip && Tainted(s', n)
  {
    hide Steady, Path, Flush, BranchClean, ReorganizeNodes;
    ReorganizeNodesOutcome(s, n);
    var s1 := ReorganizeNodes(s, n).0;
    FlushKeeps(s1);
    ParentInPath(n);
    forall m | m in Best(s1) ensures CleanNode(s1, m)
    {
      assert m in Best(s);
    }
  }

  lemma BestUntouched(s: ChainState, attach: seq<BlockNode>, i: nat, s': ChainState, r: Outcome)
    requires TreeOk(s) && s'.status.Keys == s.status.Keys
    requires forall m :: m in attach ==> m !in Best(s)
    requires forall m :: m in s.status ==> s'.status[m] == ReorgMark(s.status[m], m, attach, i, r)
    ensures forall m :: m in Best(s) ==> StatusOf(s', m) == StatusOf(s, m)
  {
    hide TreeOk, Path;
    TreeTip(s);
    PathKnown(s, s.tip);
    forall m | m in Best(s) ensures StatusOf(s', m) == StatusOf(s, m)
    {
      assert m in s.status && m !in attach;
      assert i < |attach| ==> attach[i] in attach;
    }
  }
}
