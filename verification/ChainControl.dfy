/** Invalidating and reconsidering blocks by hand. */
module ChainControl {
  import opened Base
  import opened BlockNodes
  import opened ChainModel
  import opened ChainInvariants
  import opened ChainReorg
  import opened ChainSelect
  import opened ChainAccept

  // ---------------------------------------------------------------------------
  // Inactive tips cover everything off the best chain

  lemma InactiveTipsOffBest(s: ChainState, t: BlockNode)
    requires TreeOk(s) && t in InactiveTips(s)
    ensures t in s.status && t !in Best(s) && t.parent.Some?
  {
    hide TreeOk, Path, WellBuilt;
    assert t in OffBest(s);
    OnBestIsOnPath(s, t);
    ParentInPathSelf(t);
    OffBestUpward(s, t, t);
  }

  lemma ParentInPathSelf(n: BlockNode)
    ensures n in Path(n)
  {
    assert Path(n)[|Path(n)| - 1] == n;
  }

  function Taller(s: ChainState, n: BlockNode): set<BlockNode>
  {
    set m | m in s.status && m.height > n.height
  }

  /** Every node off the best chain lies below some inactive tip. */
  lemma {:induction false} TipAbove(s: ChainState, n: BlockNode) returns (t: BlockNode)
    requires TreeOk(s) && n in s.status && n !in Best(s)
    ensures t in InactiveTips(s) && n in Path(t)
    decreases Taller(s, n)
  {
    hide TreeOk, WellBuilt;
    OnBestIsOnPath(s, n);
    assert n in OffBest(s);
    if n in InactiveTips(s) {
      t := n;
      ParentInPathSelf(n);
    } else {
      var c :| c in OffBest(s) && c.parent == Some(n);
      OnBestIsOnPath(s, c);
      ParentKnown(s, c);
      ChildTaller(c);
      assert c in Taller(s, n) && c !in Taller(s, c);
      assert Taller(s, c) <= Taller(s, n);
      t := TipAbove(s, c);
      PathsNest(s, n, c, t);
    }
  }

  lemma ChildTaller(c: BlockNode)
    requires WellBuilt(c) && c.parent.Some?
    ensures c.height == c.parent.value.height + 1
  {
    hide Path, WalkBack, AncestorHeight;
  }

  lemma PathsNest(s: ChainState, n: BlockNode, c: BlockNode, t: BlockNode)
    requires TreeOk(s) && c.parent == Some(n) && t in InactiveTips(s) && c in Path(t)
    ensures n in Path(t)
  {
    hide TreeOk, WellBuilt, Path;
    InactiveTipsOffBest(s, t);
    ParentKnown(s, t);
    ParentInPath(c);
    OnPathTransitive(n, c, t);
  }

  lemma CleanTip(s: ChainState)
    requires BestClean(s) && s.tip in s.status
    ensures !KnownInvalid(s.status[s.tip]) && !KnownInvalid(StatusOf(s, s.tip))
  {
    hide Path;
    ParentInPathSelf(s.tip);
    assert s.tip in Best(s);
  }

  /** The tip chosen is not known invalid, and no node without children that is not known invalid outweighs it. */
  lemma ChosenIsHeaviest(s: ChainState, t: BlockNode, m: BlockNode)
    requires Inv(s) && BestCandidate(s, t) && m in s.status && !KnownInvalid(StatusOf(s, m))
    requires forall c :: c in s.status ==> c.parent != Some(m)
    ensures t in s.status && !KnownInvalid(StatusOf(s, t)) && m.work <= t.work
  {
    hide Path, Steady, TreeOk, BestClean, WellBuilt, KnownInvalid;
    InvFacts(s);
    OnBestIsOnPath(s, m);
    if t in InactiveTips(s) {
      InactiveTipsOffBest(s, t);
    }
    if OnBest(s, m) {
      CleanTip(s);
      ParentKnown(s, s.tip);
      OnPathByHeight(m, s.tip);
      WorkMonotone(m, s.tip);
    } else {
      assert m in OffBest(s);
      assert m in InactiveTips(s);
    }
  }

  // ---------------------------------------------------------------------------
  // InvalidateBlock on a side branch

  lemma DescendantsOffBest(s: ChainState, n: BlockNode, m: BlockNode)
    requires TreeOk(s) && n in s.status && n !in Best(s) && (m == n || m in Descendants(s, n))
    ensures m in s.status && m !in Best(s)
  {
    hide TreeOk, WellBuilt, Path;
    if m != n {
      OffBestUpward(s, n, m);
    }
  }

  /** Changing flags off the best chain, without making anything valid, keeps the invariant. */
  lemma OffBestKeepsInv(s: ChainState, ns: set<BlockNode>, add: Status, remove: Status)
    requires Inv(s) && ns <= s.status.Keys && Valid !in add && forall m :: m in ns ==> m !in Best(s)
    ensures Inv(Restatus(s, ns, add, remove)) && SameChain(s, Restatus(s, ns, add, remove))
  {
    hide Steady, Path, Restatus, TreeOk, LedgerOk, ValidSound, StoreOk;
    TipFacts(s);
    PathKnown(s, s.tip);
    RestatusKeeps(s, ns, add, remove);
    var s' := Restatus(s, ns, add, remove);
    forall m | m in Best(s') ensures CleanNode(s', m)
    {
      assert m in Best(s) && m in s.status && m !in ns;
      RestatusAt(s, ns, add, remove, m);
    }
  }

  /** The state a side branch invalidation leaves. */
  function SideInvalidated(s: ChainState, n: BlockNode): ChainState
  {
    var s1 := Restatus(s, {n}, {ValidateFailed}, {Valid});
    Restatus(s1, NotInvalid(s1, Descendants(s1, n)), {InvalidAncestor}, {Valid})
  }

  lemma SameDescendants(s: ChainState, s': ChainState, n: BlockNode)
    requires s'.status.Keys == s.status.Keys
    ensures Descendants(s', n) == Descendants(s, n)
  {
    hide Path;
  }

  /** Invalidating a side branch block makes it and every descendant known invalid, and touches nothing else. */
  lemma SideInvalidation(s: ChainState, n: BlockNode)
    requires Inv(s) && n in s.status && n !in Best(s)
    ensures Inv(SideInvalidated(s, n)) && SameChain(s, SideInvalidated(s, n))
    ensures forall m :: m in s.status && n in Path(m) ==> KnownInvalid(StatusOf(SideInvalidated(s, n), m))
    ensures forall m :: m in s.status && n !in Path(m) ==> SideInvalidated(s, n).status[m] == s.status[m]
    ensures !KnownValid(StatusOf(SideInvalidated(s, n), n))
  {
    hide Steady, Path, Restatus, TreeOk, LedgerOk, ValidSound, StoreOk, BestClean;
    TipFacts(s);
    var s1 := Restatus(s, {n}, {ValidateFailed}, {Valid});
    OffBestKeepsInv(s, {n}, {ValidateFailed}, {Valid});
    SameDescendants(s, s1, n);
    var ns := NotInvalid(s1, Descendants(s1, n));
    forall m | m in ns ensures m !in Best(s1)
    {
      DescendantsOffBest(s, n, m);
    }
    OffBestKeepsInv(s1, ns, {InvalidAncestor}, {Valid});
    ParentInPathSelf(n);
    forall m | m in s.status
      ensures n in Path(m) ==> KnownInvalid(StatusOf(SideInvalidated(s, n), m))
      ensures n !in Path(m) ==> SideInvalidated(s, n).status[m] == s.status[m]
      ensures m == n ==> Valid !in SideInvalidated(s, n).status[m]
    {
      RestatusAt(s, {n}, {ValidateFailed}, {Valid}, m);
      RestatusAt(s1, ns, {InvalidAncestor}, {Valid}, m);
    }
  }

  // ---------------------------------------------------------------------------
  // InvalidateBlock on the best chain

  lemma {:induction false} SkipNothing(s: ChainState, ns: seq<BlockNode>)
    requires forall m :: m in ns ==> !KnownInvalid(StatusOf(s, m))
    ensures SkipInvalid(s, ns) == ns
    decreases |ns|
  {
    if ns != [] {
      SkipNothing(s, ns[1..]);
    }
  }

  /** The walk down the best chain: the nodes at a height or above. */
  lemma {:induction false} DownToMembers(s: ChainState, n: BlockNode, k: nat)
    requires TreeOk(s) && n in Best(s)
    ensures forall m :: m in DownTo(n, k) <==> m in Path(n) && m.height >= k
    decreases n
  {
    hide TreeOk;
    BestBelow(s, n);
    TreeTip(s);
    PathAt(s.tip, n.height);
    if n.height >= k && n.height > 0 {
      DownToMembers(s, n.parent.value, k);
    } else {
      forall m | m in Path(n) ensures m.height <= n.height { OnPathByHeight(m, n); }
    }
  }

  lemma {:induction false} DownToAppend(s: ChainState, t: BlockNode, n: BlockNode)
    requires TreeOk(s) && t in Best(s) && n in Best(s) && n.height <= t.height
    ensures DownTo(t, n.height) == DownTo(t, n.height + 1) + [n]
    decreases t
  {
    hide TreeOk, Path;
    BestBelow(s, t);
    BestBelow(s, n);
    if n.height < t.height {
      DownToAppend(s, t.parent.value, n);
      DownToSplit(t, n.height);
      DownToSplit(t, n.height + 1);
    } else {
      assert t == n;
      DownToSelf(s, n);
    }
  }

  lemma DownToSelf(s: ChainState, n: BlockNode)
    requires TreeOk(s) && n in Best(s)
    ensures DownTo(n, n.height) == [n] && DownTo(n, n.height + 1) == []
  {
    hide TreeOk, Path;
    BestBelow(s, n);
    if n.height == 0 {
      TreeTip(s);
      PathAt(s.tip, 0);
    }
  }

  /** The two marking rounds that precede the detach. */
  function MarkedAbove(s: ChainState, n: BlockNode): ChainState
  {
    var s1 := Restatus(s, {n}, {ValidateFailed}, {Valid});
    Restatus(s1, Nodes(DownTo(s.tip, n.height + 1)), {InvalidAncestor}, {Valid})
  }

  lemma MarkedAboveStatus(s: ChainState, n: BlockNode)
    requires Inv(s) && n in Best(s)
    ensures Steady(MarkedAbove(s, n)) && SameChain(s, MarkedAbove(s, n))
    ensures forall m :: m in s.status ==>
      MarkedAbove(s, n).status[m] ==
        if m == n then s.status[m] + {ValidateFailed} - {Valid}
        else if m in Best(s) && m.height > n.height then s.status[m] + {InvalidAncestor} - {Valid}
        else s.status[m]
  {
    hide Steady, Path, Restatus, TreeOk, LedgerOk, ValidSound, StoreOk, BestClean, DownTo;
    TipFacts(s);
    PathKnown(s, s.tip);
    ParentInPathSelf(s.tip);
    DownToMembers(s, s.tip, n.height + 1);
    var above := Nodes(DownTo(s.tip, n.height + 1));
    var s1 := Restatus(s, {n}, {ValidateFailed}, {Valid});
    RestatusKeeps(s, {n}, {ValidateFailed}, {Valid});
    RestatusKeeps(s1, above, {InvalidAncestor}, {Valid});
    forall m | m in s.status
      ensures MarkedAbove(s, n).status[m] ==
        if m == n then s.status[m] + {ValidateFailed} - {Valid}
        else if m in Best(s) && m.height > n.height then s.status[m] + {InvalidAncestor} - {Valid}
        else s.status[m]
    {
      RestatusAt(s, {n}, {ValidateFailed}, {Valid}, m);
      RestatusAt(s1, above, {InvalidAncestor}, {Valid}, m);
    }
  }

  /** The walk skips nothing, because no best chain node was known invalid. */
  lemma DetachListComplete(s: ChainState, n: BlockNode)
    requires Inv(s) && n in Best(s)
    ensures SkipInvalid(Restatus(s, {n}, {ValidateFailed}, {Valid}), DownTo(s.tip, n.height + 1)) ==
      DownTo(s.tip, n.height + 1)
    ensures DownTo(s.tip, n.height + 1) + [n] == DownTo(s.tip, n.height)
  {
    hide Steady, Path, Restatus, TreeOk, LedgerOk, ValidSound, StoreOk, DownTo, SkipInvalid;
    TipFacts(s);
    PathKnown(s, s.tip);
    ParentInPathSelf(s.tip);
    DownToMembers(s, s.tip, n.height + 1);
    BestBelow(s, n);
    BestBelow(s, s.tip);
    PathLength(s.tip);
    DownToAppend(s, s.tip, n);
    var s1 := Restatus(s, {n}, {ValidateFailed}, {Valid});
    forall m | m in DownTo(s.tip, n.height + 1) ensures !KnownInvalid(StatusOf(s1, m))
    {
      assert m in Best(s);
      RestatusAt(s, {n}, {ValidateFailed}, {Valid}, m);
    }
    SkipNothing(s1, DownTo(s.tip, n.height + 1));
  }

  /** Invalidating a best chain block detaches it and everything above it. */
  lemma InvalidateDetaches(s: ChainState, n: BlockNode, check: Verdicts, reap: Verdicts)
    requires Inv(s) && n in Best(s) && n.height > 0
    ensures var (s', r) := InvalidateDetach(s, n, check, reap);
            && r == Fine && Inv(s') && s'.index == s.index && Some(s'.tip) == n.parent
            && s'.status == MarkedAbove(s, n).status
  {
    hide Steady, Path, Restatus, TreeOk, LedgerOk, ValidSound, StoreOk, DownTo, SkipInvalid, Reorganize;
    hide Flush, MarkedAbove;
    TipFacts(s);
    DetachListComplete(s, n);
    MarkedAboveStatus(s, n);
    BestBelow(s, n);
    var k, s2 := n.height, MarkedAbove(s, n);
    InvalidateDetachIs(s, n, check, reap);
    var verified, i := ReorganizeOutcome(s2, k, [], check, reap);
    var r := Reorganize(s2, DownTo(s.tip, k), [], check, reap);
    assert verified;
    DetachedClean(s, n, s2, check, reap, i, r.0, r.1);
    FlushKeeps(r.0);
  }

  lemma InvalidateDetachIs(s: ChainState, n: BlockNode, check: Verdicts, reap: Verdicts)
    requires Inv(s) && n in Best(s)
    ensures InvalidateDetach(s, n, check, reap) ==
            (var (s3, r) := Reorganize(MarkedAbove(s, n), DownTo(s.tip, n.height), [], check, reap);
             if r != Fine then (s3, r) else (Flush(s3), Fine))
  {
    hide Steady, Path, Restatus, DownTo, SkipInvalid, Reorganize, Flush, BestClean;
    DetachListComplete(s, n);
  }

  lemma DetachedClean(s: ChainState, n: BlockNode, s2: ChainState, check: Verdicts, reap: Verdicts, i: nat,
          s': ChainState, r: Outcome)
    requires Inv(s) && n in Best(s) && n.height > 0 && s2 == MarkedAbove(s, n) && n.height <= |Best(s)|
    requires ReorganizedUpTo(s2, Best(s)[n.height - 1], [], check, reap, i, s', r)
    ensures BestClean(s') && s'.status == s2.status && Some(s'.tip) == n.parent
  {
    hide Steady, Path, TreeOk, LedgerOk, ValidSound, StoreOk, MarkedAbove, Passes, BestClean;
    TipFacts(s);
    MarkedAboveStatus(s, n);
    TipFacts(s2);
    BelowClean(s, n);
    ParentOnBest(s, n);
    ReorganizedClean(s2, n.height, [], check, reap, i, s', r);
    StatusesEqual(s2, s', i, r);
  }

  lemma ParentOnBest(s: ChainState, n: BlockNode)
    requires TreeOk(s) && n in Best(s) && n.height > 0
    ensures n.height < |Best(s)| && n.parent == Some(Best(s)[n.height - 1])
  {
    hide TreeOk, Path, WellBuilt;
    TreeTip(s);
    BestBelow(s, n);
    PathAt(s.tip, n.height);
  }

  /** Marking from `n` up leaves the best chain below it clean. */
  lemma BelowClean(s: ChainState, n: BlockNode)
    requires Inv(s) && n in Best(s)
    ensures n.height < |Best(s)| && Best(MarkedAbove(s, n)) == Best(s)
    ensures forall j :: 0 <= j < n.height ==> CleanNode(MarkedAbove(s, n), Best(s)[j])
  {
    hide Steady, Path, TreeOk, LedgerOk, ValidSound, StoreOk, MarkedAbove, WellBuilt;
    TipFacts(s);
    MarkedAboveStatus(s, n);
    BestBelow(s, n);
    PathKnown(s, s.tip);
    forall j | 0 <= j < n.height ensures CleanNode(MarkedAbove(s, n), Best(s)[j])
    {
      PathAt(s.tip, j);
      assert Best(s)[j] in Best(s);
    }
  }

  lemma StatusesEqual(s: ChainState, s': ChainState, i: nat, r: Outcome)
    requires s'.status.Keys == s.status.Keys
    requires forall m :: m in s.status ==> s'.status[m] == ReorgMark(s.status[m], m, [], i, r)
    ensures s'.status == s.status
  {
  }

  /**
    Which nodes are known invalid once a best chain block has been detached: best chain nodes from it up,
    and those that were before.
  */
  lemma DetachMarksExactly(s: ChainState, n: BlockNode, check: Verdicts, reap: Verdicts, m: BlockNode)
    requires Inv(s) && n in Best(s) && n.height > 0 && m in s.status
    ensures KnownInvalid(StatusOf(InvalidateDetach(s, n, check, reap).0, m)) <==>
            KnownInvalid(s.status[m]) || (m in Best(s) && n in Path(m))
  {
    hide Steady, Path, TreeOk, LedgerOk, ValidSound, StoreOk, InvalidateDetach, MarkedAbove, BestClean;
    TipFacts(s);
    InvalidateDetaches(s, n, check, reap);
    MarkedAboveStatus(s, n);
    ParentKnown(s, m);
    OnPathByHeight(n, m);
    ParentInPathSelf(n);
    if m in Best(s) && n.height < m.height {
      OnPathLinear(n, m, s.tip);
    }
    if m in Best(s) && n in Path(m) && m != n {
      BestBelow(s, m);
      BestBelow(s, n);
    }
  }

  // ---------------------------------------------------------------------------
  // Where the chain ends up

  /** The branch of `t` shows no invalid block and every block of it passes verification. */
  ghost predicate Viable(s: ChainState, t: BlockNode, check: Verdicts)
  {
    BranchClean(s, t) && forall m :: m in Branch(s, t) ==> Passes(s, m, check)
  }

  /** After detaching, the chain goes to the candidate if its branch is viable, and otherwise stays. */
  lemma SwitchOutcome(s: ChainState, t: BlockNode, check: Verdicts, reap: Verdicts)
    requires Inv(s) && t in InactiveTips(s)
    ensures SwitchTo(s, t, check, reap).0.tip == if Viable(s, t, check) then TakeoverTip(s, t, reap) else s.tip
    ensures SwitchTo(s, t, check, reap).1 == if BranchClean(s, t) then AttemptVerdict(s, t, check, reap) else Fine
  {
    hide AttemptVerdict;
    hide Steady, Path, Attempt, ReorganizeNodes, Flush, BestClean, TreeOk, LedgerOk, ValidSound, StoreOk, InactiveTips;
    hide BranchClean, Passes, TakeoverTip;
    TipFacts(s);
    InactiveTipsOffBest(s, t);
    ParentInPathSelf(s.tip);
    SwitchIsAttempt(s, t, check, reap);
    if BranchClean(s, t) {
      if forall m :: m in Branch(s, t) ==> Passes(s, m, check) {
        AttemptTakeover(s, t, check, reap);
      } else {
        AttemptFails(s, t, check, reap);
      }
      FlushFields(Attempt(s, t, check, reap).0);
    } else {
      RefusedOutcome(s, t);
    }
  }

  lemma SwitchIsAttempt(s: ChainState, t: BlockNode, check: Verdicts, reap: Verdicts)
    requires Inv(s) && t in s.status && t.parent.Some? && t != s.tip
    ensures SwitchTo(s, t, check, reap) ==
      if BranchClean(s, t) then (Flush(Attempt(s, t, check, reap).0), Attempt(s, t, check, reap).1)
      else (Flush(ReorganizeNodes(s, t).0), Fine)
  {
    hide Steady, Path, Reorganize, ReorganizeNodes, Flush, BestClean, BranchClean, DownTo, ForkLength;
    ReorganizeNodesOutcome(s, t);
    NothingToReorganize(ReorganizeNodes(s, t).0, check, reap);
  }

  // ---------------------------------------------------------------------------
  // Which descendants a best chain invalidation marks

  /** On the way to `t` nothing from `m` up is known invalid. */
  ghost predicate ClearUpTo(s: ChainState, t: BlockNode, m: BlockNode)
  {
    m in Path(t) && forall x :: x in Path(t) && m in Path(x) ==> !KnownInvalid(StatusOf(s, x))
  }

  lemma CleanFrom(s: ChainState, ns: seq<BlockNode>, i: nat)
    requires i < |ns|
    ensures i + |CleanSuffix(s, ns)| >= |ns| <==> forall j :: i <= j < |ns| ==> !KnownInvalid(StatusOf(s, ns[j]))
  {
    hide CleanSuffix, KnownInvalid;
    CleanSuffixFacts(s, ns);
    var clean := CleanSuffix(s, ns);
    forall j | |ns| - |clean| <= j < |ns| ensures !KnownInvalid(StatusOf(s, ns[j]))
    {
      assert clean[j - (|ns| - |clean|)] == ns[j];
    }
  }

  lemma BranchAt(s: ChainState, t: BlockNode, j: nat)
    requires WellBuilt(t) && j < |Branch(s, t)|
    ensures Branch(s, t)[j].height == ForkLength(s, t) + j && Branch(s, t)[j] in Path(t)
  {
    hide Path, WellBuilt, CommonLength;
    PathAt(t, ForkLength(s, t) + j);
  }

  lemma CleanIndex(s: ChainState, t: BlockNode, i: nat)
    requires WellBuilt(t) && i < |Branch(s, t)|
    ensures Branch(s, t)[i] in CleanSuffix(s, Branch(s, t)) <==>
            i + |CleanSuffix(s, Branch(s, t))| >= |Branch(s, t)|
  {
    hide Path, WellBuilt, ForkLength, CleanSuffix, Branch;
    var branch, clean := Branch(s, t), CleanSuffix(s, Branch(s, t));
    var low := |branch| - |clean|;
    if i >= low {
      assert clean[i - low] == branch[i];
    } else if branch[i] in clean {
      var j :| 0 <= j < |clean| && clean[j] == branch[i];
      BranchAt(s, t, i);
      BranchAt(s, t, low + j);
    }
  }

  lemma ClearByIndex(s: ChainState, t: BlockNode, i: nat)
    requires WellBuilt(t) && i < |Branch(s, t)|
    ensures ClearUpTo(s, t, Branch(s, t)[i]) <==>
            forall j :: i <= j < |Branch(s, t)| ==> !KnownInvalid(StatusOf(s, Branch(s, t)[j]))
  {
    hide Path, WellBuilt, ForkLength, KnownInvalid, Branch;
    var k, branch, m := ForkLength(s, t), Branch(s, t), Branch(s, t)[i];
    BranchAt(s, t, i);
    if ClearUpTo(s, t, m) {
      forall j | i <= j < |branch| ensures !KnownInvalid(StatusOf(s, branch[j]))
      {
        BranchAt(s, t, j);
        OnPathLinear(m, branch[j], t);
      }
    } else {
      var x :| x in Path(t) && m in Path(x) && KnownInvalid(StatusOf(s, x));
      HigherOnPath(m, x, t);
      OnBranch(s, t, x.height);
      assert branch[x.height - k] == x;
    }
  }

  lemma OnBranch(s: ChainState, t: BlockNode, h: nat)
    requires ForkLength(s, t) <= h < |Path(t)|
    ensures h - ForkLength(s, t) < |Branch(s, t)| && Branch(s, t)[h - ForkLength(s, t)] == Path(t)[h]
  {
    hide Path, ForkLength;
  }

  /** The clean suffix of a branch is what is clear up to its tip. */
  lemma CleanSuffixIsClear(s: ChainState, t: BlockNode, m: BlockNode)
    requires TreeOk(s) && t in s.status && m in Branch(s, t)
    ensures m in CleanSuffix(s, Branch(s, t)) <==> ClearUpTo(s, t, m)
  {
    hide TreeOk, Path, WellBuilt, CleanSuffix, KnownInvalid, Branch, ClearUpTo;
    ParentKnown(s, t);
    var i :| 0 <= i < |Branch(s, t)| && Branch(s, t)[i] == m;
    CleanFrom(s, Branch(s, t), i);
    CleanIndex(s, t, i);
    ClearByIndex(s, t, i);
  }

  lemma HigherOnPath(m: BlockNode, x: BlockNode, t: BlockNode)
    requires WellBuilt(t) && x in Path(t) && m in Path(x)
    ensures m.height <= x.height < |Path(t)| && Path(t)[x.height] == x
  {
    hide Path, WellBuilt;
    OnPathByHeight(x, t);
    PathAt(t, x.height);
    OnPathByHeight(m, x);
  }

  /** Refusing a branch whose tip is not known invalid marks its clean suffix. */
  lemma RefusedMarks(s: ChainState, t: BlockNode)
    requires Inv(s) && t in s.status && t.parent.Some? && t !in Best(s) && !BranchClean(s, t)
    requires !KnownInvalid(s.status[t])
    ensures ReorganizeNodes(s, t).0 == Restatus(s, Nodes(CleanSuffix(s, Branch(s, t))), {InvalidAncestor}, {})
  {
    hide Inv, Path, Restatus, ForkLength, CleanSuffix, KnownInvalid, BestClean, BranchClean, TreeOk;
    InvFacts(s);
    var p, branch := t.parent.value, Branch(s, t);
    if KnownInvalid(StatusOf(s, p)) {
      if p in Best(s) { CleanBest(s, p); }
      ParentBefore(s, t);
      OnlyLastClean(s, branch);
      assert Nodes([t]) == {t};
    } else {
      DirtyBranch(s, t);
    }
  }

  lemma DirtyBranch(s: ChainState, t: BlockNode)
    requires t.parent.Some? && !BranchClean(s, t) && !KnownInvalid(StatusOf(s, t.parent.value))
    ensures |CleanSuffix(s, Branch(s, t))| < |Branch(s, t)|
  {
    hide Path, ForkLength, CleanSuffix, Branch;
    CleanSuffixFacts(s, Branch(s, t));
    assert |CleanSuffix(s, Branch(s, t))| == |Branch(s, t)| ==> CleanSuffix(s, Branch(s, t)) == Branch(s, t);
  }

  lemma OnlyLastClean(s: ChainState, ns: seq<BlockNode>)
    requires |ns| >= 2 && !KnownInvalid(StatusOf(s, ns[|ns| - 1])) && KnownInvalid(StatusOf(s, ns[|ns| - 2]))
    ensures CleanSuffix(s, ns) == [ns[|ns| - 1]]
  {
    var front := ns[..|ns| - 1];
    assert front[|front| - 1] == ns[|ns| - 2];
    assert CleanSuffix(s, front) == [];
  }

  lemma CleanBest(s: ChainState, m: BlockNode)
    requires BestClean(s) && m in Best(s)
    ensures !KnownInvalid(StatusOf(s, m)) && KnownValid(StatusOf(s, m))
  {
    hide Path;
  }

  lemma ParentBefore(s: ChainState, t: BlockNode)
    requires TreeOk(s) && t in s.status && t.parent.Some? && t !in Best(s) && t.parent.value !in Best(s)
    ensures var b := Branch(s, t); |b| >= 2 && b[|b| - 1] == t && b[|b| - 2] == t.parent.value
  {
    hide TreeOk, ForkLength;
    BranchFacts(s, t);
    ParentInPath(t);
    assert t in Branch(s, t) && t.parent.value in Branch(s, t);
    assert Path(t) == Path(t.parent.value) + [t];
  }

  lemma RefusedTouchesBranch(s: ChainState, t: BlockNode, m: BlockNode)
    requires TreeOk(s) && BestClean(s) && t in s.status && t !in Best(s) && t.parent.Some? && !BranchClean(s, t)
    requires m in s.status && m !in Branch(s, t)
    ensures StatusOf(ReorganizeNodes(s, t).0, m) == s.status[m]
  {
    hide TreeOk, Path, Restatus, CleanSuffix, BestClean, BranchClean, CommonLength;
    BranchFacts(s, t);
    ParentInPathSelf(t);
    var clean := CleanSuffix(s, Branch(s, t));
    CleanSuffixFacts(s, Branch(s, t));
    RestatusAt(s, {t}, {InvalidAncestor}, {}, m);
    RestatusAt(s, Nodes(clean), {InvalidAncestor}, {}, m);
  }

  /** Switching to a tip changes flags on its branch only. */
  lemma SwitchTouchesBranch(s: ChainState, t: BlockNode, check: Verdicts, reap: Verdicts, m: BlockNode)
    requires Inv(s) && t in InactiveTips(s) && m in s.status && m !in Branch(s, t)
    ensures StatusOf(SwitchTo(s, t, check, reap).0, m) == s.status[m]
  {
    hide Inv, Path, Attempt, ReorganizeNodes, Flush, InactiveTips, BranchClean, SwitchTo, Branch, BestClean;
    InvFacts(s);
    InactiveTipsOffBest(s, t);
    ParentInPathSelf(s.tip);
    SwitchIsAttempt(s, t, check, reap);
    if BranchClean(s, t) {
      AttemptTouchesBranch(s, t, check, reap, m);
      FlushFields(Attempt(s, t, check, reap).0);
    } else {
      RefusedTouchesBranch(s, t, m);
      FlushFields(ReorganizeNodes(s, t).0);
    }
  }

  lemma AttemptTouchesBranch(s: ChainState, t: BlockNode, check: Verdicts, reap: Verdicts, m: BlockNode)
    requires Inv(s) && t in s.status && t.parent.Some? && BranchClean(s, t) && m in s.status && m !in Branch(s, t)
    ensures StatusOf(Attempt(s, t, check, reap).0, m) == s.status[m]
  {
    hide Inv, Path, Reorganize, BranchClean, Branch, Steady, Passes, ForkNode, DownTo, ForkLength;
    var verified, i := ReorganizeKeepsInv(s, t, check, reap);
    var attach, r := Branch(s, t), Attempt(s, t, check, reap);
    if verified {
      assert r.0.status[m] == ReorgMark(s.status[m], m, attach, i, r.1);
    } else {
      assert r.0.status[m] == VerifyMark(s.status[m], m, attach, i, r.1);
    }
  }

  /** A block on the way to an inactive tip has been invalidated: the switch is refused, and marks what is clear. */
  lemma SwitchMarks(s: ChainState, t: BlockNode, n: BlockNode, check: Verdicts, reap: Verdicts, m: BlockNode)
    requires Inv(s) && t in InactiveTips(s) && !KnownInvalid(StatusOf(s, t))
    requires n in Path(t) && KnownInvalid(StatusOf(s, n)) && m in s.status && m !in Best(s)
    ensures KnownInvalid(StatusOf(SwitchTo(s, t, check, reap).0, m)) <==>
            KnownInvalid(s.status[m]) || ClearUpTo(s, t, m)
  {
    hide Inv, Path, ReorganizeNodes, Flush, InactiveTips, SwitchTo, Restatus, Branch, ClearUpTo, BestClean;
    InvFacts(s);
    InactiveTipsOffBest(s, t);
    ParentInPathSelf(s.tip);
    BranchFacts(s, t);
    if n in Best(s) { CleanBest(s, n); }
    assert n in Branch(s, t);
    assert !BranchClean(s, t);
    SwitchIsAttempt(s, t, check, reap);
    RefusedMarks(s, t);
    FlushFields(ReorganizeNodes(s, t).0);
    var clean := CleanSuffix(s, Branch(s, t));
    CleanSuffixFacts(s, Branch(s, t));
    RestatusAt(s, Nodes(clean), {InvalidAncestor}, {}, m);
    if m in Branch(s, t) {
      CleanSuffixIsClear(s, t, m);
    } else {
      NotOnPathNotClear(s, t, m);
    }
  }

  lemma NotOnPathNotClear(s: ChainState, t: BlockNode, m: BlockNode)
    ensures ClearUpTo(s, t, m) ==> m in Path(t)
  {
  }

  /** Off the old best chain, detaching makes no difference to what is clear. */
  lemma ClearBefore(s: ChainState, n: BlockNode, check: Verdicts, reap: Verdicts, t: BlockNode, m: BlockNode)
    requires Inv(s) && n in Best(s) && n.height > 0 && t in s.status && m in s.status && m !in Best(s)
    ensures ClearUpTo(InvalidateDetach(s, n, check, reap).0, t, m) <==> ClearUpTo(s, t, m)
  {
    hide Inv, Path, InvalidateDetach;
    InvFacts(s);
    PathKnown(s, t);
    forall x | x in Path(t) && m in Path(x)
      ensures KnownInvalid(StatusOf(InvalidateDetach(s, n, check, reap).0, x)) <==> KnownInvalid(StatusOf(s, x))
    {
      OffBestUpward(s, m, x);
      DetachMarksExactly(s, n, check, reap, x);
    }
  }

  /**
    Which descendants of an invalidated best chain block are known invalid in the end: those of the best
    chain, those that were, and those on the way to the tip chosen next with nothing invalid in between.
  */
  lemma InvalidateMarksExactly(s: ChainState, hash: Hash, t: BlockNode, check: Verdicts, reap: Verdicts, m: BlockNode)
    requires Inv(s) && hash in s.index && s.index[hash].height > 0 && s.index[hash] in Best(s)
    requires BestCandidate(InvalidateDetach(s, s.index[hash], check, reap).0, t)
    requires m in Descendants(s, s.index[hash])
    ensures KnownInvalid(StatusOf(InvalidateBlock(s, hash, t, check, reap).0, m)) <==>
            KnownInvalid(s.status[m]) || m in Best(s) || ClearUpTo(s, t, m)
  {
    hide Inv, Path, InvalidateDetach, SwitchTo, ClearUpTo, InactiveTips, Branch, WellBuilt, BestClean, TreeOk;
    hide InvalidateBlock, KnownInvalid;
    var n := s.index[hash];
    var s1 := InvalidateDetach(s, n, check, reap).0;
    InvalidateSwitches(s, hash, t, check, reap);
    InvFacts(s);
    InvFacts(s1);
    StillKnown(s, n, check, reap);
    DetachMarksExactly(s, n, check, reap, m);
    AboveDetached(s, n, s1, m);
    if t == s1.tip {
      NotOnPathNotClear(s, t, m);
    } else {
      InactiveTipsOffBest(s1, t);
      if n in Path(t) {
        ParentInPathSelf(n);
        DetachMarksExactly(s, n, check, reap, n);
        SwitchMarks(s1, t, n, check, reap, m);
        if m !in Best(s) { ClearBefore(s, n, check, reap, t, m); }
      } else {
        ParentKnown(s1, t);
        if m in Path(t) { OnPathTransitive(n, m, t); }
        NotOnPathNotClear(s, t, m);
        BranchFacts(s1, t);
        SwitchTouchesBranch(s1, t, check, reap, m);
      }
    }
  }

  lemma InvalidateSwitches(s: ChainState, hash: Hash, t: BlockNode, check: Verdicts, reap: Verdicts)
    requires Inv(s) && hash in s.index && s.index[hash].height > 0 && s.index[hash] in Best(s)
    ensures var s1 := InvalidateDetach(s, s.index[hash], check, reap).0;
            && Inv(s1) && s.index[hash].parent == Some(s1.tip)
            && InvalidateBlock(s, hash, t, check, reap) == SwitchTo(s1, t, check, reap)
            && (t == s1.tip ==> SwitchTo(s1, t, check, reap).0 == s1)
  {
    hide Inv, Path, InvalidateDetach, Reorganize, ReorganizeNodes, Flush, BestClean, MarkedAbove;
    InvFacts(s);
    CleanBest(s, s.index[hash]);
    OnBestIsOnPath(s, s.index[hash]);
    InvalidateDetaches(s, s.index[hash], check, reap);
  }

  lemma StillKnown(s: ChainState, n: BlockNode, check: Verdicts, reap: Verdicts)
    requires Inv(s) && n in Best(s) && n.height > 0
    ensures InvalidateDetach(s, n, check, reap).0.status.Keys == s.status.Keys && n in s.status
  {
    hide Inv, Path, InvalidateDetach, MarkedAbove;
    InvFacts(s);
    PathKnown(s, s.tip);
    InvalidateDetaches(s, n, check, reap);
    MarkedAboveStatus(s, n);
  }

  /** Nothing above the detached block is on the new best chain. */
  lemma AboveDetached(s: ChainState, n: BlockNode, s1: ChainState, m: BlockNode)
    requires TreeOk(s) && TreeOk(s1) && n in Best(s) && n.height > 0 && n.parent == Some(s1.tip)
    requires m in s.status && n in Path(m)
    ensures m !in Best(s1)
  {
    hide TreeOk, Path, WellBuilt;
    TreeTip(s1);
    BestBelow(s, n);
    ParentKnown(s, m);
    OnPathByHeight(n, m);
    OnPathByHeight(m, s1.tip);
  }

  /**
    The documented promise, about the whole call: all descendants end up known invalid exactly when the
    unmarked ones off the best chain all lie, with nothing invalid in between, on the way to the one tip
    chosen next.
  */
  lemma DescendantsInvalidIff(s: ChainState, hash: Hash, t: BlockNode, check: Verdicts, reap: Verdicts)
    requires Inv(s) && hash in s.index && s.index[hash].height > 0 && s.index[hash] in Best(s)
    requires BestCandidate(InvalidateDetach(s, s.index[hash], check, reap).0, t)
    ensures (forall m :: m in Descendants(s, s.index[hash]) ==>
               KnownInvalid(StatusOf(InvalidateBlock(s, hash, t, check, reap).0, m)))
            <==>
            (forall m :: m in Descendants(s, s.index[hash]) && m !in Best(s) && !KnownInvalid(s.status[m]) ==>
               ClearUpTo(s, t, m))
  {
    hide Inv, Path, InvalidateDetach, InvalidateBlock, ClearUpTo, BestCandidate;
    var n := s.index[hash];
    forall m | m in Descendants(s, n)
      ensures KnownInvalid(StatusOf(InvalidateBlock(s, hash, t, check, reap).0, m)) <==>
        KnownInvalid(s.status[m]) || m in Best(s) || ClearUpTo(s, t, m)
    {
      InvalidateMarksExactly(s, hash, t, check, reap, m);
    }
  }

  // ---------------------------------------------------------------------------
  // ReconsiderBlock

  /** The flags that are cleared, node by node. */
  lemma ClearMarksExactly(s: ChainState, n: BlockNode, m: BlockNode)
    requires m in s.status
    ensures m in ClearMarks(s, n).status
    ensures ClearMarks(s, n).status[m] ==
      if m == n then s.status[m] - {InvalidAncestor, ValidateFailed}
      else if n in Path(m) then s.status[m] - {InvalidAncestor}
      else s.status[m]
  {
    hide Path, Restatus;
    var s1 := Restatus(s, {n}, {}, {InvalidAncestor, ValidateFailed});
    RestatusAt(s, {n}, {}, {InvalidAncestor, ValidateFailed}, m);
    RestatusAt(s1, Descendants(s, n), {}, {InvalidAncestor}, m);
  }

  /** Clearing after a side branch invalidation, node by node. */
  lemma ClearMarksUndo(s: ChainState, n: BlockNode, m: BlockNode)
    requires m in s.status && n in s.status && !KnownInvalid(s.status[n])
    ensures m in SideInvalidated(s, n).status && m in ClearMarks(SideInvalidated(s, n), n).status
    ensures ClearMarks(SideInvalidated(s, n), n).status[m] ==
      if n !in Path(m) then s.status[m]
      else if KnownInvalid(s.status[m]) then s.status[m] - {InvalidAncestor}
      else s.status[m] - {Valid}
  {
    hide Path, Restatus, ClearMarks;
    var s1 := Restatus(s, {n}, {ValidateFailed}, {Valid});
    var ns := NotInvalid(s1, Descendants(s1, n));
    RestatusAt(s, {n}, {ValidateFailed}, {Valid}, m);
    RestatusAt(s1, ns, {InvalidAncestor}, {Valid}, m);
    ClearMarksExactly(SideInvalidated(s, n), n, m);
    ParentInPathSelf(n);
  }
}
