/** Choosing a branch, and what accepting a block keeps. */
module ChainSelect {
  import opened Base
  import opened BlockNodes
  import opened Ledger
  import opened ChainModel
  import opened ChainInvariants
  import opened ChainReorg

  // ---------------------------------------------------------------------------
  // The fork point

  /** The nodes of the branch of `n` above the fork. */
  function Branch(s: ChainState, n: BlockNode): seq<BlockNode>
  {
    Path(n)[ForkLength(s, n)..]
  }

  /** The last node the best chain and the branch of `n` share. */
  function ForkNode(s: ChainState, n: BlockNode): BlockNode
  {
    if ForkLength(s, n) == 0 then s.genesis else Best(s)[ForkLength(s, n) - 1]
  }

  lemma ForkAtLeastGenesis(s: ChainState, n: BlockNode)
    requires TreeOk(s) && n in s.status
    ensures ForkLength(s, n) >= 1
  {
    hide TreeOk, Path;
    TreeTip(s);
    PathKnown(s, n);
    PathKnown(s, s.tip);
  }

  /** Above the fork the branch never meets the best chain again. */
  lemma BranchOffBest(s: ChainState, n: BlockNode, i: nat)
    requires TreeOk(s) && n in s.status && ForkLength(s, n) <= i < |Path(n)|
    ensures Path(n)[i] !in Best(s)
  {
    hide TreeOk, Path, WellBuilt, CommonLength;
    var m := Path(n)[i];
    ParentKnown(s, n);
    PathAt(n, i);
    if m in Best(s) {
      TreeTip(s);
      OnPathByHeight(m, s.tip);
      PathAt(s.tip, i);
    }
  }

  lemma BranchLinked(s: ChainState, n: BlockNode)
    requires TreeOk(s) && n in s.status
    ensures 1 <= ForkLength(s, n) <= |Best(s)|
    ensures ForkNode(s, n) == Best(s)[ForkLength(s, n) - 1] && ForkNode(s, n) in Path(n)
    ensures Linked(ForkNode(s, n), Branch(s, n))
    ensures Last(ForkNode(s, n), Branch(s, n)) == n
  {
    hide TreeOk, Path, WellBuilt, CommonLength;
    var k := ForkLength(s, n);
    ForkAtLeastGenesis(s, n);
    ParentKnown(s, n);
    PathLinked(n, k);
    assert Best(s)[k - 1] == Best(s)[..k][k - 1] == Path(n)[..k][k - 1] == Path(n)[k - 1];
  }

  lemma BranchMembers(s: ChainState, n: BlockNode, m: BlockNode)
    requires TreeOk(s) && n in s.status && m in Path(n)
    ensures m in Branch(s, n) <==> m !in Best(s)
  {
    hide TreeOk, Path, WellBuilt, CommonLength;
    var k := ForkLength(s, n);
    var i :| 0 <= i < |Path(n)| && Path(n)[i] == m;
    if i < k {
      assert m == Path(n)[..k][i] == Best(s)[..k][i] == Best(s)[i];
      if m in Branch(s, n) {
        var j :| 0 <= j < |Branch(s, n)| && Branch(s, n)[j] == m;
        BranchOffBest(s, n, k + j);
      }
    } else {
      assert m == Branch(s, n)[i - k];
      BranchOffBest(s, n, i);
    }
  }

  lemma BranchFacts(s: ChainState, n: BlockNode)
    requires TreeOk(s) && n in s.status
    ensures 1 <= ForkLength(s, n) <= |Best(s)|
    ensures ForkNode(s, n) == Best(s)[ForkLength(s, n) - 1] && ForkNode(s, n) in Path(n)
    ensures Linked(ForkNode(s, n), Branch(s, n)) && Last(ForkNode(s, n), Branch(s, n)) == n
    ensures Known(s, Branch(s, n))
    ensures forall m :: m in Branch(s, n) ==> m in Path(n) && m !in Best(s)
    ensures forall m :: m in Path(n) && m !in Best(s) ==> m in Branch(s, n)
  {
    hide TreeOk, Path, WellBuilt, CommonLength, ForkLength, ForkNode, Linked;
    BranchLinked(s, n);
    PathKnown(s, n);
    forall m | m in Path(n) ensures m in Branch(s, n) <==> m !in Best(s)
    {
      BranchMembers(s, n, m);
    }
  }

  // ---------------------------------------------------------------------------
  // getReorganizeNodes

  lemma {:induction false} CleanSuffixFacts(s: ChainState, ns: seq<BlockNode>)
    ensures forall m :: m in CleanSuffix(s, ns) ==> !KnownInvalid(StatusOf(s, m)) && m in ns
    ensures |CleanSuffix(s, ns)| < |ns| ==> KnownInvalid(StatusOf(s, ns[|ns| - |CleanSuffix(s, ns)| - 1]))
    decreases |ns|
  {
    if ns != [] && !KnownInvalid(StatusOf(s, ns[|ns| - 1])) {
      CleanSuffixFacts(s, ns[..|ns| - 1]);
    }
  }

  /** The branch of `n` shows no known invalid node. */
  ghost predicate BranchClean(s: ChainState, n: BlockNode)
  {
    && (n.parent.Some? ==> !KnownInvalid(StatusOf(s, n.parent.value)))
    && forall m :: m in Branch(s, n) ==> !KnownInvalid(StatusOf(s, m))
  }

  /** Some block on the way to `n` is known invalid. */
  ghost predicate Tainted(s: ChainState, n: BlockNode)
  {
    exists m :: m in Path(n) && KnownInvalid(StatusOf(s, m))
  }

  /** The marks a refused branch gets: invalid ancestor, on nodes off the best chain. */
  ghost predicate OnlyMarksOffBest(s: ChainState, s': ChainState)
  {
    && SameChain(s, s')
    && (forall m :: m in s.status ==> s.status[m] <= s'.status[m] <= s.status[m] + {InvalidAncestor})
    && (forall m :: m in Best(s) ==> StatusOf(s', m) == StatusOf(s, m))
  }

  lemma MarkOffBest(s: ChainState, ns: set<BlockNode>)
    requires Steady(s) && ns <= s.status.Keys && forall m :: m in ns ==> m !in Best(s)
    ensures Steady(Restatus(s, ns, {InvalidAncestor}, {}))
    ensures OnlyMarksOffBest(s, Restatus(s, ns, {InvalidAncestor}, {}))
  {
    hide Steady, Path;
    RestatusKeeps(s, ns, {InvalidAncestor}, {});
  }

  /** A clean branch is handed out whole; a tainted one is marked and refused. */
  lemma ReorganizeNodesOutcome(s: ChainState, n: BlockNode)
    requires Steady(s) && BestClean(s) && n in s.status && n.parent.Some?
    ensures BranchClean(s, n) ==>
      ReorganizeNodes(s, n) == (s, DownTo(s.tip, ForkLength(s, n)), Branch(s, n))
    ensures !BranchClean(s, n) ==>
      && ReorganizeNodes(s, n).1 == [] && ReorganizeNodes(s, n).2 == []
      && Steady(ReorganizeNodes(s, n).0)
      && OnlyMarksOffBest(s, ReorganizeNodes(s, n).0)
      && Tainted(s, n) && KnownInvalid(StatusOf(ReorganizeNodes(s, n).0, n))
  {
    hide Steady, Path, ForkLength, CleanSuffix, Restatus, DownTo, TreeOk, Branch, ReorganizeNodes, OnlyMarksOffBest;
    hide Tainted;
    TipFacts(s);
    ReorganizeNodesCases(s, n);
    var p, branch := n.parent.value, Branch(s, n);
    CleanSuffixFacts(s, branch);
    var clean := CleanSuffix(s, branch);
    if KnownInvalid(StatusOf(s, p)) {
      ParentRefused(s, n);
    } else if |clean| < |branch| {
      BranchRefused(s, n);
    } else {
      assert clean == branch;
    }
  }

  /** The three ends of `getReorganizeNodes`. */
  lemma ReorganizeNodesCases(s: ChainState, node: BlockNode)
    requires node.parent.Some?
    ensures var branch := Branch(s, node);
            var clean := CleanSuffix(s, branch);
            ReorganizeNodes(s, node) ==
              if KnownInvalid(StatusOf(s, node.parent.value)) then (Restatus(s, {node}, {InvalidAncestor}, {}), [], [])
              else if |clean| < |branch| then (Restatus(s, Nodes(clean), {InvalidAncestor}, {}), [], [])
              else (s, DownTo(s.tip, ForkLength(s, node)), branch)
  {
    hide Path, Restatus, CleanSuffix, DownTo, ForkLength;
  }

  lemma ParentRefused(s: ChainState, n: BlockNode)
    requires Steady(s) && BestClean(s) && n in s.status && n.parent.Some?
    requires KnownInvalid(StatusOf(s, n.parent.value))
    ensures var s' := Restatus(s, {n}, {InvalidAncestor}, {});
            Steady(s') && OnlyMarksOffBest(s, s') && Tainted(s, n) && KnownInvalid(StatusOf(s', n))
  {
    hide Steady, Path, Restatus, TreeOk, OnlyMarksOffBest;
    TipFacts(s);
    ParentInPath(n);
    ParentKnown(s, n);
    OffBestUpward(s, n.parent.value, n);
    MarkOffBest(s, {n});
    RestatusAt(s, {n}, {InvalidAncestor}, {}, n);
  }

  lemma BranchRefused(s: ChainState, n: BlockNode)
    requires Steady(s) && BestClean(s) && n in s.status && n.parent.Some?
    requires |CleanSuffix(s, Branch(s, n))| < |Branch(s, n)|
    ensures var s' := Restatus(s, Nodes(CleanSuffix(s, Branch(s, n))), {InvalidAncestor}, {});
            && Steady(s') && OnlyMarksOffBest(s, s') && Tainted(s, n) && KnownInvalid(StatusOf(s', n))
            && !BranchClean(s, n)
  {
    hide Steady, Path, ForkLength, CleanSuffix, Restatus, TreeOk, OnlyMarksOffBest, Branch, Linked;
    TipFacts(s);
    BranchFacts(s, n);
    var branch, clean := Branch(s, n), CleanSuffix(s, Branch(s, n));
    CleanSuffixFacts(s, branch);
    var bad := branch[|branch| - |clean| - 1];
    assert bad in branch;
    MarkOffBest(s, Nodes(clean));
    RestatusAt(s, Nodes(clean), {InvalidAncestor}, {}, n);
    LastOfBranch(s, n);
    assert clean == [] ==> bad == n;
    assert clean != [] ==> clean[|clean| - 1] == n;
  }

  lemma LastOfBranch(s: ChainState, n: BlockNode)
    requires Branch(s, n) != []
    ensures Branch(s, n)[|Branch(s, n)| - 1] == n
  {
    hide CommonLength;
  }

  // ---------------------------------------------------------------------------
  // The best chain stays clean

  /** A node that may stand on the best chain. */
  ghost predicate CleanNode(s: ChainState, m: BlockNode)
  {
    KnownValid(StatusOf(s, m)) && !KnownInvalid(StatusOf(s, m))
  }

  lemma {:induction false} LinkedDistinct(prev: BlockNode, ns: seq<BlockNode>, i: nat, j: nat)
    requires Linked(prev, ns) && i < j < |ns| && WellBuilt(ns[j])
    ensures ns[i] != ns[j]
  {
    hide WellBuilt, Path;
    LinkedPrefix(prev, ns, j);
    LinkedPath(prev, ns[..j]);
    var p := Last(prev, ns[..j]);
    assert ns[..j][i] == ns[i] && ns[i] in Path(p);
    ParentInPath(ns[j]);
    TallerThanPath(ns[j], ns[i]);
  }

  lemma TallerThanPath(n: BlockNode, m: BlockNode)
    requires WellBuilt(n) && n.parent.Some? && m in Path(n.parent.value)
    ensures m.height < n.height && m != n
  {
    OnPathByHeight(m, n.parent.value);
  }

  /** After a reorganization the best chain is the part below the fork and what was attached. */
  lemma ReorganizedBest(s: ChainState, k: nat, attach: seq<BlockNode>, i: nat, t: BlockNode)
    requires TreeOk(s) && 1 <= k <= |Best(s)| && Linked(Best(s)[k - 1], attach) && i <= |attach|
    requires t == Last(Best(s)[k - 1], attach[..i])
    ensures Path(t) == Best(s)[..k] + attach[..i]
  {
    hide TreeOk, Path, WellBuilt;
    TreeTip(s);
    LinkedPrefix(Best(s)[k - 1], attach, i);
    LinkedPath(Best(s)[k - 1], attach[..i]);
    PathAt(s.tip, k - 1);
  }

  lemma ReorganizedClean(s: ChainState, k: nat, attach: seq<BlockNode>, check: Verdicts, reap: Verdicts, i: nat,
                         s': ChainState, r: Outcome)
    requires TreeOk(s) && 1 <= k <= |Best(s)| && Known(s, attach) && Linked(Best(s)[k - 1], attach)
    requires forall j :: 0 <= j < k ==> CleanNode(s, Best(s)[j])
    requires forall m :: m in attach ==> m !in Best(s) && !KnownInvalid(StatusOf(s, m))
    requires ReorganizedUpTo(s, Best(s)[k - 1], attach, check, reap, i, s', r)
    ensures BestClean(s')
  {
    hide TreeOk, Path, WellBuilt, Steady, Sound, Passes, Linked, ReorgMark;
    ReorganizedBest(s, k, attach, i, s'.tip);
    TreeTip(s);
    PathKnown(s, s.tip);
    forall m | m in Best(s') ensures CleanNode(s', m)
    {
      if m in Best(s)[..k] {
        var j :| 0 <= j < k && Best(s)[j] == m;
        assert m in Best(s);
        UntouchedClean(s, attach, i, s', r, m);
      } else {
        var j :| 0 <= j < i && attach[j] == m;
        AttachedClean(s, Best(s)[k - 1], attach, i, s', r, j);
      }
    }
  }

  lemma UntouchedClean(s: ChainState, attach: seq<BlockNode>, i: nat, s': ChainState, r: Outcome, m: BlockNode)
    requires m in s.status && m in s'.status && m !in attach && CleanNode(s, m)
    requires s'.status[m] == ReorgMark(s.status[m], m, attach, i, r)
    ensures CleanNode(s', m)
  {
    assert i < |attach| ==> attach[i] in attach;
  }

  /** A block attached before the one that was refused. */
  lemma AttachedClean(s: ChainState, fork: BlockNode, attach: seq<BlockNode>, i: nat, s': ChainState, r: Outcome,
                      j: nat)
    requires TreeOk(s) && Known(s, attach) && Linked(fork, attach) && j < i <= |attach|
    requires attach[j] in s'.status && !KnownInvalid(StatusOf(s, attach[j]))
    requires s'.status[attach[j]] == ReorgMark(StatusOf(s, attach[j]), attach[j], attach, i, r)
    ensures CleanNode(s', attach[j])
  {
    hide TreeOk, WellBuilt, Path;
    assert attach[j] in attach;
    if i < |attach| {
      assert attach[i] in attach;
      ParentKnown(s, attach[i]);
      LinkedDistinct(fork, attach, j, i);
    }
  }

  lemma VerifiedClean(s: ChainState, attach: seq<BlockNode>, check: Verdicts, i: nat, s': ChainState, r: Outcome)
    requires TreeOk(s) && BestClean(s) && VerifiedUpTo(s, attach, check, i, s', r)
    requires forall m :: m in attach ==> m !in Best(s)
    ensures BestClean(s')
  {
    hide TreeOk, Path, WellBuilt, Steady, Sound, Passes;
    TreeTip(s);
    PathKnown(s, s.tip);
    forall m | m in Best(s') ensures CleanNode(s', m)
    {
      assert m in Best(s);
      assert s'.status[m] == VerifyMark(s.status[m], m, attach, i, r);
    }
  }

  /** Reorganizing to a clean branch, or trying to, leaves a clean best chain. */
  lemma ReorganizeKeepsInv(s: ChainState, n: BlockNode, check: Verdicts, reap: Verdicts)
    returns (verified: bool, i: nat)
    requires Inv(s) && n in s.status && n.parent.Some? && BranchClean(s, n)
    ensures var attach := Branch(s, n);
            var r := Reorganize(s, DownTo(s.tip, ForkLength(s, n)), attach, check, reap);
            && Inv(r.0)
            && (if verified then ReorganizedUpTo(s, ForkNode(s, n), attach, check, reap, i, r.0, r.1)
                else i < |attach| && VerifiedUpTo(s, attach, check, i, r.0, r.1))
  {
    hide Steady, Path, TreeOk, Sound, Reorganize, CommonLength, DownTo, Passes, LedgerOk, ValidSound, StoreOk;
    TipFacts(s);
    BranchFacts(s, n);
    var k, attach := ForkLength(s, n), Branch(s, n);
    verified, i := ReorganizeOutcome(s, k, attach, check, reap);
    var r := Reorganize(s, DownTo(s.tip, k), attach, check, reap);
    if verified {
      ReorganizedClean(s, k, attach, check, reap, i, r.0, r.1);
    } else {
      VerifiedClean(s, attach, check, i, r.0, r.1);
    }
  }

  lemma NothingToReorganize(s: ChainState, check: Verdicts, reap: Verdicts)
    ensures Reorganize(s, [], [], check, reap) == (s, Fine)
  {
  }

  // ---------------------------------------------------------------------------
  // A new node

  lemma WithNodeShape(s: ChainState, n: BlockNode)
    ensures SameLedger(s, WithNode(s, n)) && WithNode(s, n).genesis == s.genesis
    ensures WithNode(s, n).index == s.index[n.block.hash := n] && WithNode(s, n).status == s.status[n := {DataStored}]
  {
  }

  lemma IndexGrows(index: map<Hash, BlockNode>, nodes: set<BlockNode>, n: BlockNode)
    requires IndexedByHash(index, nodes) && n.block.hash !in index
    ensures IndexedByHash(index[n.block.hash := n], nodes + {n})
  {
  }

  lemma WithNodeTree(s: ChainState, s': ChainState, n: BlockNode)
    requires TreeOk(s) && WellBuilt(n) && n.parent.Some? && n.parent.value in s.status && n !in s.status
    requires n.block.hash !in s.index && s'.index == s.index[n.block.hash := n]
    requires s'.status.Keys == s.status.Keys + {n} && s'.genesis == s.genesis && s'.tip == s.tip
    ensures TreeOk(s')
  {
    hide Path, WellBuilt, IndexedByHash;
    IndexGrows(s.index, s.status.Keys, n);
    forall m | m in s'.status ensures Rooted(s'.status.Keys, s'.genesis, m)
    {
      if m != n {
        ParentKnown(s, m);
      }
    }
  }

  lemma WithNodeStore(s: ChainState, n: BlockNode)
    requires StoreOk(s)
    ensures StoreOk(WithNode(s, n))
  {
  }

  lemma WithNodeFlags(s: ChainState, s': ChainState, n: BlockNode)
    requires TreeOk(s) && BestClean(s) && ValidSound(s) && n !in s.status
    requires s' == WithNode(s, n)
    ensures s'.tip == s.tip && s'.status == s.status[n := {DataStored}]
    ensures BestClean(s') && ValidSound(s')
  {
    hide TreeOk, Path, Sound;
    TreeTip(s);
    PathKnown(s, s.tip);
    forall m | m in Best(s') ensures CleanNode(s', m)
    {
      assert m in Best(s) && m in s.status;
    }
  }

  /** Adding a node to the index keeps the invariant; the node starts off the best chain, without a verdict. */
  lemma WithNodeInv(s: ChainState, n: BlockNode)
    requires Inv(s) && WellBuilt(n) && n.parent.Some? && n.parent.value in s.status && n.block.hash !in s.index
    ensures Inv(WithNode(s, n)) && n !in s.status && n !in Best(s)
    ensures WithNode(s, n).tip == s.tip && WithNode(s, n).status == s.status[n := {DataStored}]
    ensures WithNode(s, n).index == s.index[n.block.hash := n] && WithNode(s, n).utxo == s.utxo
  {
    hide Path, WellBuilt, TreeOk, WithNode, LedgerOk, ValidSound, BestClean, StoreOk;
    NewHashNewNode(s, n);
    WithNodeShape(s, n);
    WithNodeTree(s, WithNode(s, n), n);
    WithNodeStore(s, n);
    WithNodeFlags(s, WithNode(s, n), n);
    LedgerSame(s, WithNode(s, n));
    TreeTip(s);
    PathKnown(s, s.tip);
  }

  lemma NewHashNewNode(s: ChainState, n: BlockNode)
    requires TreeOk(s) && n.block.hash !in s.index
    ensures n !in s.status
  {
    hide Path, WellBuilt;
  }

  // ---------------------------------------------------------------------------
  // connectBestChain

  /** No node loses a flag. */
  ghost predicate Grows(s: ChainState, s': ChainState)
  {
    s'.status.Keys == s.status.Keys && forall m :: m in s.status ==> s.status[m] <= s'.status[m]
  }

  /** The best chain gained `n` and `n` became valid. */
  lemma ExtendedClean(s: ChainState, n: BlockNode, s': ChainState)
    requires BestClean(s) && n in s.status && n.parent == Some(s.tip) && !KnownInvalid(s.status[n])
    requires s'.tip == n && s'.status.Keys == s.status.Keys && Steady(s)
    requires forall m :: m in s.status ==> s'.status[m] == s.status[m] + (if m == n then {Valid} else {})
    ensures BestClean(s')
  {
    hide Steady, TreeOk, WellBuilt, LedgerOk, ValidSound, StoreOk;
    TipFacts(s);
    PathKnown(s, s.tip);
    forall m | m in Best(s') ensures CleanNode(s', m)
    {
      assert m in Best(s) || m == n;
    }
  }

  /** A node whose verdict is about to be recorded. */
  ghost predicate Extends(s: ChainState, n: BlockNode)
  {
    Inv(s) && n in s.status && n.parent == Some(s.tip) && n !in Best(s) && !KnownInvalid(s.status[n])
  }

  lemma MarkOffBestClean(s: ChainState, s': ChainState, n: BlockNode, flag: Flag)
    requires BestClean(s) && n !in Best(s) && SameChain(s, s')
    requires forall m :: m in s.status ==> s'.status[m] == s.status[m] + (if m == n then {flag} else {})
    ensures BestClean(s')
  {
    hide Path;
    forall m | m in Best(s') ensures CleanNode(s', m)
    {
      assert m in Best(s) && m != n;
    }
  }

  lemma MarkKeepsInv(s: ChainState, n: BlockNode, flag: Flag)
    requires Inv(s) && n in s.status && n !in Best(s) && (flag == Valid ==> Sound(n))
    ensures Inv(Flush(Restatus(s, {n}, {flag}, {}))) && SameChain(s, Flush(Restatus(s, {n}, {flag}, {})))
    ensures forall m :: m in s.status ==>
      Flush(Restatus(s, {n}, {flag}, {})).status[m] == s.status[m] + (if m == n then {flag} else {})
  {
    hide Steady, Path, Sound, Flush, Restatus, BestClean;
    RestatusKeeps(s, {n}, {flag}, {});
    var s1 := Restatus(s, {n}, {flag}, {});
    forall m | m in s.status ensures s1.status[m] == s.status[m] + (if m == n then {flag} else {})
    {
      RestatusAt(s, {n}, {flag}, {}, m);
    }
    MarkOffBestClean(s, s1, n, flag);
    FlushKeeps(s1);
  }

  /** The tip is extended, unless the prefix check of the block fails. */
  lemma ExtendTipOutcome(s: ChainState, n: BlockNode, fastAdd: bool, reap: Verdicts)
    requires Extends(s, n) && Sound(n) && (fastAdd || KnownValid(s.status[n]))
    ensures var (s', main, r) := ExtendTip(s, n, fastAdd, reap);
            && Inv(s') && Grows(s, s') && s'.index == s.index
            && r == reap(n) && main == (r == Fine)
            && s'.tip == (if r == Fine then n else s.tip)
            && (r == RuleError ==> ValidateFailed in StatusOf(s', n))
            && (r == OtherError ==> s' == s)
  {
    hide Steady, Path, Sound, Flush, NodeEvents, Apply, SpentCoins, InputsPresent, ConnectBlock, TreeOk, Restatus;
    match reap(n)
    case RuleError => MarkKeepsInv(s, n, ValidateFailed);
    case OtherError =>
    case Fine =>
      ConnectKeeps(s, n);
      var s1 := ConnectNode(s, n).0;
      if fastAdd || !KnownValid(StatusOf(s1, n)) {
        ExtendMarked(s, n, s1);
      } else {
        ExtendedClean(s, n, s1);
      }
  }

  lemma ExtendMarked(s: ChainState, n: BlockNode, s1: ChainState)
    requires Extends(s, n) && Sound(n) && Steady(s1) && SameIndex(s, s1) && s1.tip == n
    ensures Inv(Flush(Restatus(s1, {n}, {Valid}, {}))) && Grows(s, Flush(Restatus(s1, {n}, {Valid}, {})))
    ensures Flush(Restatus(s1, {n}, {Valid}, {})).tip == n && Flush(Restatus(s1, {n}, {Valid}, {})).index == s.index
  {
    hide Steady, Path, Sound, Flush;
    RestatusKeeps(s1, {n}, {Valid}, {});
    var s2 := Restatus(s1, {n}, {Valid}, {});
    FlushKeeps(s2);
    ExtendedClean(s, n, s2);
  }
}
