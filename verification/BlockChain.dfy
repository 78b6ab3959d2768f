/** The chain object of chain.go: fields updated in place, one method per operation. */
module BlockChain {
  import opened Base
  import opened BlockNodes
  import opened Ledger
  import opened ChainModel
  import opened ChainInvariants
  import opened ChainReorg
  import opened ChainSelect
  import opened ChainAccept
  import opened ChainControl
  import opened ChainRuns
  import opened HeaviestChain
  import opened IndexStore
  import opened ChainLoops
  import ChainQueries
  import MedianTime
  import SkipSearch
  import UtxoView

  class BlockChain {
    const genesis: BlockNode
    var index: map<Hash, BlockNode>
    var status: map<BlockNode, Status>
    var dirty: set<BlockNode>
    var rows: map<BlockNode, Status>
    var nodes: seq<BlockNode>  // the chain view
    var utxo: Utxo
    var journal: map<Hash, seq<Coin>>
    var hashToHeight: map<Hash, nat>
    var heightToHash: map<nat, Hash>
    var snapshot: BestState
    var saved: SavedState

    ghost function State(): ChainState
      reads this
      requires |nodes| > 0
    {
      ChainState(genesis, index, status, dirty, rows, nodes[|nodes| - 1], utxo, journal,
                 hashToHeight, heightToHash, snapshot, saved)
    }

    /** The view is the path to its last node; only well-built indexed nodes are handled. */
    ghost predicate Coherent()
      reads this
    {
      && |nodes| > 0 && nodes == Path(nodes[|nodes| - 1])
      && dirty <= status.Keys
      && (forall n {:trigger WellBuilt(n)} :: n in status ==> WellBuilt(n))
    }

    ghost predicate Valid()
      reads this
    {
      Coherent() && Inv(State())
    }

    /** `createChainState`. */
    constructor (block: Block)
      ensures Valid() && State() == InitialState(block)
    {
      var g := SkipSearch.NewNode(block, None);
      genesis := g;
      index := map[block.hash := g];
      status := map[g := {DataStored, ChainModel.Valid}];
      dirty := {};
      rows := map[g := {DataStored, ChainModel.Valid}];
      nodes := [g];
      utxo := map[];
      journal := map[];
      hashToHeight := map[block.hash := 0];
      heightToHash := map[0 := block.hash];
      snapshot := BestState(block.hash, 0, |block.txs|, |block.txs|, block.timestamp);
      saved := SavedState(block.hash, 0, |block.txs|, block.work);
      new;
      InitialInv(block);
      assert Path(g) == [g];
    }

    // -------------------------------------------------------------------------
    // blockindex.go

    method SetStatusFlags(n: BlockNode, flag: Flag)
      requires Coherent() && n in status
      modifies `status, `dirty
      ensures Coherent() && State() == Restatus(old(State()), {n}, {flag}, {})
    {
      RestatusOne(State(), n, {flag}, {});
      assert status[n] + {flag} - {} == status[n] + {flag};
      status := status[n := status[n] + {flag}];
      dirty := dirty + {n};
    }

    method UnsetStatusFlags(n: BlockNode, flag: Flag)
      requires Coherent() && n in status
      modifies `status, `dirty
      ensures Coherent() && State() == Restatus(old(State()), {n}, {}, {flag})
    {
      RestatusOne(State(), n, {}, {flag});
      assert status[n] + {} - {flag} == status[n] - {flag};
      status := status[n := status[n] - {flag}];
      dirty := dirty + {n};
    }

    method FlushToDB()
      requires Coherent()
      modifies `rows, `dirty
      ensures Coherent() && State() == Flush(old(State()))
    {
      var stored := StoreRows(rows, status, dirty);
      assert stored == Flush(State()).rows;
      rows := stored;
      dirty := {};
    }

    // -------------------------------------------------------------------------
    // chainview.go

    /** One comparison at the node's own height decides whether it is on the best chain. */
    method Contains(n: BlockNode) returns (r: bool)
      requires Coherent() && TreeOk(State())
      ensures r <==> n in Best(State())
    {
      hide TreeOk, Path;
      OnBestIsOnPath(State(), n);
      r := n.height < |nodes| && nodes[n.height] == n;
    }

    method SetTip(node: BlockNode)
      requires Coherent() && WellBuilt(node) && nodes[|nodes| - 1] in status
      modifies `nodes
      ensures nodes == Path(node) && Coherent() && State() == old(State()).(tip := node)
    {
      assert WellBuilt(nodes[|nodes| - 1]);
      nodes := SwitchView(nodes, nodes[|nodes| - 1], node);
    }

    /** `findFork`: the last node that the best chain and the branch of `node` share. */
    method FindFork(node: BlockNode) returns (fork: BlockNode)
      requires Coherent() && TreeOk(State()) && node in status
      ensures fork == ForkNode(State(), node) && OnPath(fork, node) && OnBest(State(), fork)
      ensures fork.height + 1 == ForkLength(State(), node)
    {
      hide TreeOk, WellBuilt, Path, ForkLength;
      ghost var s := State();
      ParentKnown(s, node);
      BranchLinked(s, node);
      ForkHeight(s, node);
      var n := node;
      OnPathByHeight(node, node);
      ParentInPathSelf(node);
      if node.height > |nodes| - 1 {
        var a, _ := SkipSearch.Ancestor(node, |nodes| - 1);
        n := a.value;
        PathLength(node);
        PathAt(node, n.height);
      }
      while !(n.height < |nodes| && nodes[n.height] == n)
        invariant OnPath(n, node) && n.height >= ForkNode(s, node).height
        decreases n.height
      {
        NotForkYet(s, node, n);
        n := n.parent.value;
      }
      AtFork(s, node, n);
      fork := n;
    }

    // -------------------------------------------------------------------------
    // chain.go: choosing what to detach and attach

    /** Mark each node of a list. */
    method MarkAll(ns: seq<BlockNode>, flag: Flag)
      requires Coherent() && Known(State(), ns)
      modifies `status, `dirty
      ensures Coherent() && State() == Restatus(old(State()), Nodes(ns), {flag}, {})
    {
      hide Path, WellBuilt, Restatus;
      ghost var s := State();
      RestatusNothing(s, {flag}, {});
      assert Nodes(ns[..0]) == {};
      for i := 0 to |ns|
        invariant Coherent() && State() == Restatus(s, Nodes(ns[..i]), {flag}, {}) && status.Keys == s.status.Keys
      {
        assert ns[i] in ns;
        SetStatusFlags(ns[i], flag);
        RestatusSameChain(Restatus(s, Nodes(ns[..i]), {flag}, {}), {ns[i]}, {flag}, {});
        RestatusMore(s, Nodes(ns[..i]), ns[i], {flag}, {});
        assert Nodes(ns[..i + 1]) == Nodes(ns[..i]) + {ns[i]};
      }
      assert ns[..|ns|] == ns;
    }

    /** Walk from `node` to the fork, collecting nodes until one is known invalid. */
    method CollectAttach(node: BlockNode, fork: BlockNode) returns (attach: seq<BlockNode>, invalidChain: bool)
      requires Coherent() && TreeOk(State()) && node in status && fork == ForkNode(State(), node)
      ensures attach == CleanSuffix(State(), Branch(State(), node)) && Known(State(), attach)
      ensures invalidChain <==> |attach| < |Branch(State(), node)|
    {
      hide TreeOk, WellBuilt, Path, ForkLength, CleanSuffix, ForkNode, WalkingDown, Branch;
      ghost var s := State();
      attach, invalidChain := [], false;
      var n := node;
      ParentKnown(s, node);
      WalkStarts(s, node);
      ForkHeight(s, node);
      while n != fork
        invariant WalkingDown(s, node, n, attach) && n.height >= fork.height
        decreases n.height
      {
        WalkKnown(s, node, n, attach);
        if KnownInvalid(status[n]) {
          invalidChain := true;
          break;
        }
        WalkStep(s, node, n, attach);
        attach := [n] + attach;
        n := n.parent.value;
      }
      WalkEnds(s, node, n, attach, invalidChain);
    }

    /** Walk from the tip to the fork. */
    method CollectDetach(fork: BlockNode) returns (detach: seq<BlockNode>)
      requires Coherent() && TreeOk(State()) && fork in Best(State())
      ensures detach == DownTo(nodes[|nodes| - 1], fork.height + 1)
    {
      hide TreeOk, WellBuilt, Path, DownTo, Best;
      ghost var s := State();
      detach := [];
      var n := nodes[|nodes| - 1];
      TipOnBest(s);
      HeightBelowTip(s, fork);
      while n != fork
        invariant n in Best(s) && n.height >= fork.height
        invariant detach + DownTo(n, fork.height + 1) == DownTo(s.tip, fork.height + 1)
        decreases n.height
      {
        DetachStep(s, n, fork);
        detach := detach + [n];
        n := n.parent.value;
      }
      DownToEmpty(n, fork.height + 1);
    }

    method GetReorganizeNodes(node: BlockNode) returns (detach: seq<BlockNode>, attach: seq<BlockNode>)
      requires Coherent() && TreeOk(State()) && node in status && node.parent.Some?
      modifies `status, `dirty
      ensures Coherent() && (State(), detach, attach) == ReorganizeNodes(old(State()), node)
    {
      hide TreeOk, WellBuilt, Path, ForkLength, Restatus, CleanSuffix, DownTo, ForkNode, Branch, ReorganizeNodes;
      ghost var s := State();
      ParentKnown(s, node);
      ReorganizeNodesCases(s, node);
      if KnownInvalid(status[node.parent.value]) {
        SetStatusFlags(node, InvalidAncestor);
        return [], [];
      }
      var fork := FindFork(node);
      var clean, invalidChain := CollectAttach(node, fork);
      if invalidChain {
        MarkAll(clean, InvalidAncestor);
        return [], [];
      }
      attach := clean;
      OnBestIsOnPath(s, fork);
      detach := CollectDetach(fork);
    }

    // -------------------------------------------------------------------------
    // chain.go: connecting and disconnecting

    /** One database update. */
    method Store(row: SavedState, byHash: map<Hash, nat>, byHeight: map<nat, Hash>,
                 coins: map<Hash, seq<Coin>>, unspent: Utxo)
      requires Coherent()
      modifies `saved, `hashToHeight, `heightToHash, `journal, `utxo
      ensures Coherent()
      ensures State() == old(State()).(
        saved := row, hashToHeight := byHash, heightToHash := byHeight, journal := coins, utxo := unspent)
    {
      hide Path, WellBuilt;
      saved, hashToHeight, heightToHash, journal, utxo := row, byHash, byHeight, coins, unspent;
    }

    /** The database, then the view and the snapshot. */
    method RecordBest(tip: BlockNode, work: nat, totalTxns: int, byHash: map<Hash, nat>, byHeight: map<nat, Hash>,
                      coins: map<Hash, seq<Coin>>, unspent: Utxo)
      requires Coherent() && WellBuilt(tip) && nodes[|nodes| - 1] in status
      modifies `saved, `hashToHeight, `heightToHash, `journal, `utxo, `nodes, `snapshot
      ensures Coherent()
      ensures State() == old(State()).(
        saved := SavedState(tip.block.hash, tip.height, totalTxns, work), hashToHeight := byHash,
          heightToHash := byHeight,
        journal := coins, utxo := unspent, tip := tip, snapshot := SnapshotOf(tip, totalTxns))
    {
      hide Path, WellBuilt, MedianTime.PastMedian;
      var median := MedianTime.CalcPastMedianTime(tip);
      var state := BestState(tip.block.hash, tip.height, |tip.block.txs|, totalTxns, median);
      Store(SavedState(state.hash, state.height, state.totalTxns, work), byHash, byHeight, coins, unspent);
      SetTip(tip);
      snapshot := state;
    }

    /** The unspent output set has taken the block already. */
    method ConnectBlock(n: BlockNode, coins: seq<Coin>) returns (r: Outcome)
      requires Coherent() && n in status && nodes[|nodes| - 1] in status
      modifies this
      ensures Coherent() && (State(), r) == ChainModel.ConnectBlock(old(State()), n, old(utxo), coins)
    {
      hide Path, Flush, MedianTime.PastMedian, CountSpentOutputs, WalkBack, AncestorHeight;
      if n.block.prev != nodes[|nodes| - 1].block.hash {
        return OtherError;
      }
      if |coins| != CountSpentOutputs(n.block.txs, 0) {
        return OtherError;
      }
      FlushToDB();
      assert WellBuilt(n);
      RecordBest(n, n.work, snapshot.totalTxns + |n.block.txs|, hashToHeight[n.block.hash := n.height],
                 heightToHash[n.height := n.block.hash], journal[n.block.hash := coins], utxo);
      r := Fine;
    }

    /** `view` is the unspent output set without the block; the work saved is that of the block removed. */
    method DisconnectBlock(n: BlockNode, view: Utxo) returns (r: Outcome)
      requires Coherent() && n in status && nodes[|nodes| - 1] in status
      modifies this
      ensures Coherent() && (State(), r) == ChainModel.DisconnectBlock(old(State()), n, view)
    {
      hide Path, Flush, MedianTime.PastMedian, WalkBack, AncestorHeight;
      if n.block.hash != nodes[|nodes| - 1].block.hash || n.parent.None? {
        return OtherError;
      }
      FlushToDB();
      ParentWellBuilt(n);
      RecordBest(n.parent.value, n.work, snapshot.totalTxns - |n.block.txs|, hashToHeight - {n.block.hash},
                 heightToHash - {n.height}, journal - {n.block.hash}, view);
      r := Fine;
    }

    /** Undo the blocks to detach on a view of the unspent outputs. */
    method UndoOnView(detach: seq<BlockNode>) returns (view: Option<Utxo>)
      requires Coherent()
      ensures view == UndoAll(State(), utxo, detach)
    {
      hide Path, WellBuilt, NodeEvents, Undo;
      ghost var s := State();
      var v := utxo;
      assert detach[0..] == detach;
      for i := 0 to |detach|
        invariant UndoAll(s, utxo, detach) == UndoAll(s, v, detach[i..])
      {
        var n := detach[i];
        assert detach[i..][1..] == detach[i + 1..];
        var coins := if n.block.hash in journal then journal[n.block.hash] else [];
        var ok, v' := UtxoView.DisconnectTransactions(v, n.block, n.height, coins);
        if !ok {
          return None;
        }
        NodeEventsAre(n);
        v := v';
      }
      view := Some(v);
    }

    /** Check the blocks to attach one after the other, recording verdicts. */
    method VerifyAttach(start: Utxo, attach: seq<BlockNode>, check: Verdicts) returns (r: Outcome)
      requires Coherent() && Known(State(), attach)
      modifies `status, `dirty
      ensures Coherent() && (State(), r) == ChainModel.VerifyAttach(old(State()), start, attach, check)
    {
      hide Path, WellBuilt, NodeEvents, Apply, InputsPresent, Connectable, Restatus, SpentCoins;
      ghost var s := State();
      var view := start;
      assert attach[0..] == attach;
      for i := 0 to |attach|
        invariant Coherent() && status.Keys == s.status.Keys
        invariant ChainModel.VerifyAttach(s, start, attach, check) ==
                  ChainModel.VerifyAttach(State(), view, attach[i..], check)
      {
        var n := attach[i];
        assert n in attach;
        assert attach[i..][0] == n && attach[i..][1..] == attach[i + 1..];
        NodeEventsAre(n);
        if KnownValid(status[n]) {
          var ok, view', _ := UtxoView.ConnectTransactions(view, n.block, n.height);
          if !ok {
            return OtherError;
          }
          view := view';
        } else {
          match Judge(view, n, check)
          case Fine =>
            JudgedPresent(view, n, check);
            RestatusSameChain(State(), {n}, {ChainModel.Valid}, {});
            SetStatusFlags(n, ChainModel.Valid);
            var _, view', _ := UtxoView.ConnectTransactions(view, n.block, n.height);
            view := view';
          case RuleError =>
            RestatusSameChain(State(), {n}, {ValidateFailed}, {});
            SetStatusFlags(n, ValidateFailed);
            MarkAll(attach[i + 1..], InvalidAncestor);
            return RuleError;
          case OtherError =>
            return OtherError;
        }
      }
      r := Fine;
    }

    method VerifyReorganizationValidity(detach: seq<BlockNode>, attach: seq<BlockNode>, check: Verdicts)
      returns (r: Outcome)
      requires Coherent() && Known(State(), attach)
      modifies `status, `dirty
      ensures Coherent() && (State(), r) == Verify(old(State()), detach, attach, check)
    {
      hide Path, WellBuilt, UndoAll, ChainModel.VerifyAttach;
      if |detach| == 0 && |attach| == 0 {
        return Fine;
      }
      if |detach| != 0 && detach[0].block.hash != nodes[|nodes| - 1].block.hash {
        return OtherError;
      }
      if |attach| != 0 && |detach| != 0 {
        var a, d := attach[0].parent, detach[|detach| - 1].parent;
        if a.None? || d.None? || a.value.block.hash != d.value.block.hash {
          return OtherError;
        }
      }
      var view := UndoOnView(detach);
      if view.None? {
        return OtherError;
      }
      r := VerifyAttach(view.value, attach, check);
    }

    /** The detach loop of `reorganizeChain`. */
    method DetachBlocks(detach: seq<BlockNode>) returns (r: Outcome)
      requires Coherent() && TreeOk(State()) && Known(State(), detach)
      modifies this
      ensures Coherent() && TreeOk(State()) && SameIndex(old(State()), State())
      ensures (State(), r) == DetachAll(old(State()), detach)
    {
      hide Path, WellBuilt, NodeEvents, Undo, TreeOk, ChainModel.DisconnectBlock;
      ghost var s := State();
      assert detach[0..] == detach;
      for i := 0 to |detach|
        invariant Coherent() && TreeOk(State()) && SameIndex(s, State())
        invariant DetachAll(s, detach) == DetachAll(State(), detach[i..])
      {
        var n := detach[i];
        assert n in detach;
        assert detach[i..][0] == n && detach[i..][1..] == detach[i + 1..];
        NodeEventsAre(n);
        TreeTip(State());
        var coins := if n.block.hash in journal then journal[n.block.hash] else [];
        var ok, view := UtxoView.DisconnectTransactions(utxo, n.block, n.height, coins);
        if !ok {
          return OtherError;
        }
        ghost var before := State();
        r := DisconnectBlock(n, view);
        DisconnectTree(before, n, view);
        if r != Fine {
          return;
        }
      }
      r := Fine;
    }

    /** The attach loop of `reorganizeChain`. */
    method AttachBlocks(attach: seq<BlockNode>, reap: Verdicts) returns (r: Outcome)
      requires Coherent() && TreeOk(State()) && Known(State(), attach)
      modifies this
      ensures Coherent() && (State(), r) == AttachAll(old(State()), attach, reap)
    {
      hide Path, WellBuilt, NodeEvents, Apply, InputsPresent, SpentCoins, TreeOk, ChainModel.ConnectBlock, Restatus;
      ghost var s := State();
      assert attach[0..] == attach;
      for i := 0 to |attach|
        invariant Coherent() && TreeOk(State()) && SameIndex(s, State())
        invariant AttachAll(s, attach, reap) == AttachAll(State(), attach[i..], reap)
      {
        var n := attach[i];
        assert n in attach;
        assert attach[i..][0] == n && attach[i..][1..] == attach[i + 1..];
        NodeEventsAre(n);
        TreeTip(State());
        match reap(n)
        case RuleError =>
          SetStatusFlags(n, ValidateFailed);
          return RuleError;
        case OtherError =>
          return OtherError;
        case Fine =>
          var ok, view, coins := UtxoView.ConnectTransactions(utxo, n.block, n.height);
          if !ok {
            return OtherError;
          }
          ghost var before := State();
          ConnectIgnoresUtxo(before, n, view, coins);
          ConnectTree(before, n, view, coins);
          utxo := view;
          r := ConnectBlock(n, coins);
          if r != Fine {
            return;
          }
      }
      r := Fine;
    }

    method ReorganizeChain(detach: seq<BlockNode>, attach: seq<BlockNode>, check: Verdicts, reap: Verdicts)
      returns (r: Outcome)
      requires Coherent() && TreeOk(State()) && Known(State(), detach) && Known(State(), attach)
      modifies this
      ensures Coherent() && (State(), r) == Reorganize(old(State()), detach, attach, check, reap)
    {
      hide Path, WellBuilt, TreeOk, Verify, DetachAll, AttachAll;
      ghost var s := State();
      VerifyTouchesStatus(s, detach, attach, check);
      TreeRestatus(s, Verify(s, detach, attach, check).0);
      r := VerifyReorganizationValidity(detach, attach, check);
      if r != Fine {
        return;
      }
      r := DetachBlocks(detach);
      if r != Fine {
        return;
      }
      r := AttachBlocks(attach, reap);
    }

    // -------------------------------------------------------------------------
    // chain.go and accept.go: a new block

    /** The block extends the tip and needs no further validation. */
    method ExtendTip(n: BlockNode, fastAdd: bool, reap: Verdicts) returns (main: bool, r: Outcome)
      requires Coherent() && TreeOk(State()) && n in status
      modifies this
      ensures Coherent() && (State(), main, r) == ChainModel.ExtendTip(old(State()), n, fastAdd, reap)
    {
      hide Path, WellBuilt, NodeEvents, Apply, InputsPresent, SpentCoins, TreeOk, ChainModel.ConnectBlock;
      hide Restatus, Flush;
      ghost var s := State();
      TreeTip(s);
      NodeEventsAre(n);
      match reap(n)
      case RuleError =>
        SetStatusFlags(n, ValidateFailed);
        FlushToDB();
        return false, RuleError;
      case OtherError =>
        return false, OtherError;
      case Fine =>
        var ok, view, coins := UtxoView.ConnectTransactions(utxo, n.block, n.height);
        if !ok {
          return false, OtherError;
        }
        ConnectIgnoresUtxo(s, n, view, coins);
        ConnectTree(s, n, view, coins);
        utxo := view;
        r := ConnectBlock(n, coins);
        if r != Fine {
          FlushToDB();
          return false, r;
        }
        if fastAdd || !KnownValid(status[n]) {
          SetStatusFlags(n, ChainModel.Valid);
          FlushToDB();
        }
        main := true;
    }

    method ConnectBestChain(n: BlockNode, fast: bool, check: Verdicts, reap: Verdicts) returns (main: bool, r: Outcome)
      requires Coherent() && Newcomer(State(), n)
      modifies this
      ensures Coherent() && (State(), main, r) == ConnectBest(old(State()), n, fast, check, reap)
    {
      hide Path, WellBuilt, Connectable, TreeOk, ChainModel.ExtendTip, Restatus, Flush, Reorganize;
      hide ReorganizeNodes, Steady, BestClean, Judge;
      ghost var s := State();
      TipFacts(s);
      if n.block.prev == nodes[|nodes| - 1].block.hash {
        var fastAdd := fast || KnownValid(status[n]);
        if !fastAdd {
          match Judge(utxo, n, check) {
            case Fine =>
              SetStatusFlags(n, ChainModel.Valid);
            case RuleError =>
              SetStatusFlags(n, ValidateFailed);
              FlushToDB();
              return false, RuleError;
            case OtherError =>
              return false, OtherError;
          }
          ValidatedTree(s, n);
          FlushToDB();
        }
        main, r := ExtendTip(n, fastAdd, reap);
        return;
      }
      if n.work <= nodes[|nodes| - 1].work {
        return false, Fine;
      }
      ReorganizeListsKnown(s, n);
      var detach, attach := GetReorganizeNodes(n);
      r := ReorganizeChain(detach, attach, check, reap);
      FlushToDB();
      main := r == Fine;
    }

    method MaybeAcceptBlock(block: Block, context: Outcome, fast: bool, check: Verdicts, reap: Verdicts)
      returns (main: bool, r: Outcome)
      requires Valid() && Vouched(State(), block, fast)
      modifies this
      ensures Valid() && (State(), main, r) == AcceptBlock(old(State()), block, context, fast, check, reap)
    {
      hide Path, WellBuilt, ConnectBest, WithNode, Steady, BestClean, Connectable;
      ghost var s := State();
      AcceptKeepsInv(s, block, context, fast, check, reap);
      if block.hash in index {
        return false, RuleError;
      }
      if block.prev !in index {
        return false, RuleError;
      }
      TipFacts(s);
      IndexedKnown(s, block.prev);
      var prev := index[block.prev];
      if KnownInvalid(status[prev]) {
        return false, RuleError;
      }
      if context != Fine {
        return false, context;
      }
      assert WellBuilt(prev);
      var n := SkipSearch.InitBlockNode(block, Some(prev));
      AdmittedNewcomer(s, block, context);
      AddNode(n);
      main, r := ConnectBestChain(n, fast, check, reap);
    }

    /** `AddNode` and the flush after it. */
    method AddNode(n: BlockNode)
      requires Coherent() && WellBuilt(n)
      modifies `index, `status, `dirty, `rows
      ensures Coherent() && State() == WithNode(old(State()), n)
    {
      hide Path, WellBuilt;
      index := index[n.block.hash := n];
      status := status[n := {DataStored}];
      dirty := dirty + {n};
      FlushToDB();
    }

    // -------------------------------------------------------------------------
    // chainio.go: loading the stored state

    /** Walk down from the tip and give every node the valid flag that lacks it. */
    method UpgradeBest()
      requires Coherent() && forall m :: m in Path(nodes[|nodes| - 1]) ==> m in status
      modifies `status, `dirty
      ensures Coherent() && State() == Restatus(old(State()), Unvalidated(old(State())), {ChainModel.Valid}, {})
    {
      hide Path, WellBuilt, Restatus, Unvalidated, Above;
      ghost var s := State();
      ghost var tip := s.tip;
      ParentInPathSelf(tip);
      assert WellBuilt(tip);
      var n: Option<BlockNode> := Some(nodes[|nodes| - 1]);
      AboveStart(s);
      RestatusNothing(s, {ChainModel.Valid}, {});
      while n.Some?
        invariant Coherent() && (n.Some? ==> OnPath(n.value, tip))
        invariant State() == Restatus(s, Above(s, n), {ChainModel.Valid}, {})
        decreases if n.Some? then n.value.height + 1 else 0
      {
        AboveNext(s, n.value);
        RestatusAt(s, Above(s, n), {ChainModel.Valid}, {}, n.value);
        RestatusMore(s, Above(s, n), n.value, {ChainModel.Valid}, {});
        if !KnownValid(status[n.value]) {
          SetStatusFlags(n.value, ChainModel.Valid);
        }
        n := n.value.parent;
      }
      AboveAll(s);
    }

    /** `initChainState` on an initialized database: the fields in memory are rebuilt from those that are stored. */
    method InitChainState(scan: seq<Row>) returns (ok: bool)
      requires |nodes| > 0
      modifies `index, `status, `dirty, `nodes, `snapshot, `rows
      ensures ok <==> Reload(old(State()), scan).Some?
      ensures ok ==> Coherent() && State() == Reload(old(State()), scan).value
    {
      hide Path, WellBuilt, Restatus, Unvalidated, MedianTime.PastMedian, LoadRows, Flush;
      ghost var s := State();
      var loaded := LoadIndex(genesis.block.hash, scan);
      if loaded.None? {
        return false;
      }
      var l := loaded.value;
      if saved.hash !in l.index {
        return false;
      }
      var tip := l.index[saved.hash];
      LoadedPath(l, tip);
      assert WellBuilt(tip);
      var view := SwitchView([], tip, tip);
      var median := MedianTime.CalcPastMedianTime(tip);
      index, status, dirty, nodes := l.index, l.status, {}, view;
      snapshot := BestState(tip.block.hash, tip.height, |tip.block.txs|, saved.totalTxns, median);
      ghost var s1 := s.(index := l.index, status := l.status, dirty := {}, tip := tip,
        snapshot := SnapshotOf(tip, s.saved.totalTxns));
      assert State() == s1;
      UpgradeBest();
      FlushToDB();
      ok := true;
    }

    // -------------------------------------------------------------------------
    // chain.go: hashes at regular heights

    method HeightRange(startHeight: int, endHeight: int) returns (r: Option<seq<Hash>>)
      requires Coherent() && TreeOk(State())
      ensures r.None? <==> startHeight < 0 || endHeight < startHeight
      ensures r.Some? ==> r.value == ChainQueries.HeightRange(State().tip, startHeight, endHeight)
    {
      hide Path, WellBuilt, TreeOk;
      if startHeight < 0 {
        return None;
      }
      if endHeight < startHeight {
        return None;
      }
      if startHeight == endHeight {
        return Some([]);
      }
      var latestHeight := |nodes| - 1;
      if startHeight > latestHeight {
        return Some([]);
      }
      var end := if endHeight > latestHeight + 1 then latestHeight + 1 else endHeight;
      var hashes: seq<Hash> := [];
      for i := startHeight to end
        invariant |hashes| == i - startHeight && forall j :: 0 <= j < |hashes| ==>
          hashes[j] == nodes[startHeight + j].block.hash
      {
        hashes := hashes + [nodes[i].block.hash];
      }
      r := Some(hashes);
    }

    /** From the end node down, along the view once the walk has reached it and by skip search before. */
    method IntervalBlockHashes(endHash: Hash, interval: nat) returns (r: Option<seq<Hash>>)
      requires Coherent() && TreeOk(State()) && interval > 0
      ensures r.None? <==> endHash !in index || !KnownValid(StatusOf(State(), index[endHash]))
      ensures r.Some? ==> r.value == ChainQueries.IntervalHashes(index[endHash], interval)
    {
      hide Path, WellBuilt, TreeOk, KnownValid, ChainQueries.IntervalHashes;
      ghost var s := State();
      if endHash !in index {
        return None;
      }
      IndexedKnown(s, endHash);
      var endNode := index[endHash];
      if !KnownValid(status[endNode]) {
        return None;
      }
      ParentKnown(s, endNode);
      PathLength(endNode);
      ParentInPathSelf(endNode);
      var hashes := new Hash[endNode.height / interval];
      var blockNode := endNode;
      for k := endNode.height / interval downto 0
        invariant WellBuilt(blockNode) && OnPath(blockNode, endNode) && k * interval <= blockNode.height
        invariant forall i :: k <= i < hashes.Length ==> hashes[i] == ChainQueries.IntervalHashes(endNode, interval)[i]
      {
        var blockHeight := (k + 1) * interval;
        assert blockHeight <= blockNode.height;
        var main := Contains(blockNode);
        OnBestIsOnPath(s, blockNode);
        StepDown(s, endNode, blockNode, blockHeight);
        if main {
          blockNode := nodes[blockHeight];
        } else {
          var a, _ := SkipSearch.Ancestor(blockNode, blockHeight);
          blockNode := a.value;
        }
        hashes[k] := blockNode.block.hash;
        ChainQueries.IntervalAt(endNode, interval, k);
        assert k * interval <= blockHeight by { assert (k + 1) * interval == k * interval + interval; }
      }
      r := Some(hashes[..]);
      assert hashes[..] == ChainQueries.IntervalHashes(endNode, interval);
    }

    // -------------------------------------------------------------------------
    // chain.go: invalidate and reconsider

    method InactiveTips() returns (tips: seq<BlockNode>)
      requires Coherent() && TreeOk(State())
      ensures forall t :: t in tips <==> t in ChainModel.InactiveTips(State())
    {
      hide Path, WellBuilt, TreeOk;
      ghost var s := State();
      IndexedOffBest(s, nodes);
      var orphans, orphanParent := CollectOrphans(index, nodes);
      tips := KeepChildless(orphans, orphanParent);
      OrphanTips(s, orphans, orphanParent, tips);
    }

    /** Set one flag and unset another. */
    method Replace(n: BlockNode, add: Flag, remove: Flag)
      requires Coherent() && n in status && add != remove
      modifies `status, `dirty
      ensures Coherent() && State() == Restatus(old(State()), {n}, {add}, {remove})
    {
      hide Path, WellBuilt, Restatus;
      RestatusTwice(State(), n, add, remove);
      RestatusSameChain(State(), {n}, {add}, {});
      SetStatusFlags(n, add);
      UnsetStatusFlags(n, remove);
    }

    /** Mark the nodes from a tip down to `node` that are not invalid yet. */
    method InvalidateBranch(tip: BlockNode, node: BlockNode, ghost s: ChainState, ghost seen: set<BlockNode>)
      requires Coherent() && TreeOk(s) && tip in s.status && OnPath(node, tip)
      requires State() == Restatus(s, NotInvalid(s, seen), {InvalidAncestor}, {ChainModel.Valid})
      modifies `status, `dirty
      ensures Coherent()
      ensures State() == Restatus(s, NotInvalid(s, seen + Between(tip, node)), {InvalidAncestor}, {ChainModel.Valid})
    {
      hide Path, WellBuilt, Restatus, TreeOk, NotInvalid, Between, KnownInvalid;
      var n := tip;
      BetweenStart(s, tip);
      assert seen + Between(tip, tip) == seen;
      while n != node
        invariant Coherent() && OnPath(n, tip) && n.height >= node.height
        invariant State() == Restatus(s, NotInvalid(s, seen + Between(tip, n)), {InvalidAncestor}, {ChainModel.Valid})
        decreases n.height
      {
        BetweenStep(s, tip, node, n);
        assert seen + Between(tip, n.parent.value) == seen + Between(tip, n) + {n};
        MarkOnce(s, seen + Between(tip, n), n);
        if !KnownInvalid(status[n]) {
          Replace(n, InvalidAncestor, ChainModel.Valid);
        }
        n := n.parent.value;
      }
    }

    /** The side branch half of `InvalidateBlock`: every branch through `node`, one inactive tip at a time. */
    method InvalidateBranches(node: BlockNode)
      requires Coherent() && TreeOk(State()) && node in status && node !in Best(State())
      modifies `status, `dirty
      ensures Coherent()
      ensures State() == Restatus(old(State()), NotInvalid(old(State()), Descendants(old(State()), node)),
        {InvalidAncestor}, {ChainModel.Valid})
    {
      hide Path, WellBuilt, Restatus, TreeOk, NotInvalid, Between, Best, ChainModel.InactiveTips, Descendants;
      ghost var s := State();
      var tips := InactiveTips();
      ghost var seen: set<BlockNode> := {};
      NothingMarked(s);
      for i := 0 to |tips|
        invariant Coherent() && Covered(s, node, tips[..i], seen)
        invariant State() == Restatus(s, NotInvalid(s, seen), {InvalidAncestor}, {ChainModel.Valid})
      {
        var tip := tips[i];
        assert tip in tips;
        InactiveTipKnown(s, tip);
        CoveredStep(s, node, tips, i, seen);
        var above := SkipSearch.IsAncestor(tip, node);
        if above {
          InvalidateBranch(tip, node, s, seen);
          seen := seen + Between(tip, node);
        }
      }
      assert tips[..|tips|] == tips;
      CoveredAll(s, node, tips, seen);
    }

    /** The best chain half: mark the nodes above `node` and collect those to detach. */
    method InvalidateAbove(node: BlockNode) returns (detach: seq<BlockNode>)
      requires Coherent() && TreeOk(State()) && node in Best(State())
      modifies `status, `dirty
      ensures Coherent()
      ensures detach == SkipInvalid(old(State()), DownTo(old(State()).tip, node.height + 1))
      ensures State() == Restatus(old(State()), Nodes(detach), {InvalidAncestor}, {ChainModel.Valid})
      ensures Known(State(), detach)
    {
      hide Path, WellBuilt, Restatus, TreeOk, DownTo, SkipInvalid, Best, KnownInvalid;
      ghost var s := State();
      detach := [];
      var n := nodes[|nodes| - 1];
      TipOnBest(s);
      HeightBelowTip(s, node);
      RestatusNothing(s, {InvalidAncestor}, {ChainModel.Valid});
      assert Nodes(detach) == {};
      while n != node
        invariant Coherent() && n in Best(s) && n.height >= node.height
        invariant Known(s, detach) && forall m :: m in detach ==> m.height > n.height
        invariant detach + SkipInvalid(s, DownTo(n, node.height + 1)) == SkipInvalid(s, DownTo(s.tip, node.height + 1))
        invariant State() == Restatus(s, Nodes(detach), {InvalidAncestor}, {ChainModel.Valid})
        decreases n.height
      {
        AboveStep(s, n, node);
        RestatusSameChain(s, Nodes(detach), {InvalidAncestor}, {ChainModel.Valid});
        RestatusAt(s, Nodes(detach), {InvalidAncestor}, {ChainModel.Valid}, n);
        if !KnownInvalid(status[n]) {
          RestatusMore(s, Nodes(detach), n, {InvalidAncestor}, {ChainModel.Valid});
          Replace(n, InvalidAncestor, ChainModel.Valid);
          assert Nodes(detach + [n]) == Nodes(detach) + {n};
          detach := detach + [n];
        }
        n := n.parent.value;
      }
      DownToEmpty(n, node.height + 1);
      SkipEmpty(s);
      RestatusSameChain(s, Nodes(detach), {InvalidAncestor}, {ChainModel.Valid});
    }

    /** Reorganize to a tip unless it is the tip already. */
    method SwitchTip(t: BlockNode, check: Verdicts, reap: Verdicts) returns (r: Outcome)
      requires Valid() && (t == nodes[|nodes| - 1] || t in ChainModel.InactiveTips(State()))
      modifies this
      ensures Coherent() && (State(), r) == SwitchTo(old(State()), t, check, reap)
    {
      hide Path, WellBuilt, TreeOk, ChainModel.InactiveTips, Flush, Reorganize, ReorganizeNodes, Steady, BestClean;
      ghost var s := State();
      if t == nodes[|nodes| - 1] {
        return Fine;
      }
      TipFacts(s);
      InactiveTipsOffBest(s, t);
      ReorganizeListsKnown(s, t);
      var detach, attach := GetReorganizeNodes(t);
      r := ReorganizeChain(detach, attach, check, reap);
      FlushToDB();
    }

    /** The tip to settle on: `t` is not known invalid, and none of the others has more work. */
    method BestTip() returns (t: BlockNode)
      requires Valid()
      ensures BestCandidate(State(), t)
    {
      hide Path, WellBuilt, TreeOk, ChainModel.InactiveTips, KnownInvalid, Steady;
      ghost var s := State();
      TipFacts(s);
      var inactive := InactiveTips();
      var tips := inactive + [nodes[|nodes| - 1]];
      CleanTip(s);
      forall m | m in tips ensures m in status
      {
        if m in ChainModel.InactiveTips(s) { InactiveTipsOffBest(s, m); }
      }
      assert s.tip in tips;
      var best, at := SelectBest(tips, status);
      t := best.value;
      if t == s.tip && at < |inactive| {
        InactiveTipsOffBest(s, t);
        ParentInPathSelf(t);
        assert false;
      }
      SelectedIsBest(s, inactive, t, at);
    }

    method InvalidateBlock(hash: Hash, check: Verdicts, reap: Verdicts) returns (r: Outcome, ghost t: BlockNode)
      requires Valid()
      modifies this
      ensures InvalidateChoice(old(State()), hash, t, check, reap)
      ensures Valid() && (State(), r) == ChainModel.InvalidateBlock(old(State()), hash, t, check, reap)
    {
      hide Path, WellBuilt, TreeOk, Restatus, Flush, Reorganize, SwitchTo, BestCandidate, KnownInvalid, Best;
      hide Inv, DownTo, SkipInvalid, Descendants, NotInvalid;
      ghost var s := State();
      t := s.tip;
      InvFacts(s);
      if hash !in index {
        return OtherError, t;
      }
      IndexedKnown(s, hash);
      var node := index[hash];
      if node.height == 0 {
        return OtherError, t;
      }
      if KnownInvalid(status[node]) {
        return Fine, t;
      }
      FirstMark(s, node);
      Replace(node, ValidateFailed, ChainModel.Valid);
      var main := Contains(node);
      OnBestIsOnPath(s, node);
      OnBestIsOnPath(State(), node);
      if !main {
        InvalidateBranches(node);
        FlushToDB();
        InvalidateKeepsInv(s, hash, t, check, reap);
        return Fine, t;
      }
      r, t := InvalidateBest(node, check, reap, s);
      InvalidateKeepsInv(s, hash, t, check, reap);
    }

    /** The best chain half of `InvalidateBlock`, once the block is marked: detach, then settle on the best tip. */
    method InvalidateBest(node: BlockNode, check: Verdicts, reap: Verdicts, ghost s: ChainState)
      returns (r: Outcome, ghost t: BlockNode)
      requires Coherent() && TreeOk(State()) && Inv(s) && node in Best(s) && node in Best(State()) && node.height > 0
      requires State() == Restatus(s, {node}, {ValidateFailed}, {ChainModel.Valid}) && node in status
      modifies this
      ensures Coherent()
      ensures var (s1, r1) := InvalidateDetach(s, node, check, reap);
              && (State(), r) == (if r1 != Fine then (s1, r1) else SwitchTo(s1, t, check, reap))
              && (r1 == Fine ==> BestCandidate(s1, t))
    {
      hide Path, WellBuilt, TreeOk, Restatus, Flush, Reorganize, SwitchTo, BestCandidate, KnownInvalid, Best;
      hide Inv, DownTo, SkipInvalid;
      ghost var s1 := State();
      RestatusSameChain(s, {node}, {ValidateFailed}, {ChainModel.Valid});
      t := s.tip;
      var above := InvalidateAbove(node);
      AboveTree(s1, above);
      r := ReorganizeChain(above + [node], [], check, reap);
      if r != Fine {
        return;
      }
      FlushToDB();
      InvalidateDetaches(s, node, check, reap);
      var best := BestTip();
      t := best;
      CandidateIsTip(State(), t);
      r := SwitchTip(best, check, reap);
    }

    /** Clear the ancestor mark from a tip down to `node`. */
    method ClearBranch(tip: BlockNode, node: BlockNode, ghost s: ChainState, ghost seen: set<BlockNode>)
      requires Coherent() && TreeOk(s) && tip in s.status && OnPath(node, tip)
      requires State() == Restatus(s, seen, {}, {InvalidAncestor})
      modifies `status, `dirty
      ensures Coherent() && State() == Restatus(s, seen + Between(tip, node), {}, {InvalidAncestor})
    {
      hide Path, WellBuilt, Restatus, TreeOk, Between;
      var n := tip;
      BetweenStart(s, tip);
      assert seen + Between(tip, tip) == seen;
      while n != node
        invariant Coherent() && OnPath(n, tip) && n.height >= node.height
        invariant State() == Restatus(s, seen + Between(tip, n), {}, {InvalidAncestor})
        decreases n.height
      {
        BetweenStep(s, tip, node, n);
        assert seen + Between(tip, n.parent.value) == seen + Between(tip, n) + {n};
        RestatusSameChain(s, seen + Between(tip, n), {}, {InvalidAncestor});
        RestatusMore(s, seen + Between(tip, n), n, {}, {InvalidAncestor});
        UnsetStatusFlags(n, InvalidAncestor);
        n := n.parent.value;
      }
    }

    /** The loop of `ReconsiderBlock`: clear every branch through `node` and keep the last tip above it. */
    method ClearBranches(node: BlockNode) returns (tip: Option<BlockNode>)
      requires Coherent() && TreeOk(State()) && node in status && node !in Best(State())
      modifies `status, `dirty
      ensures Coherent() && State() == Restatus(old(State()), Descendants(old(State()), node), {}, {InvalidAncestor})
      ensures tip.Some? && ReconsiderCandidate(old(State()), node, tip.value)
    {
      hide Path, WellBuilt, Restatus, TreeOk, Between, Best, ChainModel.InactiveTips, Descendants, ReconsiderCandidate;
      ghost var s := State();
      var inactive := InactiveTips();
      var tips := inactive + [nodes[|nodes| - 1]];
      ghost var seen: set<BlockNode> := {};
      tip := None;
      RestatusNothing(s, {}, {InvalidAncestor});
      assert tips[..0] == [];
      for i := 0 to |tips|
        invariant Coherent() && Covered(s, node, tips[..i], seen)
        invariant State() == Restatus(s, seen, {}, {InvalidAncestor})
        invariant tip.Some? ==> ReconsiderCandidate(s, node, tip.value)
        invariant tip.None? ==> forall t :: t in tips[..i] ==> !OnPath(node, t)
      {
        var t := tips[i];
        AnyTipKnown(s, inactive, t);
        CoveredStep(s, node, tips, i, seen);
        ParentInPathSelf(t);
        CandidateFrom(s, node, inactive, t);
        assert tips[..i + 1] == tips[..i] + [t];
        var above := SkipSearch.IsAncestor(t, node);
        if !above {
          if t == node {
            tip := Some(node);
          }
          continue;
        }
        tip := Some(t);
        ClearBranch(t, node, s, seen);
        seen := seen + Between(t, node);
      }
      assert tips[..|tips|] == tips;
      CoveredAll(s, node, tips, seen);
      ghost var found := TipAbove(s, node);
      assert found in tips;
    }

    /** Clear the marks on a node and below it; a tip above it is always found. */
    method ClearNode(node: BlockNode) returns (tip: Option<BlockNode>)
      requires Coherent() && Inv(State()) && node in status && !KnownValid(status[node])
      modifies `status, `dirty
      ensures Coherent() && State() == ClearMarks(old(State()), node)
      ensures tip.Some? && ReconsiderCandidate(State(), node, tip.value)
    {
      hide Path, WellBuilt, TreeOk, Restatus, KnownValid, Best, Inv, ReconsiderCandidate, Descendants;
      ClearFirst(State(), node);
      UnsetStatusFlags(node, InvalidAncestor);
      UnsetStatusFlags(node, ValidateFailed);
      tip := ClearBranches(node);
    }

    method ReconsiderBlock(hash: Hash, check: Verdicts, reap: Verdicts) returns (r: Outcome, ghost t: BlockNode)
      requires Valid()
      modifies this
      ensures ReconsiderChoice(old(State()), hash, t)
      ensures Valid() && (State(), r) == ChainModel.ReconsiderBlock(old(State()), hash, t, check, reap)
    {
      hide Path, WellBuilt, TreeOk, Restatus, Flush, Reorganize, ReorganizeNodes, Verify, KnownValid, Best;
      hide Inv, ReconsiderCandidate, ClearMarks;
      ghost var s := State();
      t := s.tip;
      InvFacts(s);
      if hash !in index {
        return OtherError, t;
      }
      IndexedKnown(s, hash);
      var node := index[hash];
      if KnownValid(status[node]) {
        return Fine, t;
      }
      var tip := ClearNode(node);
      t := tip.value;
      ReconsiderKeepsInv(s, hash, t, check, reap);
      ReconsiderTipFacts(s, node, t);
      if tip.value.work <= nodes[|nodes| - 1].work {
        return Fine, t;
      }
      r := ReconsiderTip(tip.value, check, reap);
    }

    /** Reorganize to a heavier tip, after a verification of its own. */
    method ReconsiderTip(t: BlockNode, check: Verdicts, reap: Verdicts) returns (r: Outcome)
      requires Coherent() && TreeOk(State()) && Inv(State()) && t in status && t.parent.Some?
      modifies this
      ensures Coherent()
      ensures (State(), r) == (
        var (s2, detach, attach) := ReorganizeNodes(old(State()), t);
        var (s3, v) := Verify(s2, detach, attach, check);
        if v != Fine then (Flush(s3), Fine) else Reorganize(Flush(s3), detach, attach, check, reap))
    {
      hide Path, WellBuilt, TreeOk, Restatus, Flush, Reorganize, ReorganizeNodes, Verify, Inv;
      ReorganizeListsKnown(State(), t);
      var detach, attach := GetReorganizeNodes(t);
      VerifyTree(State(), detach, attach, check);
      var v := VerifyReorganizationValidity(detach, attach, check);
      FlushToDB();
      if v != Fine {
        return Fine;
      }
      r := ReorganizeChain(detach, attach, check, reap);
    }
  }
}
