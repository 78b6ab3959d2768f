/** What every chain operation keeps. */
module ChainInvariants {
  import opened Base
  import opened BlockNodes
  import opened Ledger
  import opened ChainModel
  import MedianTime

  /** A node is genesis or has its parent among the nodes. */
  ghost predicate Rooted(nodes: set<BlockNode>, genesis: BlockNode, n: BlockNode)
  {
    match n.parent
    case None => n == genesis
    case Some(p) => p in nodes
  }

  /** The index finds exactly these nodes, each under its own hash. */
  ghost predicate IndexedByHash(index: map<Hash, BlockNode>, nodes: set<BlockNode>)
  {
    && (forall h :: h in index ==> index[h] in nodes && index[h].block.hash == h)
    && (forall n :: n in nodes ==> n.block.hash in index && index[n.block.hash] == n)
  }

  /** The index is one tree rooted at genesis, found by hash, and holds the tip. */
  ghost predicate TreeOk(s: ChainState)
  {
    && IndexedByHash(s.index, s.status.Keys)
    && (forall n {:trigger WellBuilt(n)} :: n in s.status ==> WellBuilt(n))
    && (forall n {:trigger Rooted(s.status.Keys, s.genesis, n)} ::
          n in s.status ==> Rooted(s.status.Keys, s.genesis, n))
    && s.tip in s.status
  }

  /** The spend journal of the chain that ends at `n`. */
  function JournalMap(n: BlockNode): map<Hash, seq<Coin>>
    requires Sound(n)
    decreases n
  {
    match n.parent
    case None => map[]
    case Some(p) => JournalMap(p)[n.block.hash := JournalOf(n)]
  }

  function HashIndex(n: BlockNode): map<Hash, nat>
    decreases n
  {
    (if n.parent.Some? then HashIndex(n.parent.value) else map[])[n.block.hash := n.height]
  }

  function HeightIndex(n: BlockNode): map<nat, Hash>
    decreases n
  {
    (if n.parent.Some? then HeightIndex(n.parent.value) else map[])[n.height := n.block.hash]
  }

  /** Everything derived from the best chain is what replaying it from genesis gives. */
  ghost predicate LedgerOk(s: ChainState)
  {
    var t := s.tip;
    && Sound(t)
    && s.utxo == Replay(t)
    && s.journal == JournalMap(t)
    && s.hashToHeight == HashIndex(t)
    && s.heightToHash == HeightIndex(t)
    && s.snapshot == SnapshotOf(t, TotalTxns(t))
    && s.saved.hash == t.block.hash && s.saved.height == t.height && s.saved.totalTxns == TotalTxns(t)
  }

  /** A node marked valid, in memory or in its stored row, stands on a chain whose every block could be connected. */
  ghost predicate ValidSound(s: ChainState)
  {
    && (forall n :: n in s.status && KnownValid(s.status[n]) ==> Sound(n))
    && (forall n :: n in s.rows && KnownValid(s.rows[n]) ==> Sound(n))
  }

  /** A node that is not dirty has its current status stored. */
  ghost predicate StoreOk(s: ChainState)
  {
    && s.dirty <= s.status.Keys
    && s.rows.Keys == s.status.Keys
    && (forall n :: n in s.status && n !in s.dirty ==> n in s.rows && s.rows[n] == s.status[n])
  }

  /** Holds throughout every operation, after each block on or off the best chain. */
  ghost predicate Steady(s: ChainState)
  {
    TreeOk(s) && LedgerOk(s) && ValidSound(s) && StoreOk(s)
  }

  /** Best chain nodes are known valid and none is known invalid. */
  ghost predicate BestClean(s: ChainState)
  {
    forall n :: n in Best(s) ==> KnownValid(StatusOf(s, n)) && !KnownInvalid(StatusOf(s, n))
  }

  /** Holds between operations. */
  ghost predicate Inv(s: ChainState)
  {
    Steady(s) && BestClean(s)
  }

  /** What the invariants say about the tip. */
  lemma TipFacts(s: ChainState)
    requires Steady(s)
    ensures TreeOk(s) && LedgerOk(s) && ValidSound(s) && StoreOk(s)
    ensures s.tip in s.status && WellBuilt(s.tip) && Sound(s.tip) && s.utxo == Replay(s.tip)
  {
    hide Path, WalkBack, AncestorHeight, JournalMap, NodeEvents;
  }

  lemma InvFacts(s: ChainState)
    requires Inv(s)
    ensures Steady(s) && TreeOk(s) && BestClean(s) && s.tip in s.status
  {
    hide Path, WellBuilt, LedgerOk, ValidSound, StoreOk, BestClean;
  }

  lemma TreeTip(s: ChainState)
    requires TreeOk(s)
    ensures s.tip in s.status && WellBuilt(s.tip)
  {
    hide Path, WalkBack, AncestorHeight;
  }

  // ---------------------------------------------------------------------------
  // The tree

  lemma IndexedKnown(s: ChainState, h: Hash)
    requires TreeOk(s) && h in s.index
    ensures s.index[h] in s.status && s.index[h].block.hash == h
  {
    hide Path, WellBuilt;
  }

  lemma FoundByHash(s: ChainState, n: BlockNode)
    requires TreeOk(s) && n in s.status
    ensures n.block.hash in s.index && s.index[n.block.hash] == n
  {
    hide Path, WellBuilt;
  }

  lemma ParentKnown(s: ChainState, n: BlockNode)
    requires TreeOk(s) && n in s.status
    ensures WellBuilt(n)
    ensures n.parent.Some? ==> n.parent.value in s.status
    ensures n.parent.None? ==> n == s.genesis
  {
    hide Path, WalkBack, AncestorHeight;
    assert Rooted(s.status.Keys, s.genesis, n);
  }

  lemma {:induction false} PathKnown(s: ChainState, n: BlockNode)
    requires TreeOk(s) && n in s.status
    ensures forall m :: m in Path(n) ==> m in s.status
    ensures Path(n)[0] == s.genesis
    decreases n
  {
    hide TreeOk, WellBuilt;
    ParentKnown(s, n);
    if n.parent.Some? {
      PathKnown(s, n.parent.value);
    }
  }

  lemma OnBestIsOnPath(s: ChainState, n: BlockNode)
    requires TreeOk(s)
    ensures OnBest(s, n) <==> n in Best(s)
  {
    hide TreeOk, WellBuilt, Path;
    TreeTip(s);
    OnPathByHeight(n, s.tip);
  }

  /** A node off the best chain has a parent, and its descendants are off it too. */
  lemma OffBestUpward(s: ChainState, n: BlockNode, m: BlockNode)
    requires TreeOk(s) && m in s.status && n in Path(m) && n !in Best(s)
    ensures m !in Best(s) && n in s.status && n.parent.Some?
  {
    hide TreeOk, WellBuilt;
    TreeTip(s);
    PathKnown(s, m);
    PathKnown(s, s.tip);
    ParentKnown(s, n);
    if m in Best(s) {
      OnPathTransitive(n, m, s.tip);
    }
  }

  lemma {:induction false} HashIndexHolds(n: BlockNode, m: BlockNode)
    requires m in Path(n)
    ensures m.block.hash in HashIndex(n)
    decreases n
  {
    if m != n {
      HashIndexHolds(n.parent.value, m);
    }
  }

  lemma {:induction false} HashIndexOnly(n: BlockNode, h: Hash) returns (m: BlockNode)
    requires h in HashIndex(n)
    ensures m in Path(n) && m.block.hash == h
    decreases n
  {
    if h == n.block.hash {
      m := n;
    } else {
      m := HashIndexOnly(n.parent.value, h);
    }
  }

  lemma {:induction false} JournalKeys(n: BlockNode)
    requires Sound(n)
    ensures JournalMap(n).Keys <= HashIndex(n).Keys
    decreases n
  {
    if n.parent.Some? {
      JournalKeys(n.parent.value);
    }
  }

  lemma {:induction false} HeightIndexKeys(n: BlockNode)
    requires WellBuilt(n)
    ensures forall k :: k in HeightIndex(n) <==> 0 <= k <= n.height
    decreases n
  {
    if n.parent.Some? {
      HeightIndexKeys(n.parent.value);
    }
  }

  /** A node's hash and height occur nowhere below it. */
  lemma FreshAbove(s: ChainState, n: BlockNode)
    requires TreeOk(s) && n in s.status && n.parent.Some?
    ensures n.block.hash !in HashIndex(n.parent.value)
    ensures n.height !in HeightIndex(n.parent.value)
  {
    hide Path, HashIndex, HeightIndex, WalkBack, AncestorHeight;
    var p := n.parent.value;
    ParentKnown(s, n);
    HeightIndexKeys(p);
    if n.block.hash in HashIndex(p) {
      var m := HashIndexOnly(p, n.block.hash);
      PathKnown(s, p);
      OnPathByHeight(m, p);
    }
  }

  // ---------------------------------------------------------------------------
  // Parts of the invariant under each kind of change

  /** The parts of a state that connecting and disconnecting leave alone. */
  ghost predicate SameIndex(s: ChainState, s': ChainState)
  {
    s'.genesis == s.genesis && s'.index == s.index && s'.status == s.status
  }

  lemma TreeMoves(s: ChainState, s': ChainState)
    requires TreeOk(s) && SameIndex(s, s') && s'.tip in s.status
    ensures TreeOk(s')
  {
    hide Path, WellBuilt;
  }

  lemma FlushStores(s: ChainState, s': ChainState)
    requires StoreOk(s) && s'.status == s.status && s'.dirty == {} && s'.rows == Flush(s).rows
    ensures StoreOk(s')
  {
  }

  /** The states agree on the best chain and everything derived from it. */
  ghost predicate SameLedger(s: ChainState, s': ChainState)
  {
    && s'.tip == s.tip && s'.utxo == s.utxo && s'.journal == s.journal
    && s'.hashToHeight == s.hashToHeight && s'.heightToHash == s.heightToHash
    && s'.snapshot == s.snapshot && s'.saved == s.saved
  }

  lemma LedgerSame(s: ChainState, s': ChainState)
    requires LedgerOk(s) && SameLedger(s, s')
    ensures LedgerOk(s')
  {
    hide Path, Sound, JournalMap;
  }

  lemma ValidMoves(s: ChainState, s': ChainState)
    requires ValidSound(s) && s'.status == s.status && s'.rows == Flush(s).rows
    ensures ValidSound(s')
  {
    hide Sound;
  }

  /** A flush touches stored rows and the dirty set only. */
  lemma FlushFields(s: ChainState)
    ensures Flush(s) == s.(rows := Flush(s).rows, dirty := {})
  {
  }

  lemma FlushKeeps(s: ChainState)
    requires Steady(s)
    ensures Steady(Flush(s)) && SameChain(s, Flush(s)) && Flush(s).status == s.status
    ensures BestClean(s) ==> BestClean(Flush(s))
  {
    hide TreeOk, LedgerOk, ValidSound, StoreOk, Path;
    TreeTip(s);
    TreeMoves(s, Flush(s));
    LedgerSame(s, Flush(s));
    ValidMoves(s, Flush(s));
    FlushStores(s, Flush(s));
  }

  lemma TreeRestatus(s: ChainState, s': ChainState)
    requires TreeOk(s) && SameChain(s, s')
    ensures TreeOk(s')
  {
    hide Path, WellBuilt;
  }

  /** Changing flags of indexed nodes, as long as only sound nodes become valid. */
  lemma RestatusKeeps(s: ChainState, ns: set<BlockNode>, add: Status, remove: Status)
    requires Steady(s) && ns <= s.status.Keys
    requires Valid in add ==> forall n :: n in ns ==> Sound(n)
    ensures Steady(Restatus(s, ns, add, remove)) && SameChain(s, Restatus(s, ns, add, remove))
  {
    hide TreeOk, LedgerOk, Path, Sound;
    TreeRestatus(s, Restatus(s, ns, add, remove));
    LedgerSame(s, Restatus(s, ns, add, remove));
  }

  lemma RestatusAt(s: ChainState, ns: set<BlockNode>, add: Status, remove: Status, m: BlockNode)
    requires m in s.status
    ensures m in Restatus(s, ns, add, remove).status
    ensures Restatus(s, ns, add, remove).status[m] == if m in ns then s.status[m] + add - remove else s.status[m]
  {
  }

  // ---------------------------------------------------------------------------
  // One block on, one block off

  /** `connectBlock` with the outcome of connecting the block's transactions. */
  function ConnectNode(s: ChainState, n: BlockNode): (ChainState, Outcome)
    requires InputsPresent(s.utxo, NodeEvents(n))
  {
    ConnectBlock(s, n, Apply(s.utxo, NodeEvents(n)), SpentCoins(s.utxo, NodeEvents(n)))
  }

  lemma ConnectLedger(s: ChainState, n: BlockNode)
    requires LedgerOk(s) && WellBuilt(n) && n.parent == Some(s.tip) && Connectable(s.utxo, n)
    ensures ConnectNode(s, n).1 == Fine && LedgerOk(ConnectNode(s, n).0)
  {
    hide Path, NodeEvents, Apply, InputsPresent, Overwritten, MedianTime.PastMedian, SpentCoins;
  }

  lemma SoundConnectable(s: ChainState, n: BlockNode)
    requires LedgerOk(s) && n.parent == Some(s.tip) && Sound(n)
    ensures Connectable(s.utxo, n) && InputsPresent(s.utxo, NodeEvents(n))
  {
    hide NodeEvents, InputsPresent, Overwritten, JournalMap;
  }

  lemma ConnectKeeps(s: ChainState, n: BlockNode)
    requires Steady(s) && n in s.status && n.parent == Some(s.tip) && Sound(n)
    ensures Connectable(s.utxo, n)
    ensures ConnectNode(s, n).1 == Fine && Steady(ConnectNode(s, n).0)
    ensures SameIndex(s, ConnectNode(s, n).0) && ConnectNode(s, n).0.tip == n
    ensures ConnectNode(s, n).0.saved.work == n.work
  {
    hide Path, WellBuilt, NodeEvents, Apply, InputsPresent, SpentCoins, Sound, LedgerOk, TreeOk, ValidSound, StoreOk;
    hide Connectable;
    ParentKnown(s, n);
    SoundConnectable(s, n);
    ConnectLedger(s, n);
    var s' := ConnectNode(s, n).0;
    TreeMoves(s, s');
    ValidMoves(s, s');
    FlushStores(s, s');
  }

  /** Dropping the last block's entries leaves those of the chain below it. */
  lemma EntriesBelow(s: ChainState, n: BlockNode)
    requires TreeOk(s) && n in s.status && n.parent.Some? && Sound(n)
    ensures JournalMap(n) - {n.block.hash} == JournalMap(n.parent.value)
    ensures HashIndex(n) - {n.block.hash} == HashIndex(n.parent.value)
    ensures HeightIndex(n) - {n.height} == HeightIndex(n.parent.value)
  {
    hide TreeOk, WellBuilt, JournalOf, NodeEvents;
    FreshAbove(s, n);
    JournalKeys(n.parent.value);
  }

  /** `disconnectBlock` with the outcome of undoing the tip from its journal entry. */
  function DisconnectTip(s: ChainState): (ChainState, Outcome)
    requires |JournalEntry(s, s.tip)| == CountSpentOutputs(s.tip.block.txs, 0)
  {
    DisconnectBlock(s, s.tip, Undo(s.utxo, NodeEvents(s.tip), JournalEntry(s, s.tip)))
  }

  lemma DisconnectLedger(s: ChainState)
    requires TreeOk(s) && LedgerOk(s) && s.tip.parent.Some?
    ensures |JournalEntry(s, s.tip)| == CountSpentOutputs(s.tip.block.txs, 0)
    ensures DisconnectTip(s).1 == Fine && LedgerOk(DisconnectTip(s).0)
  {
    hide Path, WellBuilt, NodeEvents, InputsPresent, Undo, MedianTime.PastMedian, TreeOk;
    var n := s.tip;
    TreeTip(s);
    assert s.journal == JournalMap(n) && JournalEntry(s, n) == JournalOf(n);
    UndoReplay(n);
    EntriesBelow(s, n);
    assert Undo(s.utxo, NodeEvents(n), JournalEntry(s, n)) == Replay(n.parent.value);
  }

  lemma DisconnectKeeps(s: ChainState)
    requires Steady(s) && s.tip.parent.Some?
    ensures |JournalEntry(s, s.tip)| == CountSpentOutputs(s.tip.block.txs, 0)
    ensures DisconnectTip(s).1 == Fine && Steady(DisconnectTip(s).0)
    ensures SameIndex(s, DisconnectTip(s).0) && DisconnectTip(s).0.tip == s.tip.parent.value
    ensures DisconnectTip(s).0.saved.work == s.tip.work
  {
    hide Path, WellBuilt, NodeEvents, Undo, Sound, LedgerOk, TreeOk, JournalEntry, ValidSound, StoreOk;
    DisconnectLedger(s);
    TreeTip(s);
    ParentKnown(s, s.tip);
    var s' := DisconnectTip(s).0;
    TreeMoves(s, s');
    ValidMoves(s, s');
    FlushStores(s, s');
  }
}
