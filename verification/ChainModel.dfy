/**
  The chain state and what each operation of chain.go and accept.go makes of it.

  Verdicts of code outside the model are inputs: `check` answers for
  `checkConnectBlock`, `reap` for `checkReapGlobalPrefix`, and `context` for
  `checkBlockContext`.  Every step may come with different answers.
*/
module ChainModel {
  import opened Base
  import opened BlockNodes
  import opened Ledger
  import MedianTime
  import SkipSearch

  datatype Flag = DataStored | Valid | ValidateFailed | InvalidAncestor

  type Status = set<Flag>

  predicate KnownValid(st: Status)
  {
    Valid in st
  }

  predicate KnownInvalid(st: Status)
  {
    ValidateFailed in st || InvalidAncestor in st
  }

  /** No error, a `RuleError`, or any other error. */
  datatype Outcome = Fine | RuleError | OtherError

  type Verdicts = BlockNode -> Outcome

  datatype BestState = BestState(hash: Hash, height: nat, numTxns: nat, totalTxns: int, median: int)

  /** The chain state row of the database. */
  datatype SavedState = SavedState(hash: Hash, height: nat, totalTxns: int, work: nat)

  /** The best chain is given by its tip; `genesis` is fixed by the chain parameters. */
  datatype ChainState = ChainState(
    genesis: BlockNode,
    index: map<Hash, BlockNode>,
    status: map<BlockNode, Status>,
    dirty: set<BlockNode>,
    rows: map<BlockNode, Status>,
    tip: BlockNode,
    utxo: Utxo,
    journal: map<Hash, seq<Coin>>,
    hashToHeight: map<Hash, nat>,
    heightToHash: map<nat, Hash>,
    snapshot: BestState,
    saved: SavedState)

  function StatusOf(s: ChainState, n: BlockNode): Status
  {
    if n in s.status then s.status[n] else {}
  }

  /** The chain view: the nodes from genesis to the tip. */
  function Best(s: ChainState): seq<BlockNode>
  {
    Path(s.tip)
  }

  /** `chainView.Contains`. */
  predicate OnBest(s: ChainState, n: BlockNode)
  {
    n.height < |Best(s)| && Best(s)[n.height] == n
  }

  /** Set and unset flags on some nodes of the index; each becomes dirty. */
  function Restatus(s: ChainState, ns: set<BlockNode>, add: Status, remove: Status): ChainState
  {
    s.(status := map m | m in s.status :: if m in ns then s.status[m] + add - remove else s.status[m],
       dirty := s.dirty + ns)
  }

  /** `flushToDB`: write the rows of all dirty nodes. */
  function Flush(s: ChainState): ChainState
  {
    s.(rows := s.rows + map n | n in s.dirty :: StatusOf(s, n), dirty := {})
  }

  function Nodes(ns: seq<BlockNode>): set<BlockNode>
  {
    set n | n in ns
  }

  // ---------------------------------------------------------------------------
  // Choosing what to detach and attach

  /** Length of the longest common prefix. */
  function CommonLength(a: seq<BlockNode>, b: seq<BlockNode>): (common: nat)
    ensures common <= |a| && common <= |b| && a[..common] == b[..common]
    ensures common < |a| && common < |b| ==> a[common] != b[common]
  {
    if a == [] || b == [] || a[0] != b[0] then 0
    else
      var k := 1 + CommonLength(a[1..], b[1..]);
      assert a[..k] == [a[0]] + a[1..][..k - 1] && b[..k] == [b[0]] + b[1..][..k - 1];
      k
  }

  /** Heights at which the best chain and the branch of `n` still agree. */
  function ForkLength(s: ChainState, n: BlockNode): nat
  {
    CommonLength(Best(s), Path(n))
  }

  /** From `n` down to height `k`, by parents. */
  function DownTo(n: BlockNode, k: nat): seq<BlockNode>
    decreases n
  {
    if n.height < k then []
    else [n] + (if n.parent.Some? then DownTo(n.parent.value, k) else [])
  }

  /** The longest suffix without a known invalid node: what the walk collects before it stops. */
  function CleanSuffix(s: ChainState, ns: seq<BlockNode>): (r: seq<BlockNode>)
    ensures |r| <= |ns| && r == ns[|ns| - |r|..]
  {
    if ns == [] || KnownInvalid(StatusOf(s, ns[|ns| - 1])) then []
    else CleanSuffix(s, ns[..|ns| - 1]) + [ns[|ns| - 1]]
  }

  /** `getReorganizeNodes`. */
  function ReorganizeNodes(s: ChainState, n: BlockNode): (ChainState, seq<BlockNode>, seq<BlockNode>)
    requires n.parent.Some?
  {
    if KnownInvalid(StatusOf(s, n.parent.value)) then
      (Restatus(s, {n}, {InvalidAncestor}, {}), [], [])
    else
      var k := ForkLength(s, n);
      var attach := Path(n)[k..];
      var clean := CleanSuffix(s, attach);
      if |clean| < |attach| then (Restatus(s, Nodes(clean), {InvalidAncestor}, {}), [], [])
      else (s, DownTo(s.tip, k), attach)
  }

  // ---------------------------------------------------------------------------
  // Verification before mutation

  /** `checkConnectBlock`: a block whose inputs are missing, or which overwrites an unspent output, breaks a rule. */
  function Judge(view: Utxo, n: BlockNode, check: Verdicts): Outcome
  {
    if check(n) == OtherError then OtherError
    else if !Connectable(view, n) then RuleError
    else check(n)
  }

  function JournalEntry(s: ChainState, n: BlockNode): seq<Coin>
  {
    if n.block.hash in s.journal then s.journal[n.block.hash] else []
  }

  /** Undo a list of blocks on a view, from their journal entries. */
  function UndoAll(s: ChainState, view: Utxo, detach: seq<BlockNode>): Option<Utxo>
    decreases |detach|
  {
    if detach == [] then Some(view)
    else
      var n := detach[0];
      var coins := JournalEntry(s, n);
      if |coins| != CountSpentOutputs(n.block.txs, 0) then None
      else UndoAll(s, Undo(view, NodeEvents(n), coins), detach[1..])
  }

  function VerifyAttach(s: ChainState, view: Utxo, attach: seq<BlockNode>, check: Verdicts): (ChainState, Outcome)
    decreases |attach|
  {
    if attach == [] then (s, Fine)
    else
      var n := attach[0];
      if KnownValid(StatusOf(s, n)) then
        if InputsPresent(view, NodeEvents(n)) then VerifyAttach(s, Apply(view, NodeEvents(n)), attach[1..], check)
        else (s, OtherError)
      else match Judge(view, n, check)
        case Fine => VerifyAttach(Restatus(s, {n}, {Valid}, {}), Apply(view, NodeEvents(n)), attach[1..], check)
        case RuleError =>
          (Restatus(Restatus(s, {n}, {ValidateFailed}, {}), Nodes(attach[1..]), {InvalidAncestor}, {}), RuleError)
        case OtherError => (s, OtherError)
  }

  predicate DetachStartsAtTip(s: ChainState, detach: seq<BlockNode>)
  {
    |detach| > 0 ==> detach[0].block.hash == s.tip.block.hash
  }

  predicate SameForkPoint(detach: seq<BlockNode>, attach: seq<BlockNode>)
  {
    |detach| > 0 && |attach| > 0 ==>
      var a, d := attach[0].parent, detach[|detach| - 1].parent;
      a.Some? && d.Some? && a.value.block.hash == d.value.block.hash
  }

  /** `verifyReorganizationValidity`. */
  function Verify(s: ChainState, detach: seq<BlockNode>, attach: seq<BlockNode>, check: Verdicts): (ChainState, Outcome)
  {
    if detach == [] && attach == [] then (s, Fine)
    else if !DetachStartsAtTip(s, detach) || !SameForkPoint(detach, attach) then (s, OtherError)
    else match UndoAll(s, s.utxo, detach)
      case None => (s, OtherError)
      case Some(view) => VerifyAttach(s, view, attach, check)
  }

  // ---------------------------------------------------------------------------
  // Connecting and disconnecting

  function SnapshotOf(n: BlockNode, totalTxns: int): BestState
  {
    BestState(n.block.hash, n.height, |n.block.txs|, totalTxns, MedianTime.PastMedian(n))
  }

  /** `connectBlock`, after the unspent output set has taken the block. */
  function ConnectBlock(s: ChainState, n: BlockNode, u: Utxo, coins: seq<Coin>): (ChainState, Outcome)
  {
    if n.block.prev != s.tip.block.hash || |coins| != CountSpentOutputs(n.block.txs, 0) then
      (s.(utxo := u), OtherError)
    else
      var total := s.snapshot.totalTxns + |n.block.txs|;
      (Flush(s).(
         utxo := u,
         saved := SavedState(n.block.hash, n.height, total, n.work),
         hashToHeight := s.hashToHeight[n.block.hash := n.height],
         heightToHash := s.heightToHash[n.height := n.block.hash],
         journal := s.journal[n.block.hash := coins],
         tip := n,
         snapshot := SnapshotOf(n, total)),
       Fine)
  }

  /** `disconnectBlock`; the saved work is that of the block removed. */
  function DisconnectBlock(s: ChainState, n: BlockNode, u: Utxo): (ChainState, Outcome)
  {
    if n.block.hash != s.tip.block.hash || n.parent.None? then (s, OtherError)
    else
      var p := n.parent.value;
      var total := s.snapshot.totalTxns - |n.block.txs|;
      (Flush(s).(
         saved := SavedState(p.block.hash, p.height, total, n.work),
         hashToHeight := s.hashToHeight - {n.block.hash},
         heightToHash := s.heightToHash - {n.height},
         utxo := u,
         journal := s.journal - {n.block.hash},
         tip := p,
         snapshot := SnapshotOf(p, total)),
       Fine)
  }

  function DetachAll(s: ChainState, detach: seq<BlockNode>): (ChainState, Outcome)
    decreases |detach|
  {
    if detach == [] then (s, Fine)
    else
      var n := detach[0];
      var coins := JournalEntry(s, n);
      if |coins| != CountSpentOutputs(n.block.txs, 0) then (s, OtherError)
      else
        var (s1, r) := DisconnectBlock(s, n, Undo(s.utxo, NodeEvents(n), coins));
        if r != Fine then (s1, r) else DetachAll(s1, detach[1..])
  }

  /** The attach loop; the prefix check of a block runs only when its turn comes. */
  function AttachAll(s: ChainState, attach: seq<BlockNode>, reap: Verdicts): (ChainState, Outcome)
    decreases |attach|
  {
    if attach == [] then (s, Fine)
    else
      var n := attach[0];
      match reap(n)
      case RuleError => (Restatus(s, {n}, {ValidateFailed}, {}), RuleError)
      case OtherError => (s, OtherError)
      case Fine =>
        if !InputsPresent(s.utxo, NodeEvents(n)) then (s, OtherError)
        else
          var (s1, r) := ConnectBlock(s, n, Apply(s.utxo, NodeEvents(n)), SpentCoins(s.utxo, NodeEvents(n)));
          if r != Fine then (s1, r) else AttachAll(s1, attach[1..], reap)
  }

  /** `reorganizeChain`. */
  function Reorganize(s: ChainState, detach: seq<BlockNode>, attach: seq<BlockNode>,
                      check: Verdicts, reap: Verdicts): (ChainState, Outcome)
  {
    var (s1, r1) := Verify(s, detach, attach, check);
    if r1 != Fine then (s1, r1)
    else
      var (s2, r2) := DetachAll(s1, detach);
      if r2 != Fine then (s2, r2) else AttachAll(s2, attach, reap)
  }

  /** The states agree on everything but status flags, the dirty set and stored rows. */
  ghost predicate SameChain(s: ChainState, s': ChainState)
  {
    && s'.genesis == s.genesis && s'.index == s.index && s'.tip == s.tip && s'.utxo == s.utxo && s'.journal == s.journal
    && s'.hashToHeight == s.hashToHeight && s'.heightToHash == s.heightToHash
    && s'.snapshot == s.snapshot && s'.saved == s.saved
    && s'.status.Keys == s.status.Keys
  }

  lemma RestatusSameChain(s: ChainState, ns: set<BlockNode>, add: Status, remove: Status)
    ensures SameChain(s, Restatus(s, ns, add, remove))
  {
  }

  lemma {:induction false} VerifyAttachTouchesStatus(s: ChainState, view: Utxo, attach: seq<BlockNode>, check: Verdicts)
    ensures SameChain(s, VerifyAttach(s, view, attach, check).0)
    decreases |attach|
  {
    hide Path, NodeEvents, Apply, InputsPresent, Connectable, Judge, Restatus;
    if attach != [] {
      var n := attach[0];
      if KnownValid(StatusOf(s, n)) {
        if InputsPresent(view, NodeEvents(n)) {
          VerifyAttachTouchesStatus(s, Apply(view, NodeEvents(n)), attach[1..], check);
        }
      } else {
        match Judge(view, n, check)
        case Fine =>
          RestatusSameChain(s, {n}, {Valid}, {});
          VerifyAttachTouchesStatus(Restatus(s, {n}, {Valid}, {}), Apply(view, NodeEvents(n)), attach[1..], check);
        case RuleError =>
          RestatusSameChain(s, {n}, {ValidateFailed}, {});
          RestatusSameChain(Restatus(s, {n}, {ValidateFailed}, {}), Nodes(attach[1..]), {InvalidAncestor}, {});
        case OtherError =>
      }
    }
  }

  /** Verification changes flags and nothing else, whatever it finds. */
  lemma VerifyTouchesStatus(s: ChainState, detach: seq<BlockNode>, attach: seq<BlockNode>, check: Verdicts)
    ensures SameChain(s, Verify(s, detach, attach, check).0)
  {
    match UndoAll(s, s.utxo, detach)
    case None =>
    case Some(view) => VerifyAttachTouchesStatus(s, view, attach, check);
  }

  // ---------------------------------------------------------------------------
  // Accepting a block

  /** The end of `connectBestChain`'s first case: the block extends the tip and has been validated. */
  function ExtendTip(s: ChainState, n: BlockNode, fastAdd: bool, reap: Verdicts): (ChainState, bool, Outcome)
  {
    match reap(n)
    case RuleError => (Flush(Restatus(s, {n}, {ValidateFailed}, {})), false, RuleError)
    case OtherError => (s, false, OtherError)
    case Fine =>
      if !InputsPresent(s.utxo, NodeEvents(n)) then (s, false, OtherError)
      else
        var (s1, r) := ConnectBlock(s, n, Apply(s.utxo, NodeEvents(n)), SpentCoins(s.utxo, NodeEvents(n)));
        if r != Fine then (Flush(s1), false, r)
        else if fastAdd || !KnownValid(StatusOf(s1, n)) then (Flush(Restatus(s1, {n}, {Valid}, {})), true, Fine)
        else (s1, true, Fine)
  }

  /** `connectBestChain`: the state, whether the block counts as on the main chain, and the error. */
  function ConnectBest(s: ChainState, n: BlockNode, fast: bool, check: Verdicts, reap: Verdicts)
    : (ChainState, bool, Outcome)
    requires n.parent.Some?
  {
    if n.block.prev == s.tip.block.hash then
      if fast || KnownValid(StatusOf(s, n)) then ExtendTip(s, n, true, reap)
      else match Judge(s.utxo, n, check)
        case Fine => ExtendTip(Flush(Restatus(s, {n}, {Valid}, {})), n, false, reap)
        case RuleError => (Flush(Restatus(s, {n}, {ValidateFailed}, {})), false, RuleError)
        case OtherError => (s, false, OtherError)
    else if n.work <= s.tip.work then (s, false, Fine)
    else
      var (s1, detach, attach) := ReorganizeNodes(s, n);
      var (s2, r) := Reorganize(s1, detach, attach, check, reap);
      (Flush(s2), r == Fine, r)
  }

  /** The state with a new node, stored but not yet connected. */
  function WithNode(s: ChainState, n: BlockNode): ChainState
  {
    Flush(s.(index := s.index[n.block.hash := n], status := s.status[n := {DataStored}], dirty := s.dirty + {n}))
  }

  /** `maybeAcceptBlock`, behind the duplicate check its callers make. */
  function AcceptBlock(s: ChainState, block: Block, context: Outcome, fast: bool, check: Verdicts, reap: Verdicts)
    : (ChainState, bool, Outcome)
  {
    if block.hash in s.index then (s, false, RuleError)
    else if block.prev !in s.index then (s, false, RuleError)
    else if KnownInvalid(StatusOf(s, s.index[block.prev])) then (s, false, RuleError)
    else if context != Fine then (s, false, context)
    else
      var n := SkipSearch.NewNode(block, Some(s.index[block.prev]));
      ConnectBest(WithNode(s, n), n, fast, check, reap)
  }

  // ---------------------------------------------------------------------------
  // Invalidate and reconsider

  /** Proper descendants of `n` in the index. */
  function Descendants(s: ChainState, n: BlockNode): set<BlockNode>
  {
    set m | m in s.status && m != n && n in Path(m)
  }

  function OffBest(s: ChainState): set<BlockNode>
  {
    set m | m in s.status && !OnBest(s, m)
  }

  /** `InactiveTips`: the nodes off the best chain without a child off the best chain. */
  function InactiveTips(s: ChainState): set<BlockNode>
  {
    set m | m in OffBest(s) && forall c :: c in OffBest(s) ==> c.parent != Some(m)
  }

  function NotInvalid(s: ChainState, ns: set<BlockNode>): set<BlockNode>
  {
    set m | m in ns && !KnownInvalid(StatusOf(s, m))
  }

  /** The nodes above `n` that the walk from the tip does not skip. */
  function SkipInvalid(s: ChainState, ns: seq<BlockNode>): seq<BlockNode>
  {
    if ns == [] then []
    else (if KnownInvalid(StatusOf(s, ns[0])) then [] else [ns[0]]) + SkipInvalid(s, ns[1..])
  }

  /** First half of `InvalidateBlock` for a best chain block: mark it and what is above it, then detach. */
  function InvalidateDetach(s: ChainState, n: BlockNode, check: Verdicts, reap: Verdicts): (ChainState, Outcome)
  {
    var s1 := Restatus(s, {n}, {ValidateFailed}, {Valid});
    var above := SkipInvalid(s1, DownTo(s.tip, n.height + 1));
    var s2 := Restatus(s1, Nodes(above), {InvalidAncestor}, {Valid});
    var (s3, r) := Reorganize(s2, above + [n], [], check, reap);
    if r != Fine then (s3, r) else (Flush(s3), Fine)
  }

  /** A tip that the selection loop of `InvalidateBlock` can end with, for some order of the tips. */
  ghost predicate BestCandidate(s: ChainState, t: BlockNode)
  {
    && (t == s.tip || t in InactiveTips(s))
    && !KnownInvalid(StatusOf(s, t))
    && (forall m :: m in InactiveTips(s) && !KnownInvalid(StatusOf(s, m)) ==> m.work <= t.work)
    && (t in InactiveTips(s) ==> !KnownInvalid(StatusOf(s, s.tip)) ==> s.tip.work <= t.work)
    && (t == s.tip ==> forall m :: m in InactiveTips(s) && !KnownInvalid(StatusOf(s, m)) ==> m.work < t.work)
  }

  /** Switch to a candidate tip if it is not the tip already. */
  function SwitchTo(s: ChainState, t: BlockNode, check: Verdicts, reap: Verdicts): (ChainState, Outcome)
  {
    if t == s.tip || t.parent.None? then (s, Fine)
    else
      var (s1, detach, attach) := ReorganizeNodes(s, t);
      var (s2, r) := Reorganize(s1, detach, attach, check, reap);
      (Flush(s2), r)
  }

  /** `InvalidateBlock`; `t` is the tip its selection loop ends with. */
  function InvalidateBlock(s: ChainState, hash: Hash, t: BlockNode, check: Verdicts, reap: Verdicts)
    : (ChainState, Outcome)
  {
    if hash !in s.index || s.index[hash].height == 0 then (s, OtherError)
    else
      var n := s.index[hash];
      if KnownInvalid(StatusOf(s, n)) then (s, Fine)
      else if !OnBest(s, n) then
        var s1 := Restatus(s, {n}, {ValidateFailed}, {Valid});
        (Flush(Restatus(s1, NotInvalid(s1, Descendants(s1, n)), {InvalidAncestor}, {Valid})), Fine)
      else
        var (s1, r) := InvalidateDetach(s, n, check, reap);
        if r != Fine then (s1, r) else SwitchTo(s1, t, check, reap)
  }

  /** First half of `ReconsiderBlock`: clear the marks on the block and below it. */
  function ClearMarks(s: ChainState, n: BlockNode): ChainState
  {
    Restatus(Restatus(s, {n}, {}, {InvalidAncestor, ValidateFailed}), Descendants(s, n), {}, {InvalidAncestor})
  }

  /** A tip `ReconsiderBlock` can end with, for some order of the tips. */
  ghost predicate ReconsiderCandidate(s: ChainState, n: BlockNode, t: BlockNode)
  {
    (t == s.tip || t in InactiveTips(s)) && n in Path(t)
  }

  /** `ReconsiderBlock`; `t` is the tip its loop ends with. */
  function ReconsiderBlock(s: ChainState, hash: Hash, t: BlockNode, check: Verdicts, reap: Verdicts)
    : (ChainState, Outcome)
  {
    if hash !in s.index then (s, OtherError)
    else
      var n := s.index[hash];
      if KnownValid(StatusOf(s, n)) then (s, Fine)
      else
        var s1 := ClearMarks(s, n);
        if t.work <= s.tip.work || t.parent.None? then (s1, Fine)
        else
          var (s2, detach, attach) := ReorganizeNodes(s1, t);
          var (s3, r) := Verify(s2, detach, attach, check);
          var s4 := Flush(s3);
          if r != Fine then (s4, Fine) else Reorganize(s4, detach, attach, check, reap)
  }
}
