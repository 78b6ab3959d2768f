/** Reorganization: verification before mutation, then detaching and attaching. */
module ChainReorg {
  import opened Base
  import opened BlockNodes
  import opened Ledger
  import opened UnspentOutputs
  import opened ChainModel
  import opened ChainInvariants

  // ---------------------------------------------------------------------------
  // Linked nodes and paths

  /** Consecutive children starting from `prev`. */
  ghost predicate Linked(prev: BlockNode, ns: seq<BlockNode>)
    decreases |ns|
  {
    ns == [] || (ns[0].parent == Some(prev) && Linked(ns[0], ns[1..]))
  }

  ghost predicate Known(s: ChainState, ns: seq<BlockNode>)
  {
    forall n :: n in ns ==> n in s.status
  }

  ghost predicate AllSound(ns: seq<BlockNode>)
  {
    forall n :: n in ns ==> Sound(n)
  }

  /** The node a chain of links ends at. */
  function Last(prev: BlockNode, ns: seq<BlockNode>): BlockNode
  {
    if ns == [] then prev else ns[|ns| - 1]
  }

  lemma {:induction false} LinkedPath(prev: BlockNode, ns: seq<BlockNode>)
    requires Linked(prev, ns)
    ensures Path(Last(prev, ns)) == Path(prev) + ns
    decreases |ns|
  {
    if ns != [] {
      LinkedPath(ns[0], ns[1..]);
      assert Path(prev) + ns == Path(prev) + [ns[0]] + ns[1..];
    }
  }

  lemma {:induction false} LinkedPrefix(prev: BlockNode, ns: seq<BlockNode>, i: nat)
    requires Linked(prev, ns) && i <= |ns|
    ensures Linked(prev, ns[..i])
    ensures i < |ns| ==> ns[i].parent == Some(Last(prev, ns[..i]))
    decreases |ns|
  {
    if i > 0 {
      LinkedPrefix(ns[0], ns[1..], i - 1);
      assert ns[..i][1..] == ns[1..][..i - 1];
    }
  }

  /** The nodes of a path above one of its nodes are linked to it. */
  lemma {:induction false} PathLinked(n: BlockNode, k: nat)
    requires WellBuilt(n) && 1 <= k <= |Path(n)|
    ensures Linked(Path(n)[k - 1], Path(n)[k..])
    decreases |Path(n)| - k
  {
    hide Path, WellBuilt;
    if k < |Path(n)| {
      PathAt(n, k);
      PathLinked(n, k + 1);
      assert Path(n)[k..][1..] == Path(n)[k + 1..];
    }
  }

  // ---------------------------------------------------------------------------
  // Detaching

  lemma DownToSplit(n: BlockNode, k: nat)
    requires n.parent.Some? && k <= n.height
    ensures DownTo(n, k) == [n] + DownTo(n.parent.value, k)
    ensures DownTo(n, k)[1..] == DownTo(n.parent.value, k)
  {
  }

  /** Detaching down to a height succeeds and ends at the ancestor just below it. */
  lemma {:induction false} DetachKeeps(s: ChainState, k: nat)
    requires Steady(s) && 1 <= k <= |Best(s)|
    ensures DetachAll(s, DownTo(s.tip, k)).1 == Fine
    ensures Steady(DetachAll(s, DownTo(s.tip, k)).0) && SameIndex(s, DetachAll(s, DownTo(s.tip, k)).0)
    ensures DetachAll(s, DownTo(s.tip, k)).0.tip == Best(s)[k - 1]
    decreases s.tip
  {
    hide Steady, Undo, NodeEvents, JournalEntry, DisconnectBlock, WellBuilt;
    var t := s.tip;
    TipFacts(s);
    PathLength(t);
    if t.height >= k {
      DisconnectKeeps(s);
      var s1 := DisconnectTip(s).0;
      DownToSplit(t, k);
      DetachKeeps(s1, k);
      assert DetachAll(s, DownTo(t, k)) == DetachAll(s1, DownTo(s1.tip, k));
    }
  }

  // ---------------------------------------------------------------------------
  // Attaching

  lemma AttachOne(s: ChainState, attach: seq<BlockNode>, reap: Verdicts) returns (s1: ChainState)
    requires Steady(s) && attach != [] && reap(attach[0]) == Fine
    requires attach[0] in s.status && attach[0].parent == Some(s.tip) && Sound(attach[0])
    ensures Steady(s1) && SameIndex(s, s1) && s1.tip == attach[0]
    ensures AttachAll(s, attach, reap) == AttachAll(s1, attach[1..], reap)
  {
    var n := attach[0];
    hide Steady, NodeEvents, Apply, SpentCoins, InputsPresent, ConnectBlock, Sound;
    ConnectKeeps(s, n);
    s1 := ConnectNode(s, n).0;
  }

  /** The attach loop got through at `i == |attach|`, or stopped at the prefix check of `attach[i]`. */
  ghost predicate AttachedUpTo(s: ChainState, attach: seq<BlockNode>, reap: Verdicts, i: nat, s': ChainState,
          r: Outcome)
  {
    && i <= |attach|
    && (forall j :: 0 <= j < i ==> reap(attach[j]) == Fine)
    && r == (if i < |attach| then reap(attach[i]) else Fine)
    && (r == Fine ==> i == |attach|)
    && Steady(s') && s'.genesis == s.genesis && s'.index == s.index
    && s'.tip == Last(s.tip, attach[..i])
    && s'.status == (if r == RuleError then Restatus(s, {attach[i]}, {ValidateFailed}, {}).status else s.status)
  }

  lemma RestatusDepends(s: ChainState, s1: ChainState, ns: set<BlockNode>, add: Status)
    requires s1.status == s.status
    ensures Restatus(s, ns, add, {}).status == Restatus(s1, ns, add, {}).status
  {
  }

  lemma AttachedShift(s: ChainState, s1: ChainState, attach: seq<BlockNode>, reap: Verdicts, j: nat,
          s': ChainState, r: Outcome)
    requires attach != [] && reap(attach[0]) == Fine && SameIndex(s, s1) && s1.tip == attach[0]
    requires AttachedUpTo(s1, attach[1..], reap, j, s', r)
    ensures AttachedUpTo(s, attach, reap, j + 1, s', r)
  {
    hide Steady, Restatus;
    var rest := attach[1..];
    assert attach[..j + 1] == [attach[0]] + rest[..j];
    assert j < |rest| ==> rest[j] == attach[j + 1];
    if j < |rest| {
      RestatusDepends(s, s1, {rest[j]}, {ValidateFailed});
    }
    forall i | 0 <= i < j + 1 ensures reap(attach[i]) == Fine
    {
      if i > 0 { assert attach[i] == rest[i - 1]; }
    }
  }

  /**
    Attaching sound blocks: all of them, or up to the first one whose prefix check
    fails, which alone is marked.  Either way the ledger is the replay of the tip.
  */
  lemma {:induction false} AttachKeeps(s: ChainState, attach: seq<BlockNode>, reap: Verdicts) returns (i: nat)
    requires Steady(s) && Known(s, attach) && Linked(s.tip, attach) && AllSound(attach)
    ensures AttachedUpTo(s, attach, reap, i, AttachAll(s, attach, reap).0, AttachAll(s, attach, reap).1)
    decreases |attach|
  {
    hide Steady, Sound, NodeEvents, InputsPresent, ConnectBlock, Apply, SpentCoins;
    i := 0;
    if attach != [] {
      var n := attach[0];
      assert n in attach;
      match reap(n)
      case Fine =>
        var s1 := AttachOne(s, attach, reap);
        var j := AttachKeeps(s1, attach[1..], reap);
        AttachedShift(s, s1, attach, reap, j, AttachAll(s1, attach[1..], reap).0, AttachAll(s1, attach[1..], reap).1);
        i := j + 1;
      case RuleError =>
        RestatusKeeps(s, {n}, {ValidateFailed}, {});
      case OtherError =>
    }
  }

  // ---------------------------------------------------------------------------
  // Undoing on a view

  lemma {:induction false} JournalAt(s: ChainState, t: BlockNode, m: BlockNode)
    requires TreeOk(s) && t in s.status && Sound(t) && m in Path(t) && m.parent.Some?
    ensures Sound(m) && m.block.hash in JournalMap(t) && JournalMap(t)[m.block.hash] == JournalOf(m)
    decreases t
  {
    hide TreeOk, WellBuilt, NodeEvents, InputsPresent, JournalOf, HashIndex;
    ParentKnown(s, t);
    if m != t {
      JournalAt(s, t.parent.value, m);
      FreshAbove(s, t);
      HashIndexHolds(t.parent.value, m);
    }
  }

  lemma BestJournal(s: ChainState, m: BlockNode)
    requires Steady(s) && m in Best(s) && m.parent.Some?
    ensures Sound(m) && JournalEntry(s, m) == JournalOf(m)
  {
    hide TreeOk, Sound, Path, JournalMap, JournalOf;
    TipFacts(s);
    JournalAt(s, s.tip, m);
  }

  lemma BestBelow(s: ChainState, n: BlockNode)
    requires TreeOk(s) && n in Best(s)
    ensures n.height < |Best(s)| && Best(s)[n.height] == n
    ensures n.height > 0 ==> n.parent.Some? && n.parent.value in Best(s) && n.parent.value.height == n.height - 1
  {
    hide TreeOk, WellBuilt, Path;
    TreeTip(s);
    OnPathByHeight(n, s.tip);
    PathAt(s.tip, n.height);
    if n.height > 0 {
      PathAt(s.tip, n.height - 1);
    }
  }

  lemma UndoAllStep(s: ChainState, view: Utxo, n: BlockNode, rest: seq<BlockNode>)
    requires |JournalEntry(s, n)| == CountSpentOutputs(n.block.txs, 0)
    ensures UndoAll(s, view, [n] + rest) == UndoAll(s, Undo(view, NodeEvents(n), JournalEntry(s, n)), rest)
  {
    hide NodeEvents, Undo;
    assert ([n] + rest)[1..] == rest;
  }

  /** Undoing the best chain down to a height gives the replay just below it. */
  lemma {:induction false} UndoAllReplays(s: ChainState, n: BlockNode, k: nat)
    requires Steady(s) && n in Best(s) && 1 <= k <= n.height + 1 && k <= |Best(s)|
    ensures UndoAll(s, Replay(n), DownTo(n, k)) == Some(Replay(Best(s)[k - 1]))
    decreases n
  {
    hide Steady, Best, NodeEvents, Undo, Replay, JournalEntry, Sound, JournalOf;
    TipFacts(s);
    BestBelow(s, n);
    if n.height >= k {
      var p := n.parent.value;
      BestJournal(s, n);
      UndoReplay(n);
      UndoAllReplays(s, p, k);
      DownToSplit(n, k);
      UndoAllStep(s, Replay(n), n, DownTo(p, k));
    } else {
      assert DownTo(n, k) == [];
    }
  }

  // ---------------------------------------------------------------------------
  // Verification

  /** The flags verification leaves on `m` when it stopped at position `i` with result `r`. */
  function VerifyMark(st: Status, m: BlockNode, attach: seq<BlockNode>, i: nat, r: Outcome): Status
    requires i <= |attach|
  {
    st
    + (if m in attach[..i] then {Valid} else {})
    + (if r == RuleError && i < |attach| && m == attach[i] then {ValidateFailed} else {})
    + (if r == RuleError && i < |attach| && m in attach[i + 1..] then {InvalidAncestor} else {})
  }

  /** The verdict on a block, against the replay of the chain below it. */
  function VerdictOn(n: BlockNode, check: Verdicts): Outcome
  {
    Judge(if n.parent.Some? then Replay(n.parent.value) else map[], n, check)
  }

  /** Fine exactly if the check is and the block fits the chain below it; only the check can end without a verdict. */
  lemma VerdictIs(n: BlockNode, check: Verdicts)
    requires n.parent.Some?
    ensures VerdictOn(n, check) == Fine <==> check(n) == Fine && Fits(Replay(n.parent.value), n.block.txs)
    ensures VerdictOn(n, check) == OtherError <==> check(n) == OtherError
  {
    hide Connectable, Fits;
    FitsIff(Replay(n.parent.value), n);
  }

  /** A block verification does not stop at. */
  predicate Passes(s: ChainState, n: BlockNode, check: Verdicts)
  {
    KnownValid(StatusOf(s, n)) || VerdictOn(n, check) == Fine
  }

  /** Verification passed the first `i` blocks and stopped there, or got through at `i == |attach|`. */
  ghost predicate VerifiedUpTo(s: ChainState, attach: seq<BlockNode>, check: Verdicts, i: nat, s': ChainState,
          r: Outcome)
  {
    && i <= |attach|
    && (forall j :: 0 <= j < i ==> Passes(s, attach[j], check))
    && (i < |attach| ==> !Passes(s, attach[i], check))
    && r == (if i < |attach| then VerdictOn(attach[i], check) else Fine)
    && Steady(s')
    && SameChain(s, s')
    && (forall m :: m in s.status ==> s'.status[m] == VerifyMark(s.status[m], m, attach, i, r))
    && AllSound(attach[..i])
  }

  lemma MarkShift(st: Status, m: BlockNode, attach: seq<BlockNode>, j: nat, r: Outcome)
    requires attach != [] && j <= |attach| - 1
    ensures VerifyMark(st + (if m == attach[0] then {Valid} else {}), m, attach[1..], j, r)
            == VerifyMark(st, m, attach, j + 1, r)
  {
    var rest := attach[1..];
    assert attach[..j + 1] == [attach[0]] + rest[..j];
    assert j < |rest| ==> rest[j] == attach[j + 1] && rest[j + 1..] == attach[j + 2..];
  }

  lemma VerifiedShift(s: ChainState, s1: ChainState, attach: seq<BlockNode>, check: Verdicts, j: nat,
          s': ChainState, r: Outcome)
    requires attach != [] && Sound(attach[0]) && SameChain(s, s1) && Passes(s, attach[0], check)
    requires forall m :: m in s.status ==> s1.status[m] == s.status[m] + (if m == attach[0] then {Valid} else {})
    requires VerifiedUpTo(s1, attach[1..], check, j, s', r)
    ensures VerifiedUpTo(s, attach, check, j + 1, s', r)
  {
    hide Steady, Sound, VerifyMark, VerdictOn, Passes, SameChain;
    var rest := attach[1..];
    assert j < |rest| ==> rest[j] == attach[j + 1];
    SameChainTrans(s, s1, s');
    SameChainKeys(s, s1);
    forall i | 0 <= i < |attach| ensures i > 0 ==> attach[i] == rest[i - 1]
      ensures i > 0 ==> (attach[i] != attach[0] ==> (Passes(s, attach[i], check) <==> Passes(s1, attach[i], check)))
      ensures i > 0 ==> attach[i] == attach[0] ==> Passes(s, attach[i], check) && Passes(s1, attach[i], check)
    {
      PassesAlike(s, s1, attach[0], attach[i], check);
    }
    forall m | m in s.status ensures s'.status[m] == VerifyMark(s.status[m], m, attach, j + 1, r)
    {
      MarkShift(s.status[m], m, attach, j, r);
    }
    assert attach[..j + 1] == [attach[0]] + attach[1..][..j];
  }

  /** Marking one block as valid decides nothing about another. */
  lemma PassesAlike(s: ChainState, s1: ChainState, n: BlockNode, m: BlockNode, check: Verdicts)
    requires s1.status.Keys == s.status.Keys && Passes(s, n, check)
    requires forall x :: x in s.status ==> s1.status[x] == s.status[x] + (if x == n then {Valid} else {})
    ensures m != n ==> (Passes(s, m, check) <==> Passes(s1, m, check))
    ensures m == n ==> Passes(s, m, check) && Passes(s1, m, check)
  {
    hide VerdictOn;
  }

  lemma VerifyFails(s: ChainState, attach: seq<BlockNode>, check: Verdicts)
    requires Steady(s) && attach != [] && Known(s, attach)
    requires !Passes(s, attach[0], check) && VerdictOn(attach[0], check) == RuleError
    ensures VerifiedUpTo(s, attach, check, 0,
              Restatus(Restatus(s, {attach[0]}, {ValidateFailed}, {}), Nodes(attach[1..]), {InvalidAncestor}, {}),
              RuleError)
  {
    hide Steady, Sound, Restatus, SameChain, VerifyMark, VerdictOn;
    var n, rest := attach[0], attach[1..];
    assert n in attach;
    RestatusKeeps(s, {n}, {ValidateFailed}, {});
    var s1 := Restatus(s, {n}, {ValidateFailed}, {});
    SameChainKeys(s, s1);
    RestatusKeeps(s1, Nodes(rest), {InvalidAncestor}, {});
    var s2 := Restatus(s1, Nodes(rest), {InvalidAncestor}, {});
    SameChainTrans(s, s1, s2);
    forall m | m in s.status ensures s2.status[m] == VerifyMark(s.status[m], m, attach, 0, RuleError)
    {
      RestatusAt(s, {n}, {ValidateFailed}, {}, m);
      RestatusAt(s1, Nodes(rest), {InvalidAncestor}, {}, m);
      MarkFails(s.status[m], m, attach);
    }
  }

  lemma SameChainKeys(s: ChainState, s1: ChainState)
    requires SameChain(s, s1)
    ensures s1.status.Keys == s.status.Keys
  {
  }

  lemma SameChainTrans(s: ChainState, s1: ChainState, s2: ChainState)
    requires SameChain(s, s1) && SameChain(s1, s2)
    ensures SameChain(s, s2) && s2.status.Keys == s.status.Keys
  {
  }

  lemma MarkFails(st: Status, m: BlockNode, attach: seq<BlockNode>)
    requires attach != []
    ensures VerifyMark(st, m, attach, 0, RuleError)
            == st + (if m == attach[0] then {ValidateFailed} else {}) +
              (if m in Nodes(attach[1..]) then {InvalidAncestor} else {})
  {
  }

  lemma PassedIsSound(s: ChainState, prev: BlockNode, n: BlockNode, check: Verdicts)
    requires Steady(s) && n in s.status && n.parent == Some(prev) && Sound(prev)
    requires KnownValid(StatusOf(s, n)) || Judge(Replay(prev), n, check) == Fine
    ensures Sound(n) && Connectable(Replay(prev), n) && Replay(n) == Apply(Replay(prev), NodeEvents(n))
  {
    hide TreeOk, LedgerOk, StoreOk, NodeEvents, Apply, InputsPresent, Overwritten;
  }

  lemma VerifyOneFine(s: ChainState, prev: BlockNode, attach: seq<BlockNode>, check: Verdicts) returns (s1: ChainState)
    requires Steady(s) && attach != [] && attach[0] in s.status && attach[0].parent == Some(prev) && Sound(prev)
    requires KnownValid(StatusOf(s, attach[0])) || Judge(Replay(prev), attach[0], check) == Fine
    ensures Sound(attach[0]) && Steady(s1) && SameChain(s, s1)
    ensures forall m :: m in s.status ==> s1.status[m] == s.status[m] + (if m == attach[0] then {Valid} else {})
    ensures VerifyAttach(s, Replay(prev), attach, check) == VerifyAttach(s1, Replay(attach[0]), attach[1..], check)
  {
    hide Steady, Sound, NodeEvents, Apply, InputsPresent, Replay, Restatus, Overwritten;
    var n := attach[0];
    PassedIsSound(s, prev, n, check);
    if KnownValid(StatusOf(s, n)) {
      s1 := s;
    } else {
      RestatusKeeps(s, {n}, {Valid}, {});
      s1 := Restatus(s, {n}, {Valid}, {});
      forall m | m in s.status ensures s1.status[m] == s.status[m] + (if m == n then {Valid} else {})
      {
        RestatusAt(s, {n}, {Valid}, {}, m);
      }
    }
  }

  /** Verification walks the attach list and stops at the first block that does not pass. */
  lemma {:induction false} VerifyAttachStops(s: ChainState, prev: BlockNode, attach: seq<BlockNode>, check: Verdicts)
    returns (i: nat)
    requires Steady(s) && Known(s, attach) && Linked(prev, attach) && Sound(prev)
    ensures VerifiedUpTo(s, attach, check, i, VerifyAttach(s, Replay(prev), attach, check).0,
                         VerifyAttach(s, Replay(prev), attach, check).1)
    decreases |attach|
  {
    hide Steady, Sound, NodeEvents, Apply, InputsPresent, Connectable, Replay, Judge, Restatus;
    i := 0;
    if attach != [] {
      var n := attach[0];
      var rest := attach[1..];
      assert n in attach && Known(s, rest);
      assert VerdictOn(n, check) == Judge(Replay(prev), n, check);
      if KnownValid(StatusOf(s, n)) || Judge(Replay(prev), n, check) == Fine {
        var s1 := VerifyOneFine(s, prev, attach, check);
        var j := VerifyAttachStops(s1, n, rest, check);
        VerifiedShift(s, s1, attach, check, j, VerifyAttach(s1, Replay(n), rest, check).0,
                      VerifyAttach(s1, Replay(n), rest, check).1);
        i := j + 1;
      } else if Judge(Replay(prev), n, check) == RuleError {
        VerifyFails(s, attach, check);
      }
    }
  }

  // ---------------------------------------------------------------------------
  // The whole reorganization

  /** The detach list ends with the child of the fork point. */
  lemma {:induction false} DownToEnds(s: ChainState, n: BlockNode, k: nat)
    requires TreeOk(s) && n in Best(s) && 1 <= k <= |Best(s)| && k <= n.height
    ensures DownTo(n, k) != [] && DownTo(n, k)[0] == n
    ensures DownTo(n, k)[|DownTo(n, k)| - 1].parent == Some(Best(s)[k - 1])
    decreases n
  {
    hide TreeOk, Best;
    BestBelow(s, n);
    var p := n.parent.value;
    BestBelow(s, p);
    DownToSplit(n, k);
    if p.height >= k {
      DownToEnds(s, p, k);
    } else {
      assert DownTo(p, k) == [];
    }
  }

  lemma ListsMatch(s: ChainState, k: nat, attach: seq<BlockNode>)
    requires TreeOk(s) && 1 <= k <= |Best(s)| && Linked(Best(s)[k - 1], attach)
    ensures DetachStartsAtTip(s, DownTo(s.tip, k)) && SameForkPoint(DownTo(s.tip, k), attach)
  {
    hide TreeOk, Path;
    assert s.tip in Best(s);
    if s.tip.height >= k {
      DownToEnds(s, s.tip, k);
    } else {
      assert DownTo(s.tip, k) == [];
    }
  }

  /** `Verify` on lists that belong to the best chain is the walk over the attach list. */
  lemma VerifyStops(s: ChainState, k: nat, attach: seq<BlockNode>, check: Verdicts) returns (i: nat)
    requires Steady(s) && 1 <= k <= |Best(s)| && Known(s, attach) && Linked(Best(s)[k - 1], attach)
    ensures VerifiedUpTo(s, attach, check, i, Verify(s, DownTo(s.tip, k), attach, check).0,
                         Verify(s, DownTo(s.tip, k), attach, check).1)
  {
    hide Steady, WellBuilt, Sound, Replay, Path, VerifiedUpTo, Linked, TreeOk, LedgerOk;
    TipFacts(s);
    PathLength(s.tip);
    ListsMatch(s, k, attach);
    UndoAllReplays(s, s.tip, k);
    SoundAncestor(Best(s)[k - 1], s.tip);
    i := VerifyAttachStops(s, Best(s)[k - 1], attach, check);
  }

  /** The flags after a reorganization that passed verification. */
  function ReorgMark(st: Status, m: BlockNode, attach: seq<BlockNode>, i: nat, r: Outcome): Status
  {
    st
    + (if m in attach then {Valid} else {})
    + (if r == RuleError && i < |attach| && m == attach[i] then {ValidateFailed} else {})
  }

  /** A reorganization that passed verification and attached the first `i` blocks above the fork. */
  ghost predicate ReorganizedUpTo(s: ChainState, fork: BlockNode, attach: seq<BlockNode>,
                                  check: Verdicts, reap: Verdicts, i: nat,
                                  s': ChainState, r: Outcome)
  {
    && i <= |attach|
    && (forall j :: 0 <= j < i ==> reap(attach[j]) == Fine)
    && r == (if i < |attach| then reap(attach[i]) else Fine)
    && (r == Fine ==> i == |attach|)
    && Steady(s') && s'.genesis == s.genesis && s'.index == s.index && s'.status.Keys == s.status.Keys
    && s'.tip == Last(fork, attach[..i])
    && AllSound(attach)
    && (forall m :: m in attach ==> Passes(s, m, check))
    && (forall m :: m in s.status ==> s'.status[m] == ReorgMark(s.status[m], m, attach, i, r))
  }

  lemma MarksCompose(s: ChainState, s1: ChainState, s': ChainState, attach: seq<BlockNode>, check: Verdicts,
          i: nat, r: Outcome)
    requires VerifiedUpTo(s, attach, check, |attach|, s1, Fine) && (r == RuleError ==> i < |attach|)
    requires s'.status == (if r == RuleError then Restatus(s1, {attach[i]}, {ValidateFailed}, {}).status else s1.status)
    ensures s'.status.Keys == s.status.Keys
    ensures forall m :: m in s.status ==> s'.status[m] == ReorgMark(s.status[m], m, attach, i, r)
  {
    hide Steady, Sound;
    assert attach[..|attach|] == attach;
  }

  /**
    Verify before mutate.  Either verification stops at some block and nothing but
    flags has changed, or every block passed and the chain ends at the last block
    whose prefix check passed in turn.
  */
  lemma ReorganizeOutcome(s: ChainState, k: nat, attach: seq<BlockNode>, check: Verdicts, reap: Verdicts)
    returns (verified: bool, i: nat)
    requires Steady(s) && 1 <= k <= |Best(s)| && Known(s, attach) && Linked(Best(s)[k - 1], attach)
    ensures var r := Reorganize(s, DownTo(s.tip, k), attach, check, reap);
            if verified then ReorganizedUpTo(s, Best(s)[k - 1], attach, check, reap, i, r.0, r.1)
            else i < |attach| && VerifiedUpTo(s, attach, check, i, r.0, r.1)
  {
    hide Steady, Path, Verify, VerdictOn, DetachAll, AttachAll, Sound, Restatus, VerifyMark, ReorgMark;
    var detach := DownTo(s.tip, k);
    i := VerifyStops(s, k, attach, check);
    var s1, r1 := Verify(s, detach, attach, check).0, Verify(s, detach, attach, check).1;
    verified := r1 == Fine;
    if verified {
      DetachKeeps(s1, k);
      var s2 := DetachAll(s1, detach).0;
      assert attach[..|attach|] == attach;
      i := AttachKeeps(s2, attach, reap);
      var s', r := AttachAll(s2, attach, reap).0, AttachAll(s2, attach, reap).1;
      if r == RuleError {
        RestatusDepends(s1, s2, {attach[i]}, {ValidateFailed});
      }
      MarksCompose(s, s1, s', attach, check, i, r);
    }
  }
}
