/**
  The unspent output set: what connecting a block does to it, what the spend
  journal records, and when undoing from the journal restores it.
*/
module Ledger {
  import opened Base
  import opened BlockNodes

  /** An unspent output, and also a spend journal entry: both hold the same details. */
  datatype Coin = Coin(amount: int, script: seq<Byte>, height: nat, coinbase: bool)

  type Utxo = map<OutPoint, Coin>

  /** The elementary changes a block makes, in the order the source makes them. */
  datatype Event = Spend(op: OutPoint) | Create(op: OutPoint, coin: Coin)

  function ApplyEvent(u: Utxo, e: Event): Utxo
  {
    match e
    case Spend(op) => u - {op}
    case Create(op, coin) => u[op := coin]
  }

  function Apply(u: Utxo, evs: seq<Event>): Utxo
    decreases |evs|
  {
    if evs == [] then u else Apply(ApplyEvent(u, evs[0]), evs[1..])
  }

  /** Every spend finds its output. */
  predicate InputsPresent(u: Utxo, evs: seq<Event>)
    decreases |evs|
  {
    evs == [] ||
    ((evs[0].Spend? ==> evs[0].op in u) && InputsPresent(ApplyEvent(u, evs[0]), evs[1..]))
  }

  function CountSpends(evs: seq<Event>): nat
  {
    if evs == [] then 0 else (if evs[0].Spend? then 1 else 0) + CountSpends(evs[1..])
  }

  /** The journal entry: the spent outputs in the order they are spent. */
  function SpentCoins(u: Utxo, evs: seq<Event>): (coins: seq<Coin>)
    requires InputsPresent(u, evs)
    ensures |coins| == CountSpends(evs)
    decreases |evs|
  {
    if evs == [] then []
    else (if evs[0].Spend? then [u[evs[0].op]] else []) + SpentCoins(ApplyEvent(u, evs[0]), evs[1..])
  }

  /** Undo the events last to first, giving each spend its journal entry back. */
  function Undo(u: Utxo, evs: seq<Event>, coins: seq<Coin>): Utxo
    requires |coins| == CountSpends(evs)
    decreases |evs|
  {
    if evs == [] then u
    else match evs[0]
      case Create(op, _) => Undo(u, evs[1..], coins) - {op}
      case Spend(op) => Undo(u, evs[1..], coins[1..])[op := coins[0]]
  }

  /** The first event that touches an output. */
  function FirstTouch(evs: seq<Event>, op: OutPoint): Option<Event>
  {
    if evs == [] then None
    else if evs[0].op == op then Some(evs[0])
    else FirstTouch(evs[1..], op)
  }

  /** The unspent outputs that the events create again before spending them. */
  function Overwritten(u: Utxo, evs: seq<Event>): set<OutPoint>
  {
    set op | op in u && FirstTouch(evs, op).Some? && FirstTouch(evs, op).value.Create?
  }

  /** Undoing loses the overwritten outputs and nothing else. */
  lemma {:induction false} UndoAfterApply(u: Utxo, evs: seq<Event>)
    requires InputsPresent(u, evs)
    ensures Undo(Apply(u, evs), evs, SpentCoins(u, evs)) == u - Overwritten(u, evs)
    decreases |evs|
  {
    if evs != [] {
      var rest := evs[1..];
      var u1 := ApplyEvent(u, evs[0]);
      UndoAfterApply(u1, rest);
      var coins := SpentCoins(u, evs);
      match evs[0] {
        case Create(op, c) =>
          assert coins == SpentCoins(u1, rest);
          assert u1 - Overwritten(u1, rest) - {op} == u - Overwritten(u, evs);
        case Spend(op) =>
          assert coins[1..] == SpentCoins(u1, rest) && coins[0] == u[op];
          assert (u1 - Overwritten(u1, rest))[op := u[op]] == u - Overwritten(u, evs);
      }
    }
  }

  /** Undo inverts apply exactly when the block overwrites no unspent output. */
  lemma UndoInvertsApplyIff(u: Utxo, evs: seq<Event>)
    requires InputsPresent(u, evs)
    ensures Undo(Apply(u, evs), evs, SpentCoins(u, evs)) == u <==> Overwritten(u, evs) == {}
  {
    UndoAfterApply(u, evs);
    if Overwritten(u, evs) != {} {
      var op :| op in Overwritten(u, evs);
      assert op in u && op !in u - Overwritten(u, evs);
    } else {
      assert u - {} == u;
    }
  }

  // ---------------------------------------------------------------------------
  // Concatenation

  lemma {:induction false} ApplyConcat(u: Utxo, a: seq<Event>, b: seq<Event>)
    ensures Apply(u, a + b) == Apply(Apply(u, a), b)
    ensures InputsPresent(u, a + b) <==> InputsPresent(u, a) && InputsPresent(Apply(u, a), b)
    ensures CountSpends(a + b) == CountSpends(a) + CountSpends(b)
    ensures InputsPresent(u, a + b) ==> SpentCoins(u, a + b) == SpentCoins(u, a) + SpentCoins(Apply(u, a), b)
    decreases |a|
  {
    if a == [] {
      assert a + b == b;
    } else {
      assert (a + b)[1..] == a[1..] + b;
      ApplyConcat(ApplyEvent(u, a[0]), a[1..], b);
    }
  }

  lemma {:induction false} UndoConcat(u: Utxo, a: seq<Event>, b: seq<Event>, ca: seq<Coin>, cb: seq<Coin>)
    requires |ca| == CountSpends(a) && |cb| == CountSpends(b)
    ensures CountSpends(a + b) == CountSpends(a) + CountSpends(b)
    ensures Undo(u, a + b, ca + cb) == Undo(Undo(u, b, cb), a, ca)
    decreases |a|
  {
    if a == [] {
      assert a + b == b && ca + cb == cb;
    } else {
      assert (a + b)[1..] == a[1..] + b;
      if a[0].Spend? {
        assert (ca + cb)[1..] == ca[1..] + cb;
        UndoConcat(u, a[1..], b, ca[1..], cb);
      } else {
        UndoConcat(u, a[1..], b, ca, cb);
      }
    }
  }

  // ---------------------------------------------------------------------------
  // The events of a block

  function InputEvents(inputs: seq<OutPoint>): (evs: seq<Event>)
    ensures CountSpends(evs) == |inputs| == |evs|
  {
    if inputs == [] then [] else [Spend(inputs[0])] + InputEvents(inputs[1..])
  }

  function OutputCoin(out: TxOut, height: nat, coinbase: bool): Coin
  {
    Coin(out.amount, out.script, height, coinbase)
  }

  /** Outputs from position `k` on; provably unspendable ones never enter the set. */
  function OutputEvents(tx: Tx, k: nat, height: nat, coinbase: bool): (evs: seq<Event>)
    requires k <= |tx.outputs|
    ensures CountSpends(evs) == 0
    decreases |tx.outputs| - k
  {
    if k == |tx.outputs| then []
    else if tx.outputs[k].spendable then
      [Create(OutPoint(tx.id, k), OutputCoin(tx.outputs[k], height, coinbase))]
      + OutputEvents(tx, k + 1, height, coinbase)
    else OutputEvents(tx, k + 1, height, coinbase)
  }

  function TxEvents(tx: Tx, height: nat, coinbase: bool): (evs: seq<Event>)
    ensures CountSpends(evs) == if coinbase then 0 else |tx.inputs|
  {
    ApplyConcat(map[], InputEvents(tx.inputs), OutputEvents(tx, 0, height, coinbase));
    if coinbase then OutputEvents(tx, 0, height, true)
    else InputEvents(tx.inputs) + OutputEvents(tx, 0, height, false)
  }

  /** `countSpentOutputs` over the transactions from position `i` on. */
  function CountSpentOutputs(txs: seq<Tx>, i: nat): nat
    requires i <= |txs|
    decreases |txs| - i
  {
    if i == |txs| then 0
    else (if i == 0 then 0 else |txs[i].inputs|) + CountSpentOutputs(txs, i + 1)
  }

  /** The events of the transactions from position `i` on; position zero is the coinbase. */
  function BlockEvents(txs: seq<Tx>, i: nat, height: nat): (evs: seq<Event>)
    requires i <= |txs|
    ensures CountSpends(evs) == CountSpentOutputs(txs, i)
    decreases |txs| - i
  {
    if i == |txs| then []
    else
      ApplyConcat(map[], TxEvents(txs[i], height, i == 0), BlockEvents(txs, i + 1, height));
      TxEvents(txs[i], height, i == 0) + BlockEvents(txs, i + 1, height)
  }

  function NodeEvents(n: BlockNode): (evs: seq<Event>)
    ensures CountSpends(evs) == CountSpentOutputs(n.block.txs, 0)
  {
    BlockEvents(n.block.txs, 0, n.height)
  }

  // ---------------------------------------------------------------------------
  // Replay

  /** The unspent outputs after connecting every block above genesis up to `n`. */
  function Replay(n: BlockNode): Utxo
    decreases n
  {
    match n.parent
    case None => map[]
    case Some(p) => Apply(Replay(p), NodeEvents(n))
  }

  /** A block the set can take: nothing missing, nothing unspent overwritten. */
  predicate Connectable(u: Utxo, n: BlockNode)
  {
    InputsPresent(u, NodeEvents(n)) && Overwritten(u, NodeEvents(n)) == {}
  }

  /** Every block on the way to `n` was connectable where it stands. */
  ghost predicate Sound(n: BlockNode)
    decreases n
  {
    match n.parent
    case None => true
    case Some(p) => Sound(p) && Connectable(Replay(p), n)
  }

  /** What the spend journal must hold for a block. */
  function JournalOf(n: BlockNode): seq<Coin>
    requires n.parent.Some? && InputsPresent(Replay(n.parent.value), NodeEvents(n))
  {
    SpentCoins(Replay(n.parent.value), NodeEvents(n))
  }

  function TotalTxns(n: BlockNode): nat
    decreases n
  {
    |n.block.txs| + (if n.parent.Some? then TotalTxns(n.parent.value) else 0)
  }

  /** Undoing the last block of a sound chain gives the replay of the chain before it. */
  lemma UndoReplay(n: BlockNode)
    requires n.parent.Some? && Sound(n)
    ensures |JournalOf(n)| == CountSpends(NodeEvents(n))
    ensures Undo(Replay(n), NodeEvents(n), JournalOf(n)) == Replay(n.parent.value)
  {
    UndoInvertsApplyIff(Replay(n.parent.value), NodeEvents(n));
  }

  lemma {:induction false} SoundAncestor(m: BlockNode, n: BlockNode)
    requires Sound(n) && OnPath(m, n)
    ensures Sound(m)
    decreases n
  {
    if m != n {
      SoundAncestor(m, n.parent.value);
    }
  }

  ghost predicate HeightsPositive(u: Utxo)
  {
    forall op :: op in u ==> u[op].height > 0
  }

  lemma {:induction false} CreatedHeights(txs: seq<Tx>, i: nat, height: nat)
    requires i <= |txs|
    ensures forall e :: e in BlockEvents(txs, i, height) && e.Create? ==> e.coin.height == height
    decreases |txs| - i
  {
    if i < |txs| {
      OutputHeights(txs[i], 0, height, i == 0);
      CreatedHeights(txs, i + 1, height);
    }
  }

  lemma {:induction false} OutputHeights(tx: Tx, k: nat, height: nat, coinbase: bool)
    requires k <= |tx.outputs|
    ensures forall e :: e in OutputEvents(tx, k, height, coinbase) ==> e.Create? && e.coin.height == height
    ensures forall e :: e in InputEvents(tx.inputs) ==> e.Spend?
    decreases |tx.outputs| - k
  {
    InputsAreSpends(tx.inputs);
    if k < |tx.outputs| {
      OutputHeights(tx, k + 1, height, coinbase);
    }
  }

  lemma {:induction false} InputsAreSpends(inputs: seq<OutPoint>)
    ensures forall e :: e in InputEvents(inputs) ==> e.Spend?
  {
    if inputs != [] {
      InputsAreSpends(inputs[1..]);
    }
  }

  lemma {:induction false} ApplyKeepsHeights(u: Utxo, evs: seq<Event>)
    requires HeightsPositive(u) && forall e :: e in evs && e.Create? ==> e.coin.height > 0
    ensures HeightsPositive(Apply(u, evs))
    ensures InputsPresent(u, evs) ==> forall c :: c in SpentCoins(u, evs) ==> c.height > 0
    decreases |evs|
  {
    if evs != [] {
      assert evs[0] in evs;
      ApplyKeepsHeights(ApplyEvent(u, evs[0]), evs[1..]);
    }
  }

  /** No journal entry has height zero, so the legacy lookup of `disconnectTransactions` is never needed. */
  lemma {:induction false} JournalHeights(n: BlockNode)
    requires WellBuilt(n)
    ensures HeightsPositive(Replay(n))
    ensures n.parent.Some? && Sound(n) ==> forall c :: c in JournalOf(n) ==> c.height > 0
    decreases n
  {
    if n.parent.Some? {
      JournalHeights(n.parent.value);
      CreatedHeights(n.block.txs, 0, n.height);
      ApplyKeepsHeights(Replay(n.parent.value), NodeEvents(n));
    }
  }
}
