/**
  What an unspent output is, said of blocks and transactions: which output of which transaction of the chain
  it is, what is kept of it, and when it is there.
*/
module UnspentOutputs {
  import opened Base
  import opened BlockNodes
  import opened Ledger

  /** The transaction has such an output, and it can be spent. */
  predicate HasOutput(tx: Tx, op: OutPoint)
  {
    tx.id == op.txid && op.index < |tx.outputs| && tx.outputs[op.index].spendable
  }

  /** What is kept of it: amount and script, and where it was created. */
  function Kept(tx: Tx, op: OutPoint, height: nat, coinbase: bool): Coin
    requires HasOutput(tx, op)
  {
    Coin(tx.outputs[op.index].amount, tx.outputs[op.index].script, height, coinbase)
  }

  predicate Consumes(tx: Tx, op: OutPoint, coinbase: bool)
  {
    !coinbase && op in tx.inputs
  }

  // ---------------------------------------------------------------------------
  // One transaction

  lemma {:induction false} InputsGo(u: Utxo, inputs: seq<OutPoint>, op: OutPoint)
    ensures var u' := Apply(u, InputEvents(inputs));
            (op in u' <==> op in u && op !in inputs) && (op in u' ==> u'[op] == u[op])
    decreases |inputs|
  {
    if inputs != [] {
      assert InputEvents(inputs)[1..] == InputEvents(inputs[1..]);
      InputsGo(u - {inputs[0]}, inputs[1..], op);
    }
  }

  lemma {:induction false} OutputsCome(u: Utxo, tx: Tx, k: nat, height: nat, coinbase: bool, op: OutPoint)
    requires k <= |tx.outputs|
    ensures var u' := Apply(u, OutputEvents(tx, k, height, coinbase));
            if HasOutput(tx, op) && k <= op.index then op in u' && u'[op] == Kept(tx, op, height, coinbase)
            else (op in u' <==> op in u) && (op in u' ==> u'[op] == u[op])
    decreases |tx.outputs| - k
  {
    if k < |tx.outputs| {
      var evs := OutputEvents(tx, k, height, coinbase);
      if tx.outputs[k].spendable {
        assert evs[1..] == OutputEvents(tx, k + 1, height, coinbase);
        OutputsCome(ApplyEvent(u, evs[0]), tx, k + 1, height, coinbase, op);
      } else {
        OutputsCome(u, tx, k + 1, height, coinbase, op);
      }
    }
  }

  /** A transaction takes away what it consumes and then adds its own outputs. */
  lemma TxOnOutput(u: Utxo, tx: Tx, height: nat, coinbase: bool, op: OutPoint)
    ensures var u' := Apply(u, TxEvents(tx, height, coinbase));
            if HasOutput(tx, op) then op in u' && u'[op] == Kept(tx, op, height, coinbase)
            else if Consumes(tx, op, coinbase) then op !in u'
            else (op in u' <==> op in u) && (op in u' ==> u'[op] == u[op])
  {
    hide Apply;
    if coinbase {
      OutputsCome(u, tx, 0, height, coinbase, op);
    } else {
      ApplyConcat(u, InputEvents(tx.inputs), OutputEvents(tx, 0, height, false));
      InputsGo(u, tx.inputs, op);
      OutputsCome(Apply(u, InputEvents(tx.inputs)), tx, 0, height, false, op);
    }
  }

  // ---------------------------------------------------------------------------
  // One block

  /** Transaction `j` of a list creates or consumes the output. */
  predicate TouchedAt(txs: seq<Tx>, j: nat, op: OutPoint)
    requires j < |txs|
  {
    HasOutput(txs[j], op) || Consumes(txs[j], op, j == 0)
  }

  predicate Untouched(txs: seq<Tx>, from: nat, op: OutPoint)
  {
    forall j :: from <= j < |txs| ==> !TouchedAt(txs, j, op)
  }

  lemma BlockStep(u: Utxo, txs: seq<Tx>, i: nat, height: nat)
    requires i < |txs|
    ensures Apply(u, BlockEvents(txs, i, height)) ==
            Apply(Apply(u, TxEvents(txs[i], height, i == 0)), BlockEvents(txs, i + 1, height))
  {
    hide Apply, TxEvents;
    ApplyConcat(u, TxEvents(txs[i], height, i == 0), BlockEvents(txs, i + 1, height));
  }

  lemma {:induction false} BlockLeaves(u: Utxo, txs: seq<Tx>, i: nat, height: nat, op: OutPoint)
    requires i <= |txs| && Untouched(txs, i, op)
    ensures var u' := Apply(u, BlockEvents(txs, i, height));
            (op in u' <==> op in u) && (op in u' ==> u'[op] == u[op])
    decreases |txs| - i
  {
    hide TxEvents, HasOutput, Consumes;
    if i < |txs| {
      BlockStep(u, txs, i, height);
      assert !TouchedAt(txs, i, op);
      TxOnOutput(u, txs[i], height, i == 0, op);
      BlockLeaves(Apply(u, TxEvents(txs[i], height, i == 0)), txs, i + 1, height, op);
    }
  }

  /** The last transaction that touches the output decides. */
  lemma {:induction false} BlockDecides(u: Utxo, txs: seq<Tx>, i: nat, height: nat, j: nat, op: OutPoint)
    requires i <= j < |txs| && TouchedAt(txs, j, op) && Untouched(txs, j + 1, op)
    ensures var u' := Apply(u, BlockEvents(txs, i, height));
            if HasOutput(txs[j], op) then op in u' && u'[op] == Kept(txs[j], op, height, j == 0) else op !in u'
    decreases j - i
  {
    hide TxEvents, HasOutput, Consumes;
    BlockStep(u, txs, i, height);
    var u1 := Apply(u, TxEvents(txs[i], height, i == 0));
    if i < j {
      BlockDecides(u1, txs, i + 1, height, j, op);
    } else {
      TxOnOutput(u, txs[i], height, i == 0, op);
      BlockLeaves(u1, txs, i + 1, height, op);
    }
  }

  lemma {:induction false} LastTouch(txs: seq<Tx>, from: nat, op: OutPoint) returns (j: nat)
    requires from <= |txs| && !Untouched(txs, from, op)
    ensures from <= j < |txs| && TouchedAt(txs, j, op) && Untouched(txs, j + 1, op)
    decreases |txs| - from
  {
    if Untouched(txs, from + 1, op) {
      j := from;
    } else {
      j := LastTouch(txs, from + 1, op);
    }
  }

  // ---------------------------------------------------------------------------
  // A chain

  /** Every block of the chain above `m` leaves the output alone. */
  ghost predicate UntouchedAbove(n: BlockNode, m: BlockNode, op: OutPoint)
  {
    forall x :: x in Path(n) && x.height > m.height ==> Untouched(x.block.txs, 0, op)
  }

  /**
    Where an unspent output comes from: a block of the chain above genesis, a transaction of it and an output of
    that, with the amount and script of the output, the block's height and whether it is the coinbase; and
    nothing after that transaction touches it.
  */
  lemma {:induction false} OutputOrigin(n: BlockNode, op: OutPoint) returns (m: BlockNode, i: nat)
    requires WellBuilt(n) && op in Replay(n)
    ensures m in Path(n) && m.parent.Some? && i < |m.block.txs| && HasOutput(m.block.txs[i], op)
    ensures Replay(n)[op] == Kept(m.block.txs[i], op, m.height, i == 0)
    ensures Untouched(m.block.txs, i + 1, op) && UntouchedAbove(n, m, op)
    decreases n
  {
    hide HasOutput, Consumes, BlockEvents, WellBuilt;
    var p, txs := n.parent.value, n.block.txs;
    assert Path(n)[|Path(n)| - 1] == n;
    PathFacts(n);
    if Untouched(txs, 0, op) {
      BlockLeaves(Replay(p), txs, 0, n.height, op);
      ParentWellBuilt(n);
      m, i := OutputOrigin(p, op);
      assert forall x :: x in Path(n) <==> x in Path(p) || x == n;
    } else {
      i := LastTouch(txs, 0, op);
      m := n;
      BlockDecides(Replay(p), txs, 0, n.height, i, op);
      forall x | x in Path(n) ensures x.height <= n.height { OnPathByHeight(x, n); }
    }
  }

  /** The last transaction of the chain that touches an output decides whether it is there, and as what. */
  lemma {:induction false} LastDecides(n: BlockNode, m: BlockNode, j: nat, op: OutPoint)
    requires WellBuilt(n) && m in Path(n) && m.parent.Some? && j < |m.block.txs| && TouchedAt(m.block.txs, j, op)
    requires Untouched(m.block.txs, j + 1, op) && UntouchedAbove(n, m, op)
    ensures if HasOutput(m.block.txs[j], op) then
              op in Replay(n) && Replay(n)[op] == Kept(m.block.txs[j], op, m.height, j == 0)
            else op !in Replay(n)
    decreases n
  {
    hide HasOutput, Consumes, BlockEvents, WellBuilt, TouchedAt;
    OnPathByHeight(m, n);
    PathFacts(n);
    if m == n {
      BlockDecides(Replay(n.parent.value), n.block.txs, 0, n.height, j, op);
    } else {
      var p := n.parent.value;
      ParentWellBuilt(n);
      assert forall x :: x in Path(n) <==> x in Path(p) || x == n;
      assert Path(n)[|Path(n)| - 1] == n;
      LastDecides(p, m, j, op);
      BlockLeaves(Replay(p), n.block.txs, 0, n.height, op);
    }
  }

  // ---------------------------------------------------------------------------
  // Which blocks fit, and what the journal keeps of them

  /** The set once the first `i` transactions of a block are in. */
  function AfterTxs(u: Utxo, txs: seq<Tx>, i: nat, height: nat): Utxo
    requires i <= |txs|
  {
    Apply(u, BlockEvents(txs[..i], 0, height))
  }

  /** An output is there for transaction `i`: created by an earlier one or there before, and not consumed since. */
  ghost predicate Available(u: Utxo, txs: seq<Tx>, i: nat, op: OutPoint)
    requires i <= |txs|
  {
    || (op in u && Untouched(txs[..i], 0, op))
    || exists k :: 0 <= k < i && HasOutput(txs[k], op) && Untouched(txs[..i], k + 1, op)
  }

  lemma AvailableIff(u: Utxo, txs: seq<Tx>, i: nat, height: nat, op: OutPoint)
    requires i <= |txs|
    ensures op in AfterTxs(u, txs, i, height) <==> Available(u, txs, i, op)
  {
    hide HasOutput, Consumes, Apply, BlockEvents;
    var first := txs[..i];
    if Untouched(first, 0, op) {
      BlockLeaves(u, first, 0, height, op);
      forall k | 0 <= k < i ensures !HasOutput(txs[k], op) { assert !TouchedAt(first, k, op); }
    } else {
      var j := LastTouch(first, 0, op);
      BlockDecides(u, first, 0, height, j, op);
      forall k | 0 <= k < i && HasOutput(txs[k], op) && Untouched(first, k + 1, op) ensures k == j
      {
        assert TouchedAt(first, k, op) && TouchedAt(first, j, op);
      }
    }
  }

  ghost predicate AllDifferent(ops: seq<OutPoint>)
  {
    forall i, j :: 0 <= i < j < |ops| ==> ops[i] != ops[j]
  }

  lemma {:induction false} InputsThere(u: Utxo, inputs: seq<OutPoint>)
    ensures InputsPresent(u, InputEvents(inputs)) <==> AllDifferent(inputs) && forall op :: op in inputs ==> op in u
    ensures InputsPresent(u, InputEvents(inputs)) ==>
      |SpentCoins(u, InputEvents(inputs))| == |inputs| &&
      forall j :: 0 <= j < |inputs| ==> inputs[j] in u && SpentCoins(u, InputEvents(inputs))[j] == u[inputs[j]]
    decreases |inputs|
  {
    if inputs != [] {
      var rest, u1 := inputs[1..], u - {inputs[0]};
      assert InputEvents(inputs)[1..] == InputEvents(rest);
      InputsThere(u1, rest);
      assert AllDifferent(inputs) <==> AllDifferent(rest) && inputs[0] !in rest;
      assert forall op :: op in inputs <==> op == inputs[0] || op in rest;
    }
  }

  lemma {:induction false} OutputsSpendNothing(u: Utxo, tx: Tx, k: nat, height: nat, coinbase: bool)
    requires k <= |tx.outputs|
    ensures InputsPresent(u, OutputEvents(tx, k, height, coinbase))
    ensures SpentCoins(u, OutputEvents(tx, k, height, coinbase)) == []
    decreases |tx.outputs| - k
  {
    if k < |tx.outputs| {
      var evs := OutputEvents(tx, k, height, coinbase);
      if tx.outputs[k].spendable {
        assert evs[1..] == OutputEvents(tx, k + 1, height, coinbase);
        OutputsSpendNothing(ApplyEvent(u, evs[0]), tx, k + 1, height, coinbase);
      } else {
        OutputsSpendNothing(u, tx, k + 1, height, coinbase);
      }
    }
  }

  /** The inputs of a transaction are there. */
  ghost predicate InputsIn(u: Utxo, tx: Tx)
  {
    AllDifferent(tx.inputs) && forall op :: op in tx.inputs ==> op in u
  }

  /** What they hold, in their order. */
  ghost function CoinsFor(u: Utxo, tx: Tx): (coins: seq<Coin>)
    requires InputsIn(u, tx)
    ensures |coins| == |tx.inputs| && forall j :: 0 <= j < |coins| ==> coins[j] == u[tx.inputs[j]]
  {
    seq(|tx.inputs|, j requires 0 <= j < |tx.inputs| => assert tx.inputs[j] in tx.inputs; u[tx.inputs[j]])
  }

  lemma TxFits(u: Utxo, tx: Tx, height: nat, coinbase: bool)
    ensures InputsPresent(u, TxEvents(tx, height, coinbase)) <==> coinbase || InputsIn(u, tx)
    ensures coinbase ==> SpentCoins(u, TxEvents(tx, height, coinbase)) == []
    ensures !coinbase && InputsIn(u, tx) ==> SpentCoins(u, TxEvents(tx, height, coinbase)) == CoinsFor(u, tx)
  {
    hide Apply, InputsPresent, SpentCoins;
    OutputsSpendNothing(u, tx, 0, height, coinbase);
    if !coinbase {
      ApplyConcat(u, InputEvents(tx.inputs), OutputEvents(tx, 0, height, false));
      InputsThere(u, tx.inputs);
      OutputsSpendNothing(Apply(u, InputEvents(tx.inputs)), tx, 0, height, false);
    }
  }

  lemma {:induction false} BlockSnoc(txs: seq<Tx>, i: nat, from: nat, height: nat)
    requires from <= i < |txs|
    ensures BlockEvents(txs[..i + 1], from, height) ==
            BlockEvents(txs[..i], from, height) + TxEvents(txs[i], height, i == 0)
    decreases i - from
  {
    hide TxEvents;
    if from < i {
      BlockSnoc(txs, i, from + 1, height);
      var head, mid, last := TxEvents(txs[from], height, from == 0), BlockEvents(txs[..i], from + 1, height),
        TxEvents(txs[i], height, i == 0);
      assert head + (mid + last) == (head + mid) + last;
    } else {
      assert BlockEvents(txs[..i + 1], i + 1, height) == [];
    }
  }

  /** How many inputs the transactions of a block before `i` have, the coinbase left out. */
  function InputsBefore(txs: seq<Tx>, i: nat): nat
    requires i <= |txs|
  {
    if i <= 1 then 0 else InputsBefore(txs, i - 1) + |txs[i - 1].inputs|
  }

  /** The last of the first `i` transactions. */
  lemma PrefixStep(u: Utxo, txs: seq<Tx>, i: nat, height: nat)
    requires i < |txs|
    ensures var evs, u1 := BlockEvents(txs[..i], 0, height), AfterTxs(u, txs, i, height);
            && (InputsPresent(u, BlockEvents(txs[..i + 1], 0, height)) <==>
                  InputsPresent(u, evs) && (i == 0 || InputsIn(u1, txs[i])))
            && (InputsPresent(u, BlockEvents(txs[..i + 1], 0, height)) ==>
                  SpentCoins(u, BlockEvents(txs[..i + 1], 0, height)) ==
                    SpentCoins(u, evs) + if i == 0 then [] else CoinsFor(u1, txs[i]))
  {
    hide Apply, TxEvents, InputsIn, InputsPresent, SpentCoins;
    BlockSnoc(txs, i, 0, height);
    var evs, last := BlockEvents(txs[..i], 0, height), TxEvents(txs[i], height, i == 0);
    ApplyConcat(u, evs, last);
    TxFits(Apply(u, evs), txs[i], height, i == 0);
  }

  lemma {:induction false} PrefixFits(u: Utxo, txs: seq<Tx>, i: nat, height: nat)
    requires i <= |txs|
    ensures InputsPresent(u, BlockEvents(txs[..i], 0, height)) <==>
            forall k :: 0 < k < i ==> InputsIn(AfterTxs(u, txs, k, height), txs[k])
    ensures InputsPresent(u, BlockEvents(txs[..i], 0, height)) ==>
      |SpentCoins(u, BlockEvents(txs[..i], 0, height))| == InputsBefore(txs, i)
    decreases i
  {
    hide AfterTxs, BlockEvents, InputsIn, InputsPresent, SpentCoins;
    if i > 0 {
      PrefixFits(u, txs, i - 1, height);
      PrefixStep(u, txs, i - 1, height);
    } else {
      assert BlockEvents(txs[..0], 0, height) == [] by { NoTxs(txs[..0], height); }
      NothingSpent(u);
    }
  }

  lemma NoTxs(txs: seq<Tx>, height: nat)
    requires txs == []
    ensures BlockEvents(txs, 0, height) == []
  {
  }

  lemma NothingSpent(u: Utxo)
    ensures InputsPresent(u, []) && SpentCoins(u, []) == []
  {
  }

  /** The journal keeps, for every input in turn, the output it consumes. */
  lemma {:induction false} JournalHolds(u: Utxo, txs: seq<Tx>, n: nat, height: nat, i: nat, j: nat)
    requires n <= |txs| && InputsPresent(u, BlockEvents(txs[..n], 0, height)) && 0 < i < n && j < |txs[i].inputs|
    ensures var coins, op := SpentCoins(u, BlockEvents(txs[..n], 0, height)), txs[i].inputs[j];
            && InputsBefore(txs, i) + j < |coins| && op in AfterTxs(u, txs, i, height)
            && coins[InputsBefore(txs, i) + j] == AfterTxs(u, txs, i, height)[op]
    decreases n
  {
    hide AfterTxs, BlockEvents, InputsPresent, SpentCoins, CoinsFor, AllDifferent;
    PrefixStep(u, txs, n - 1, height);
    PrefixFits(u, txs, n - 1, height);
    if i < n - 1 {
      JournalHolds(u, txs, n - 1, height, i, j);
    } else {
      assert txs[i].inputs[j] in txs[i].inputs;
    }
  }

  /** Some transaction from `from` on creates the output before any of them consumes it. */
  ghost predicate CreatedFirst(txs: seq<Tx>, from: nat, op: OutPoint)
  {
    exists k :: from <= k < |txs| && HasOutput(txs[k], op) && NotConsumed(txs, from, k, op)
  }

  predicate NotConsumed(txs: seq<Tx>, from: nat, k: nat, op: OutPoint)
    requires k < |txs|
  {
    forall l :: from <= l <= k ==> !Consumes(txs[l], op, l == 0)
  }

  predicate CreatesFirst(evs: seq<Event>, op: OutPoint)
  {
    FirstTouch(evs, op).Some? && FirstTouch(evs, op).value.Create?
  }

  lemma {:induction false} FirstOfTwo(a: seq<Event>, b: seq<Event>, op: OutPoint)
    ensures FirstTouch(a + b, op) == if FirstTouch(a, op).Some? then FirstTouch(a, op) else FirstTouch(b, op)
    decreases |a|
  {
    if a == [] {
      assert a + b == b;
    } else {
      assert (a + b)[1..] == a[1..] + b;
      FirstOfTwo(a[1..], b, op);
    }
  }

  lemma {:induction false} FirstInput(inputs: seq<OutPoint>, op: OutPoint)
    ensures FirstTouch(InputEvents(inputs), op) == if op in inputs then Some(Spend(op)) else None
    decreases |inputs|
  {
    if inputs != [] {
      assert InputEvents(inputs)[1..] == InputEvents(inputs[1..]);
      FirstInput(inputs[1..], op);
    }
  }

  lemma {:induction false} FirstOutput(tx: Tx, k: nat, height: nat, coinbase: bool, op: OutPoint)
    requires k <= |tx.outputs|
    ensures var first := FirstTouch(OutputEvents(tx, k, height, coinbase), op);
            (first.Some? <==> HasOutput(tx, op) && k <= op.index) && (first.Some? ==> first.value.Create?)
    decreases |tx.outputs| - k
  {
    if k < |tx.outputs| {
      var evs := OutputEvents(tx, k, height, coinbase);
      if tx.outputs[k].spendable {
        assert evs[1..] == OutputEvents(tx, k + 1, height, coinbase);
      }
      FirstOutput(tx, k + 1, height, coinbase, op);
    }
  }

  lemma FirstOfTx(tx: Tx, height: nat, coinbase: bool, op: OutPoint)
    ensures var first := FirstTouch(TxEvents(tx, height, coinbase), op);
            && (first.None? <==> !Consumes(tx, op, coinbase) && !HasOutput(tx, op))
            && (first.Some? ==> (first.value.Create? <==> !Consumes(tx, op, coinbase)))
  {
    hide FirstTouch, HasOutput;
    FirstOutput(tx, 0, height, coinbase, op);
    if !coinbase {
      FirstInput(tx.inputs, op);
      FirstOfTwo(InputEvents(tx.inputs), OutputEvents(tx, 0, height, false), op);
    }
  }

  lemma {:induction false} CreatedFirstIff(txs: seq<Tx>, i: nat, height: nat, op: OutPoint)
    requires i <= |txs|
    ensures CreatesFirst(BlockEvents(txs, i, height), op) <==> CreatedFirst(txs, i, op)
    decreases |txs| - i
  {
    hide FirstTouch, TxEvents, HasOutput, Consumes;
    if i == |txs| {
      assert FirstTouch([], op) == None by { FirstInput([], op); }
    } else {
      CreatedFirstIff(txs, i + 1, height, op);
      FirstOfTwo(TxEvents(txs[i], height, i == 0), BlockEvents(txs, i + 1, height), op);
      FirstOfTx(txs[i], height, i == 0, op);
      if Consumes(txs[i], op, i == 0) {
        assert forall k :: i <= k < |txs| ==> !NotConsumed(txs, i, k, op);
      } else {
        assert NotConsumed(txs, i, i, op);
        assert forall k :: i < k < |txs| ==> (NotConsumed(txs, i, k, op) <==> NotConsumed(txs, i + 1, k, op));
      }
    }
  }

  /**
    The inputs of every transaction after the coinbase are all different and available to it, and no unspent
    output is created again before it is consumed.
  */
  ghost predicate Fits(u: Utxo, txs: seq<Tx>)
  {
    && (forall i :: 0 < i < |txs| ==> AllDifferent(txs[i].inputs))
    && (forall i, op :: 0 < i < |txs| && op in txs[i].inputs ==> Available(u, txs, i, op))
    && (forall op :: op in u ==> !CreatedFirst(txs, 0, op))
  }

  /** The set can take a block exactly if its transactions fit. */
  lemma FitsIff(u: Utxo, n: BlockNode)
    ensures Connectable(u, n) <==> Fits(u, n.block.txs)
  {
    hide Apply, BlockEvents, InputsPresent, FirstTouch, Available, CreatedFirst, AllDifferent, AfterTxs;
    var txs := n.block.txs;
    assert txs[..|txs|] == txs;
    PrefixFits(u, txs, |txs|, n.height);
    forall i: nat, op | i < |txs|
      ensures op in AfterTxs(u, txs, i, n.height) <==> Available(u, txs, i, op)
    {
      AvailableIff(u, txs, i, n.height, op);
    }
    forall op ensures CreatesFirst(NodeEvents(n), op) <==> CreatedFirst(txs, 0, op)
    {
      CreatedFirstIff(txs, 0, n.height, op);
    }
    assert Overwritten(u, NodeEvents(n)) == {} <==> forall op :: op in u ==> !CreatesFirst(NodeEvents(n), op) by {
      assert forall op :: op in Overwritten(u, NodeEvents(n)) <==> op in u && CreatesFirst(NodeEvents(n), op);
    }
  }
}
