/** The loops that connect a block to the unspent output set and take it off again. */
module UtxoView {
  import opened BlockNodes
  import opened Ledger

  /** Having processed part of `evs`, what remains from `u` gives the same overall outcome. */
  ghost predicate Remaining(u0: Utxo, evs: seq<Event>, u: Utxo, rest: seq<Event>, coins: seq<Coin>)
  {
    && (InputsPresent(u0, evs) <==> InputsPresent(u, rest))
    && Apply(u0, evs) == Apply(u, rest)
    && (InputsPresent(u0, evs) ==> SpentCoins(u0, evs) == coins + SpentCoins(u, rest))
  }

  lemma StartRemaining(u: Utxo, evs: seq<Event>)
    ensures Remaining(u, evs, u, evs, [])
  {
  }

  lemma EndRemaining(u0: Utxo, evs: seq<Event>, u: Utxo, coins: seq<Coin>)
    requires Remaining(u0, evs, u, [], coins)
    ensures InputsPresent(u0, evs) && u == Apply(u0, evs) && coins == SpentCoins(u0, evs)
  {
    assert coins + [] == coins;
  }

  lemma ProcessEvent(u0: Utxo, evs: seq<Event>, u: Utxo, e: Event, rest: seq<Event>, coins: seq<Coin>)
    requires Remaining(u0, evs, u, [e] + rest, coins)
    requires e.Spend? ==> e.op in u
    ensures Remaining(u0, evs, ApplyEvent(u, e), rest, coins + (if e.Spend? then [u[e.op]] else []))
  {
    assert ([e] + rest)[1..] == rest;
  }

  lemma MissingInput(u0: Utxo, evs: seq<Event>, u: Utxo, e: Event, rest: seq<Event>, coins: seq<Coin>)
    requires Remaining(u0, evs, u, [e] + rest, coins) && e.Spend? && e.op !in u
    ensures !InputsPresent(u0, evs)
  {
  }

  lemma ProcessEvents(u0: Utxo, evs: seq<Event>, u: Utxo, some: seq<Event>, rest: seq<Event>, coins: seq<Coin>)
    requires Remaining(u0, evs, u, some + rest, coins)
    ensures !InputsPresent(u, some) ==> !InputsPresent(u0, evs)
    ensures InputsPresent(u, some) ==>
      Remaining(u0, evs, Apply(u, some), rest, coins + SpentCoins(u, some))
  {
    hide Apply, InputsPresent, SpentCoins;
    ApplyConcat(u, some, rest);
  }

  /** Spend the inputs, then add the spendable outputs. */
  method ConnectTransaction(u0: Utxo, tx: Tx, height: nat, coinbase: bool)
    returns (ok: bool, u: Utxo, coins: seq<Coin>)
    ensures ok <==> InputsPresent(u0, TxEvents(tx, height, coinbase))
    ensures ok ==> u == Apply(u0, TxEvents(tx, height, coinbase))
    ensures ok ==> coins == SpentCoins(u0, TxEvents(tx, height, coinbase))
  {
    ghost var evs := TxEvents(tx, height, coinbase);
    ghost var outs := OutputEvents(tx, 0, height, coinbase);
    hide Remaining, Apply, InputsPresent, SpentCoins;
    u, coins := u0, [];
    StartRemaining(u0, evs);
    if !coinbase {
      assert tx.inputs[0..] == tx.inputs;
      for i := 0 to |tx.inputs|
        invariant Remaining(u0, evs, u, InputEvents(tx.inputs[i..]) + outs, coins)
      {
        ghost var rest := InputEvents(tx.inputs[i + 1..]) + outs;
        assert tx.inputs[i..][1..] == tx.inputs[i + 1..];
        assert InputEvents(tx.inputs[i..]) + outs == [Spend(tx.inputs[i])] + rest;
        if tx.inputs[i] !in u {
          MissingInput(u0, evs, u, Spend(tx.inputs[i]), rest, coins);
          return false, u, coins;
        }
        ProcessEvent(u0, evs, u, Spend(tx.inputs[i]), rest, coins);
        coins := coins + [u[tx.inputs[i]]];
        u := u - {tx.inputs[i]};
      }
      assert InputEvents(tx.inputs[|tx.inputs|..]) + outs == outs;
    }
    for k := 0 to |tx.outputs|
      invariant Remaining(u0, evs, u, OutputEvents(tx, k, height, coinbase), coins)
    {
      if tx.outputs[k].spendable {
        var op := OutPoint(tx.id, k);
        var coin := OutputCoin(tx.outputs[k], height, coinbase);
        ProcessEvent(u0, evs, u, Create(op, coin), OutputEvents(tx, k + 1, height, coinbase), coins);
        assert coins + [] == coins;
        u := u[op := coin];
      }
    }
    EndRemaining(u0, evs, u, coins);
    ok := true;
  }

  /** `connectTransactions`: an error exactly when some input is missing. */
  method ConnectTransactions(u0: Utxo, block: Block, height: nat)
    returns (ok: bool, u: Utxo, coins: seq<Coin>)
    ensures ok <==> InputsPresent(u0, BlockEvents(block.txs, 0, height))
    ensures ok ==> u == Apply(u0, BlockEvents(block.txs, 0, height))
    ensures ok ==> coins == SpentCoins(u0, BlockEvents(block.txs, 0, height))
  {
    hide Remaining, TxEvents, Apply, InputsPresent, SpentCoins;
    ghost var evs := BlockEvents(block.txs, 0, height);
    u, coins := u0, [];
    StartRemaining(u0, evs);
    for i := 0 to |block.txs|
      invariant Remaining(u0, evs, u, BlockEvents(block.txs, i, height), coins)
    {
      var txOk, u', spent := ConnectTransaction(u, block.txs[i], height, i == 0);
      ProcessEvents(u0, evs, u, TxEvents(block.txs[i], height, i == 0),
                    BlockEvents(block.txs, i + 1, height), coins);
      if !txOk {
        return false, u', coins;
      }
      coins := coins + spent;
      u := u';
    }
    EndRemaining(u0, evs, u, coins);
    ok := true;
  }

  /** The spendable outputs of a transaction from position `k` on. */
  function CreatedFrom(tx: Tx, k: nat): set<OutPoint>
  {
    set j | k <= j < |tx.outputs| && tx.outputs[j].spendable :: OutPoint(tx.id, j)
  }

  lemma {:induction false} UndoOutputs(u: Utxo, tx: Tx, k: nat, height: nat, coinbase: bool)
    requires k <= |tx.outputs|
    ensures Undo(u, OutputEvents(tx, k, height, coinbase), []) == u - CreatedFrom(tx, k)
    decreases |tx.outputs| - k
  {
    if k == |tx.outputs| {
      assert u - {} == u;
    } else {
      UndoOutputs(u, tx, k + 1, height, coinbase);
      var evs := OutputEvents(tx, k, height, coinbase);
      if tx.outputs[k].spendable {
        assert evs[1..] == OutputEvents(tx, k + 1, height, coinbase);
        assert CreatedFrom(tx, k) == CreatedFrom(tx, k + 1) + {OutPoint(tx.id, k)};
      } else {
        assert CreatedFrom(tx, k) == CreatedFrom(tx, k + 1);
      }
    }
  }

  /** The inputs of a list have been put back on a set. */
  ghost predicate UndoneTo(u: Utxo, inputs: seq<OutPoint>, coins: seq<Coin>, u': Utxo)
  {
    |coins| == CountSpends(InputEvents(inputs)) == |inputs| && u' == Undo(u, InputEvents(inputs), coins)
  }

  lemma NothingUndone(u: Utxo)
    ensures UndoneTo(u, [], [], u)
  {
  }

  lemma UndoNothing(u: Utxo)
    ensures Undo(u, [], []) == u
  {
  }

  lemma UndoneNext(u: Utxo, inputs: seq<OutPoint>, j: nat, coins: seq<Coin>, u': Utxo, coin: Coin)
    requires j < |inputs| && UndoneTo(u, inputs[j + 1..], coins, u')
    ensures UndoneTo(u, inputs[j..], [coin] + coins, u'[inputs[j] := coin])
  {
    assert inputs[j..][1..] == inputs[j + 1..];
    var evs := InputEvents(inputs[j..]);
    assert evs == [Spend(inputs[j])] + InputEvents(inputs[j + 1..]);
    assert evs[1..] == InputEvents(inputs[j + 1..]);
    assert ([coin] + coins)[1..] == coins;
  }

  lemma {:induction false} CountMonotone(txs: seq<Tx>, i: nat, j: nat)
    requires i <= j <= |txs|
    ensures CountSpentOutputs(txs, j) <= CountSpentOutputs(txs, i)
    decreases j - i
  {
    if i < j {
      CountMonotone(txs, i + 1, j);
    }
  }

  lemma CreatedStep(u: Utxo, tx: Tx, k: nat)
    requires k < |tx.outputs| && tx.outputs[k].spendable
    ensures u - (CreatedFrom(tx, 0) - CreatedFrom(tx, k)) - {OutPoint(tx.id, k)} ==
            u - (CreatedFrom(tx, 0) - CreatedFrom(tx, k + 1))
  {
    assert CreatedFrom(tx, k) == CreatedFrom(tx, k + 1) + {OutPoint(tx.id, k)};
    assert OutPoint(tx.id, k) in CreatedFrom(tx, 0) && OutPoint(tx.id, k) !in CreatedFrom(tx, k + 1);
  }

  lemma CreatedSkip(tx: Tx, k: nat)
    requires k < |tx.outputs| && !tx.outputs[k].spendable
    ensures CreatedFrom(tx, k) == CreatedFrom(tx, k + 1)
  {
  }

  /** Remove the outputs, then restore the inputs last to first. */
  method DisconnectTransaction(u0: Utxo, tx: Tx, height: nat, coinbase: bool, coins: seq<Coin>)
    returns (u: Utxo)
    requires |coins| == CountSpends(TxEvents(tx, height, coinbase))
    ensures u == Undo(u0, TxEvents(tx, height, coinbase), coins)
  {
    hide CountSpends, InputEvents;
    u := u0;
    for k := 0 to |tx.outputs|
      invariant u == u0 - (CreatedFrom(tx, 0) - CreatedFrom(tx, k))
    {
      if tx.outputs[k].spendable {
        CreatedStep(u0, tx, k);
        u := u - {OutPoint(tx.id, k)};
      } else {
        CreatedSkip(tx, k);
      }
    }
    assert CreatedFrom(tx, |tx.outputs|) == {};
    assert CreatedFrom(tx, 0) - {} == CreatedFrom(tx, 0);
    UndoOutputs(u0, tx, 0, height, coinbase);
    ghost var u1 := u;
    if !coinbase {
      assert tx.inputs[|tx.inputs|..] == [] && coins[|coins|..] == [];
      NothingUndone(u1);
      for j := |tx.inputs| downto 0
        invariant UndoneTo(u1, tx.inputs[j..], coins[j..], u)
      {
        UndoneNext(u1, tx.inputs, j, coins[j + 1..], u, coins[j]);
        assert [coins[j]] + coins[j + 1..] == coins[j..];
        u := u[tx.inputs[j] := coins[j]];
      }
      assert tx.inputs[0..] == tx.inputs && coins[0..] == coins;
      UndoConcat(u0, InputEvents(tx.inputs), OutputEvents(tx, 0, height, false), coins, []);
      assert coins + [] == coins;
    } else {
      assert coins == [];
    }
  }

  /** `disconnectTransactions`: an error exactly when the journal entry has the wrong length. */
  method DisconnectTransactions(u0: Utxo, block: Block, height: nat, coins: seq<Coin>)
    returns (ok: bool, u: Utxo)
    ensures ok <==> |coins| == CountSpentOutputs(block.txs, 0)
    ensures ok ==> u == Undo(u0, BlockEvents(block.txs, 0, height), coins)
  {
    hide CountSpends, TxEvents, Undo;
    u := u0;
    if |coins| != CountSpentOutputs(block.txs, 0) {
      return false, u;
    }
    var txs := block.txs;
    var idx := |coins|;
    UndoNothing(u0);
    assert coins[|coins|..] == [];
    for i := |txs| downto 0
      invariant 0 <= idx <= |coins| && |coins| - idx == CountSpentOutputs(txs, i)
      invariant u == Undo(u0, BlockEvents(txs, i, height), coins[idx..])
    {
      CountMonotone(txs, 0, i);
      var start := if i == 0 then idx else idx - |txs[i].inputs|;
      u := DisconnectTransaction(u, txs[i], height, i == 0, coins[start..idx]);
      UndoConcat(u0, TxEvents(txs[i], height, i == 0), BlockEvents(txs, i + 1, height),
                 coins[start..idx], coins[idx..]);
      assert coins[start..] == coins[start..idx] + coins[idx..];
      idx := start;
    }
    assert coins[0..] == coins;
    ok := true;
  }
}
