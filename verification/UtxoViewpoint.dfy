/**
  The view as the source keeps it (utxoviewpoint.go): spent outputs stay in the view, marked.  The unspent part
  of such a view is the set the chain is modelled with.
*/
module UtxoViewpoint {
  import opened Base
  import opened BlockNodes
  import opened Ledger
  import opened UtxoView
  import opened UnspentOutputs

  datatype ViewEntry = ViewEntry(coin: Coin, spent: bool)

  type Entries = map<OutPoint, ViewEntry>

  function Unspent(es: Entries): Utxo
  {
    map op | op in es && !es[op].spent :: es[op].coin
  }

  // ---------------------------------------------------------------------------
  // Events on a view

  function MarkEvent(es: Entries, e: Event): Entries
  {
    match e
    case Spend(op) => if op in es then es[op := es[op].(spent := true)] else es
    case Create(op, coin) => es[op := ViewEntry(coin, false)]
  }

  function Mark(es: Entries, evs: seq<Event>): Entries
    decreases |evs|
  {
    if evs == [] then es else Mark(MarkEvent(es, evs[0]), evs[1..])
  }

  /** Every spend finds an entry, spent or not. */
  predicate EntriesPresent(es: Entries, evs: seq<Event>)
    decreases |evs|
  {
    evs == [] ||
    ((evs[0].Spend? ==> evs[0].op in es) && EntriesPresent(MarkEvent(es, evs[0]), evs[1..]))
  }

  /** No spend finds an entry that is spent already. */
  predicate SpendsOnce(es: Entries, evs: seq<Event>)
    decreases |evs|
  {
    evs == [] ||
    ((evs[0].Spend? && evs[0].op in es ==> !es[evs[0].op].spent) && SpendsOnce(MarkEvent(es, evs[0]), evs[1..]))
  }

  function EntryCoins(es: Entries, evs: seq<Event>): seq<Coin>
    requires EntriesPresent(es, evs)
    decreases |evs|
  {
    if evs == [] then []
    else (if evs[0].Spend? then [es[evs[0].op].coin] else []) + EntryCoins(MarkEvent(es, evs[0]), evs[1..])
  }

  lemma MarkEventUnspent(es: Entries, e: Event)
    ensures Unspent(MarkEvent(es, e)) == ApplyEvent(Unspent(es), e)
  {
    match e
    case Spend(op) =>
      assert forall o :: o in Unspent(MarkEvent(es, e)) <==> o in ApplyEvent(Unspent(es), e);
    case Create(op, coin) =>
      assert forall o :: o in Unspent(MarkEvent(es, e)) <==> o in ApplyEvent(Unspent(es), e);
  }

  /** Marking changes the unspent part as the set changes, spent entries or not. */
  lemma {:induction false} MarkUnspent(es: Entries, evs: seq<Event>)
    ensures Unspent(Mark(es, evs)) == Apply(Unspent(es), evs)
    decreases |evs|
  {
    hide Unspent, MarkEvent, ApplyEvent;
    if evs != [] {
      MarkEventUnspent(es, evs[0]);
      MarkUnspent(MarkEvent(es, evs[0]), evs[1..]);
    }
  }

  /** What the view accepts and the set does not: exactly the spends of an entry that is spent already. */
  lemma {:induction false} PresentIff(es: Entries, evs: seq<Event>)
    ensures InputsPresent(Unspent(es), evs) <==> EntriesPresent(es, evs) && SpendsOnce(es, evs)
    decreases |evs|
  {
    hide MarkEvent, ApplyEvent;
    if evs != [] {
      MarkEventUnspent(es, evs[0]);
      PresentIff(MarkEvent(es, evs[0]), evs[1..]);
    }
  }

  /** And then the details collected are those of the set. */
  lemma {:induction false} SameCoins(es: Entries, evs: seq<Event>)
    requires InputsPresent(Unspent(es), evs) && EntriesPresent(es, evs)
    ensures EntryCoins(es, evs) == SpentCoins(Unspent(es), evs)
    decreases |evs|
  {
    hide MarkEvent, ApplyEvent;
    if evs != [] {
      MarkEventUnspent(es, evs[0]);
      SameCoins(MarkEvent(es, evs[0]), evs[1..]);
    }
  }

  lemma {:induction false} MarkConcat(es: Entries, a: seq<Event>, b: seq<Event>)
    ensures Mark(es, a + b) == Mark(Mark(es, a), b)
    ensures EntriesPresent(es, a + b) <==> EntriesPresent(es, a) && EntriesPresent(Mark(es, a), b)
    decreases |a|
  {
    hide MarkEvent;
    if a == [] {
      assert a + b == b;
    } else {
      assert (a + b)[1..] == a[1..] + b && (a + b)[0] == a[0];
      MarkConcat(MarkEvent(es, a[0]), a[1..], b);
    }
  }

  lemma {:induction false} CoinsConcat(es: Entries, a: seq<Event>, b: seq<Event>)
    requires EntriesPresent(es, a) && EntriesPresent(Mark(es, a), b) && EntriesPresent(es, a + b)
    ensures EntryCoins(es, a + b) == EntryCoins(es, a) + EntryCoins(Mark(es, a), b)
    decreases |a|
  {
    hide MarkEvent;
    if a == [] {
      assert a + b == b;
    } else {
      assert (a + b)[1..] == a[1..] + b && (a + b)[0] == a[0];
      CoinsConcat(MarkEvent(es, a[0]), a[1..], b);
    }
  }

  /** Having processed part of `evs`, what remains from `es` gives the same overall outcome. */
  ghost predicate StillToMark(es0: Entries, evs: seq<Event>, es: Entries, rest: seq<Event>, coins: seq<Coin>)
  {
    && (EntriesPresent(es0, evs) <==> EntriesPresent(es, rest))
    && Mark(es0, evs) == Mark(es, rest)
    && (EntriesPresent(es0, evs) ==> EntryCoins(es0, evs) == coins + EntryCoins(es, rest))
  }

  lemma StartMarking(es: Entries, evs: seq<Event>)
    ensures StillToMark(es, evs, es, evs, [])
  {
  }

  lemma EndMarking(es0: Entries, evs: seq<Event>, es: Entries, coins: seq<Coin>)
    requires StillToMark(es0, evs, es, [], coins)
    ensures EntriesPresent(es0, evs) && es == Mark(es0, evs) && coins == EntryCoins(es0, evs)
  {
    assert coins + [] == coins;
  }

  lemma MarkNext(es0: Entries, evs: seq<Event>, es: Entries, op: OutPoint, rest: seq<Event>, coins: seq<Coin>)
    requires StillToMark(es0, evs, es, [Spend(op)] + rest, coins) && op in es
    ensures StillToMark(es0, evs, es[op := es[op].(spent := true)], rest, coins + [es[op].coin])
  {
    var all := [Spend(op)] + rest;
    assert all[1..] == rest && MarkEvent(es, all[0]) == es[op := es[op].(spent := true)];
    hide MarkEvent;
    if EntriesPresent(es0, evs) {
      assert EntryCoins(es, all) == [es[op].coin] + EntryCoins(MarkEvent(es, all[0]), rest);
    }
  }

  lemma EntryMissing(es0: Entries, evs: seq<Event>, es: Entries, op: OutPoint, rest: seq<Event>, coins: seq<Coin>)
    requires StillToMark(es0, evs, es, [Spend(op)] + rest, coins) && op !in es
    ensures !EntriesPresent(es0, evs)
  {
  }

  lemma MarkSome(es0: Entries, evs: seq<Event>, es: Entries, some: seq<Event>, rest: seq<Event>, coins: seq<Coin>)
    requires StillToMark(es0, evs, es, some + rest, coins)
    ensures !EntriesPresent(es, some) ==> !EntriesPresent(es0, evs)
    ensures EntriesPresent(es, some) ==> StillToMark(es0, evs, Mark(es, some), rest, coins + EntryCoins(es, some))
  {
    hide Mark, EntriesPresent, EntryCoins;
    MarkConcat(es, some, rest);
    if EntriesPresent(es, some + rest) { CoinsConcat(es, some, rest); }
  }

  /** Where the set can take the events, the view does the same. */
  lemma MarkRefines(es: Entries, evs: seq<Event>)
    requires InputsPresent(Unspent(es), evs)
    ensures EntriesPresent(es, evs) && Unspent(Mark(es, evs)) == Apply(Unspent(es), evs)
    ensures EntryCoins(es, evs) == SpentCoins(Unspent(es), evs)
  {
    PresentIff(es, evs);
    MarkUnspent(es, evs);
    SameCoins(es, evs);
  }

  // ---------------------------------------------------------------------------
  // A transaction on a view, entry by entry

  /** New outputs are unspent entries, entries spent are marked, and nothing else changes. */
  ghost predicate TxEntries(es: Entries, tx: Tx, height: nat, coinbase: bool, es': Entries)
  {
    forall op ::
      if HasOutput(tx, op) then op in es' && es'[op] == ViewEntry(Kept(tx, op, height, coinbase), false)
      else
        && (op in es' <==> op in es)
        && (op in es' ==> es'[op] == ViewEntry(es[op].coin, es[op].spent || Consumes(tx, op, coinbase)))
  }

  lemma {:induction false} InputsMarked(es: Entries, inputs: seq<OutPoint>)
    ensures EntriesPresent(es, InputEvents(inputs)) <==> forall op :: op in inputs ==> op in es
    ensures var es' := Mark(es, InputEvents(inputs));
            && es'.Keys == es.Keys
            && forall op :: op in es ==> es'[op] == ViewEntry(es[op].coin, es[op].spent || op in inputs)
    decreases |inputs|
  {
    if inputs != [] {
      assert InputEvents(inputs)[1..] == InputEvents(inputs[1..]);
      assert forall op :: op in inputs <==> op == inputs[0] || op in inputs[1..];
      var es1 := MarkEvent(es, Spend(inputs[0]));
      assert es1.Keys == es.Keys;
      InputsMarked(es1, inputs[1..]);
    }
  }

  lemma {:induction false} InputCoins(es: Entries, inputs: seq<OutPoint>)
    requires EntriesPresent(es, InputEvents(inputs)) && forall op :: op in inputs ==> op in es
    ensures var coins := EntryCoins(es, InputEvents(inputs));
            |coins| == |inputs| && forall j :: 0 <= j < |inputs| ==> coins[j] == es[inputs[j]].coin
    decreases |inputs|
  {
    if inputs != [] {
      assert InputEvents(inputs)[1..] == InputEvents(inputs[1..]);
      assert forall op :: op in inputs[1..] ==> op in inputs;
      InputCoins(MarkEvent(es, Spend(inputs[0])), inputs[1..]);
    }
  }

  lemma {:induction false} OutputsMarked(es: Entries, tx: Tx, k: nat, height: nat, coinbase: bool, op: OutPoint)
    requires k <= |tx.outputs|
    ensures var es' := Mark(es, OutputEvents(tx, k, height, coinbase));
            if HasOutput(tx, op) && k <= op.index then
              op in es' && es'[op] == ViewEntry(Kept(tx, op, height, coinbase), false)
            else (op in es' <==> op in es) && (op in es' ==> es'[op] == es[op])
    decreases |tx.outputs| - k
  {
    if k < |tx.outputs| {
      var evs := OutputEvents(tx, k, height, coinbase);
      if tx.outputs[k].spendable {
        assert evs[1..] == OutputEvents(tx, k + 1, height, coinbase);
        OutputsMarked(MarkEvent(es, evs[0]), tx, k + 1, height, coinbase, op);
      } else {
        OutputsMarked(es, tx, k + 1, height, coinbase, op);
      }
    }
  }

  lemma TxMeaning(es: Entries, tx: Tx, height: nat, coinbase: bool)
    ensures var evs := TxEvents(tx, height, coinbase);
            && (EntriesPresent(es, evs) <==> coinbase || forall op :: op in tx.inputs ==> op in es)
            && TxEntries(es, tx, height, coinbase, Mark(es, evs))
            && (EntriesPresent(es, evs) && !coinbase ==>
                  var coins := EntryCoins(es, evs);
                  |coins| == |tx.inputs| && forall j :: 0 <= j < |coins| ==> coins[j] == es[tx.inputs[j]].coin)
  {
    hide Mark, EntriesPresent, EntryCoins, InputEvents, OutputEvents, HasOutput;
    var outs := OutputEvents(tx, 0, height, coinbase);
    var ins := if coinbase then [] else InputEvents(tx.inputs);
    var es1 := Mark(es, ins);
    OutputsPresent(es1, tx, 0, height, coinbase);
    if coinbase {
      NothingMarked(es);
    } else {
      InputsMarked(es, tx.inputs);
      MarkConcat(es, ins, outs);
      if EntriesPresent(es, ins) {
        InputCoins(es, tx.inputs);
        CoinsConcat(es, ins, outs);
      }
    }
    forall op { OutputsMarked(es1, tx, 0, height, coinbase, op); }
  }

  lemma NothingMarked(es: Entries)
    ensures Mark(es, []) == es && EntriesPresent(es, []) && EntryCoins(es, []) == []
  {
  }

  // ---------------------------------------------------------------------------
  // Undoing on a view

  /** A journal entry, or one of the legacy format completed from another output of the transaction. */
  predicate Completes(coin: Coin, entry: Coin)
  {
    coin == if entry.height > 0 then entry else entry.(height := coin.height, coinbase := coin.coinbase)
  }

  predicate CompletesAll(coins: seq<Coin>, entries: seq<Coin>)
  {
    |coins| == |entries| && forall i :: 0 <= i < |coins| ==> Completes(coins[i], entries[i])
  }

  const MAX_BLOCK_WEIGHT := 4_000_000
  const MIN_TX_OUTPUT_WEIGHT := 4 * 9
  const MAX_OUTPUTS_PER_BLOCK := MAX_BLOCK_WEIGHT / MIN_TX_OUTPUT_WEIGHT

  /** The database part of `fetchEntryByHash`: some unspent output of the transaction. */
  type Stored = Hash -> Option<Coin>

  predicate FirstEntry(es: Entries, txid: Hash, i: nat)
  {
    OutPoint(txid, i) in es && forall j :: 0 <= j < i ==> OutPoint(txid, j) !in es
  }

  // ---------------------------------------------------------------------------
  // The view

  class Viewpoint {
    var entries: Entries

    constructor ()
      ensures entries == map[]
    {
      entries := map[];
    }

    /** All outputs that can be spent, as unspent entries. */
    method AddTxOuts(tx: Tx, height: nat, coinbase: bool)
      modifies this
      ensures entries == Mark(old(entries), OutputEvents(tx, 0, height, coinbase))
    {
      hide MarkEvent;
      for k := 0 to |tx.outputs|
        invariant Mark(old(entries), OutputEvents(tx, 0, height, coinbase)) ==
                  Mark(entries, OutputEvents(tx, k, height, coinbase))
      {
        if tx.outputs[k].spendable {
          ghost var evs := OutputEvents(tx, k, height, coinbase);
          assert evs[1..] == OutputEvents(tx, k + 1, height, coinbase);
          CreateMark(entries, OutPoint(tx.id, k), OutputCoin(tx.outputs[k], height, coinbase));
          entries := entries[OutPoint(tx.id, k) := ViewEntry(OutputCoin(tx.outputs[k], height, coinbase), false)];
        }
      }
    }

    /** Mark what the transaction spends, then add what it creates; an error exactly when an entry is missing. */
    method ConnectTransaction(tx: Tx, height: nat, coinbase: bool) returns (ok: bool, stxos: seq<Coin>)
      modifies this
      ensures ok <==> EntriesPresent(old(entries), TxEvents(tx, height, coinbase))
      ensures ok ==> entries == Mark(old(entries), TxEvents(tx, height, coinbase))
      ensures ok ==> stxos == EntryCoins(old(entries), TxEvents(tx, height, coinbase))
      ensures ok <==> coinbase || forall op :: op in tx.inputs ==> op in old(entries)
      ensures ok ==> TxEntries(old(entries), tx, height, coinbase, entries)
      ensures ok && !coinbase ==>
        |stxos| == |tx.inputs| && forall j :: 0 <= j < |stxos| ==> stxos[j] == old(entries)[tx.inputs[j]].coin
    {
      hide StillToMark, Mark, EntriesPresent, EntryCoins, TxEntries;
      ghost var es0, evs := entries, TxEvents(tx, height, coinbase);
      TxMeaning(es0, tx, height, coinbase);
      ghost var outs := OutputEvents(tx, 0, height, coinbase);
      stxos := [];
      StartMarking(es0, evs);
      if !coinbase {
        assert tx.inputs[0..] == tx.inputs;
        for i := 0 to |tx.inputs|
          invariant StillToMark(es0, evs, entries, InputEvents(tx.inputs[i..]) + outs, stxos)
        {
          var op := tx.inputs[i];
          ghost var rest := InputEvents(tx.inputs[i + 1..]) + outs;
          assert tx.inputs[i..][1..] == tx.inputs[i + 1..];
          assert InputEvents(tx.inputs[i..]) + outs == [Spend(op)] + rest;
          if op !in entries {
            EntryMissing(es0, evs, entries, op, rest, stxos);
            return false, stxos;
          }
          MarkNext(es0, evs, entries, op, rest, stxos);
          stxos := stxos + [entries[op].coin];
          entries := entries[op := entries[op].(spent := true)];
        }
        assert InputEvents(tx.inputs[|tx.inputs|..]) + outs == outs;
      }
      assert outs + [] == outs;
      MarkSome(es0, evs, entries, outs, [], stxos);
      OutputsPresent(entries, tx, 0, height, coinbase);
      AddTxOuts(tx, height, coinbase);
      assert stxos + [] == stxos;
      EndMarking(es0, evs, entries, stxos);
      ok := true;
    }

    /** Where the plain set can take the block, the view does as the set does. */
    method ConnectTransactions(block: Block, height: nat) returns (ok: bool, stxos: seq<Coin>)
      modifies this
      ensures ok <==> EntriesPresent(old(entries), BlockEvents(block.txs, 0, height))
      ensures ok ==> entries == Mark(old(entries), BlockEvents(block.txs, 0, height))
      ensures ok ==> stxos == EntryCoins(old(entries), BlockEvents(block.txs, 0, height))
      ensures InputsPresent(Unspent(old(entries)), BlockEvents(block.txs, 0, height)) ==>
        && ok && Unspent(entries) == Apply(Unspent(old(entries)), BlockEvents(block.txs, 0, height))
        && stxos == SpentCoins(Unspent(old(entries)), BlockEvents(block.txs, 0, height))
    {
      hide StillToMark, Mark, EntriesPresent, EntryCoins, TxEvents, InputsPresent, Apply, SpentCoins, Unspent;
      ghost var es0, evs := entries, BlockEvents(block.txs, 0, height);
      if InputsPresent(Unspent(es0), evs) { MarkRefines(es0, evs); }
      stxos := [];
      StartMarking(es0, evs);
      for i := 0 to |block.txs|
        invariant StillToMark(es0, evs, entries, BlockEvents(block.txs, i, height), stxos)
      {
        ghost var rest := BlockEvents(block.txs, i + 1, height);
        MarkSome(es0, evs, entries, TxEvents(block.txs[i], height, i == 0), rest, stxos);
        var txOk, spent := ConnectTransaction(block.txs[i], height, i == 0);
        if !txOk {
          return false, stxos;
        }
        stxos := stxos + spent;
      }
      EndMarking(es0, evs, entries, stxos);
      ok := true;
    }

    /** Mark the outputs of a transaction as spent, adding those that have no entry yet. */
    method SpendOutputs(tx: Tx, height: nat, coinbase: bool)
      modifies this
      ensures Unspent(entries) == Unspent(old(entries)) - CreatedFrom(tx, 0)
      ensures old(entries).Keys <= entries.Keys
    {
      for k := 0 to |tx.outputs|
        invariant Unspent(entries) == Unspent(old(entries)) - (CreatedFrom(tx, 0) - CreatedFrom(tx, k))
        invariant old(entries).Keys <= entries.Keys
      {
        if tx.outputs[k].spendable {
          var op := OutPoint(tx.id, k);
          var coin := if op in entries then entries[op].coin else OutputCoin(tx.outputs[k], height, coinbase);
          SpentLeaves(entries, op, coin);
          CreatedStep(Unspent(old(entries)), tx, k);
          entries := entries[op := ViewEntry(coin, true)];
        } else {
          CreatedSkip(tx, k);
        }
      }
      assert CreatedFrom(tx, |tx.outputs|) == {};
    }

    /** The first entry of the transaction in the view, spent or not, or else a stored one. */
    method FetchEntryByHash(txid: Hash, stored: Stored) returns (r: Option<Coin>)
      ensures forall i :: 0 <= i < MAX_OUTPUTS_PER_BLOCK && FirstEntry(entries, txid, i) ==>
        r == Some(entries[OutPoint(txid, i)].coin)
      ensures (forall i :: 0 <= i < MAX_OUTPUTS_PER_BLOCK ==> OutPoint(txid, i) !in entries) ==> r == stored(txid)
    {
      for i := 0 to MAX_OUTPUTS_PER_BLOCK
        invariant forall j :: 0 <= j < i ==> OutPoint(txid, j) !in entries
      {
        if OutPoint(txid, i) in entries {
          return Some(entries[OutPoint(txid, i)].coin);
        }
      }
      r := stored(txid);
    }

    /**
      Take the outputs of a transaction away, then put back what it spent, last input first.  `used` are the
      details that were put back: those given, completed where they are of the legacy format.
    */
    method DisconnectTransaction(tx: Tx, height: nat, coinbase: bool, stxos: seq<Coin>, stored: Stored)
      returns (ok: bool, ghost used: seq<Coin>)
      requires |stxos| == CountSpends(TxEvents(tx, height, coinbase))
      modifies this
      ensures (forall c :: c in stxos ==> c.height > 0) ==> ok
      ensures ok ==> CompletesAll(used, stxos)
      ensures ok ==> Unspent(entries) == Undo(Unspent(old(entries)), TxEvents(tx, height, coinbase), used)
    {
      hide Unspent, CountSpends, InputEvents;
      ghost var u0 := Unspent(entries);
      used := [];
      SpendOutputs(tx, height, coinbase);
      UndoOutputs(u0, tx, 0, height, coinbase);
      ghost var u1 := Unspent(entries);
      if !coinbase {
        assert tx.inputs[|tx.inputs|..] == [];
        NothingUndone(u1);
        for j := |tx.inputs| downto 0
          invariant CompletesAll(used, stxos[j..])
          invariant UndoneTo(u1, tx.inputs[j..], used, Unspent(entries))
        {
          var coin := stxos[j];
          assert coin in stxos;
          if coin.height == 0 {
            var found := FetchEntryByHash(tx.id, stored);
            if found.None? {
              return false, used;
            }
            coin := coin.(height := found.value.height, coinbase := found.value.coinbase);
          }
          UndoneNext(u1, tx.inputs, j, used, Unspent(entries), coin);
          Restored(entries, tx.inputs[j], coin);
          CompletesNext(coin, used, stxos, j);
          used := [coin] + used;
          entries := entries[tx.inputs[j] := ViewEntry(coin, false)];
        }
        assert tx.inputs[0..] == tx.inputs && stxos[0..] == stxos;
        UndoConcat(u0, InputEvents(tx.inputs), OutputEvents(tx, 0, height, false), used, []);
        assert used + [] == used;
      }
      ok := true;
    }

    /** All transactions of a block, last first; an error of the length, or of a legacy entry nothing is found for. */
    method DisconnectTransactions(block: Block, height: nat, stxos: seq<Coin>, stored: Stored)
      returns (ok: bool, ghost used: seq<Coin>)
      modifies this
      ensures |stxos| != CountSpentOutputs(block.txs, 0) ==> !ok
      ensures |stxos| == CountSpentOutputs(block.txs, 0) && (forall c :: c in stxos ==> c.height > 0) ==>
        ok && used == stxos
      ensures ok ==> CompletesAll(used, stxos) && |used| == CountSpentOutputs(block.txs, 0)
      ensures ok ==> Unspent(entries) == Undo(Unspent(old(entries)), BlockEvents(block.txs, 0, height), used)
    {
      hide Unspent, CountSpends, TxEvents, Undo;
      used := [];
      if |stxos| != CountSpentOutputs(block.txs, 0) {
        return false, used;
      }
      ghost var u0 := Unspent(entries);
      var txs := block.txs;
      var idx := |stxos|;
      UndoNothing(u0);
      for i := |txs| downto 0
        invariant 0 <= idx <= |stxos| && |stxos| - idx == CountSpentOutputs(txs, i) == |used|
        invariant CompletesAll(used, stxos[idx..])
        invariant Unspent(entries) == Undo(u0, BlockEvents(txs, i, height), used)
      {
        CountMonotone(txs, 0, i);
        var start := if i == 0 then idx else idx - |txs[i].inputs|;
        ghost var evs := TxEvents(txs[i], height, i == 0);
        var txOk: bool;
        ghost var more;
        assert forall c :: c in stxos[start..idx] ==> c in stxos;
        txOk, more := DisconnectTransaction(txs[i], height, i == 0, stxos[start..idx], stored);
        if !txOk {
          return false, used;
        }
        UndoConcat(u0, evs, BlockEvents(txs, i + 1, height), more, used);
        CompletesJoin(more, used, stxos, start, idx);
        used := more + used;
        idx := start;
      }
      CompletesPlain(used, stxos);
      ok := true;
    }
  }

  lemma Restored(es: Entries, op: OutPoint, coin: Coin)
    ensures Unspent(es[op := ViewEntry(coin, false)]) == Unspent(es)[op := coin]
  {
  }

  lemma CompletesNext(coin: Coin, used: seq<Coin>, stxos: seq<Coin>, j: nat)
    requires j < |stxos| && CompletesAll(used, stxos[j + 1..]) && Completes(coin, stxos[j])
    ensures CompletesAll([coin] + used, stxos[j..])
  {
    assert stxos[j..] == [stxos[j]] + stxos[j + 1..];
  }

  lemma CompletesJoin(a: seq<Coin>, b: seq<Coin>, stxos: seq<Coin>, start: nat, idx: nat)
    requires start <= idx <= |stxos| && CompletesAll(a, stxos[start..idx]) && CompletesAll(b, stxos[idx..])
    ensures CompletesAll(a + b, stxos[start..])
  {
    assert stxos[start..] == stxos[start..idx] + stxos[idx..];
  }

  lemma CompletesPlain(used: seq<Coin>, stxos: seq<Coin>)
    ensures CompletesAll(used, stxos[0..]) ==> CompletesAll(used, stxos)
    ensures CompletesAll(used, stxos) && (forall c :: c in stxos ==> c.height > 0) ==> used == stxos
  {
    assert stxos[0..] == stxos;
  }

  lemma CreateMark(es: Entries, op: OutPoint, coin: Coin)
    ensures MarkEvent(es, Create(op, coin)) == es[op := ViewEntry(coin, false)]
  {
  }

  lemma SpentLeaves(es: Entries, op: OutPoint, coin: Coin)
    ensures Unspent(es[op := ViewEntry(coin, true)]) == Unspent(es) - {op}
  {
  }

  lemma {:induction false} OutputsPresent(es: Entries, tx: Tx, k: nat, height: nat, coinbase: bool)
    requires k <= |tx.outputs|
    ensures EntriesPresent(es, OutputEvents(tx, k, height, coinbase))
    ensures EntryCoins(es, OutputEvents(tx, k, height, coinbase)) == []
    decreases |tx.outputs| - k
  {
    if k < |tx.outputs| {
      var evs := OutputEvents(tx, k, height, coinbase);
      if tx.outputs[k].spendable {
        assert evs[1..] == OutputEvents(tx, k + 1, height, coinbase);
        OutputsPresent(MarkEvent(es, evs[0]), tx, k + 1, height, coinbase);
      } else {
        OutputsPresent(es, tx, k + 1, height, coinbase);
      }
    }
  }
}
