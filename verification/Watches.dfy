/** The watch indexes of the notification manager (rpcwebsocket.go). */
module Watches {
  import opened BlockNodes

  /** A websocket client, known by its quit channel. */
  type Client = nat

  /** Who watches a key, and what each client has asked to watch. */
  datatype Watch<K> = Watch(byKey: map<K, set<Client>>, byClient: map<Client, set<K>>)

  function Watching<K(==)>(w: Watch<K>, k: K): set<Client>
  {
    if k in w.byKey then w.byKey[k] else {}
  }

  function Requests<K>(w: Watch<K>, c: Client): set<K>
  {
    if c in w.byClient then w.byClient[c] else {}
  }

  /** The two sides name the same pairs, and no key is kept for nobody. */
  ghost predicate Agree<K(!new)>(w: Watch<K>)
  {
    && (forall k, c :: c in Watching(w, k) <==> k in Requests(w, c))
    && (forall k :: k in w.byKey ==> w.byKey[k] != {})
  }

  // ---------------------------------------------------------------------------
  // One request

  function AddOne<K(==)>(w: Watch<K>, c: Client, k: K): Watch<K>
  {
    Watch(w.byKey[k := Watching(w, k) + {c}], w.byClient[c := Requests(w, c) + {k}])
  }

  function RemoveOne<K(==)>(w: Watch<K>, c: Client, k: K): Watch<K>
  {
    var left := Watching(w, k) - {c};
    Watch(if k !in w.byKey then w.byKey else if left == {} then w.byKey - {k} else w.byKey[k := left],
          w.byClient[c := Requests(w, c) - {k}])
  }

  lemma AddAgrees<K(!new)>(w: Watch<K>, c: Client, k: K)
    requires Agree(w)
    ensures var w' := AddOne(w, c, k);
            && Agree(w')
            && (forall m, d {:trigger d in Watching(w', m)} :: d in Watching(w', m) <==>
              d in Watching(w, m) || (m == k && d == c))
  {
    var w' := AddOne(w, c, k);
    forall m, d
      ensures d in Watching(w', m) <==> m in Requests(w', d)
      ensures d in Watching(w', m) <==> d in Watching(w, m) || (m == k && d == c)
    {
      assert d in Watching(w, m) <==> m in Requests(w, d);
    }
  }

  lemma RemoveAgrees<K(!new)>(w: Watch<K>, c: Client, k: K)
    requires Agree(w)
    ensures var w' := RemoveOne(w, c, k);
            && Agree(w')
            && (forall m, d {:trigger d in Watching(w', m)} :: d in Watching(w', m) <==>
              d in Watching(w, m) && !(m == k && d == c))
  {
    var w' := RemoveOne(w, c, k);
    forall m, d
      ensures d in Watching(w', m) <==> m in Requests(w', d)
      ensures d in Watching(w', m) <==> d in Watching(w, m) && !(m == k && d == c)
    {
      assert d in Watching(w, m) <==> m in Requests(w, d);
    }
  }

  // ---------------------------------------------------------------------------
  // Many requests

  /** `addSpentRequests` and `addAddrRequests`. */
  function AddRequests<K(==)>(w: Watch<K>, c: Client, ks: seq<K>): Watch<K>
    decreases |ks|
  {
    if ks == [] then w else AddRequests(AddOne(w, c, ks[0]), c, ks[1..])
  }

  lemma {:induction false} AddRequestsAgree<K(!new)>(w: Watch<K>, c: Client, ks: seq<K>)
    requires Agree(w)
    ensures var w' := AddRequests(w, c, ks);
            && Agree(w')
            && (forall m, d {:trigger d in Watching(w', m)} :: d in Watching(w', m) <==>
              d in Watching(w, m) || (m in ks && d == c))
    decreases |ks|
  {
    hide AddOne, Agree, Watching;
    if ks != [] {
      AddAgrees(w, c, ks[0]);
      AddRequestsAgree(AddOne(w, c, ks[0]), c, ks[1..]);
    }
  }

  /** A client's own requests, removed one after the other in some order. */
  function RemoveRequests<K(==)>(w: Watch<K>, c: Client, ks: seq<K>): Watch<K>
    decreases |ks|
  {
    if ks == [] then w else RemoveRequests(RemoveOne(w, c, ks[0]), c, ks[1..])
  }

  lemma {:induction false} RemoveRequestsAgree<K(!new)>(w: Watch<K>, c: Client, ks: seq<K>)
    requires Agree(w)
    ensures var w' := RemoveRequests(w, c, ks);
            && Agree(w')
            && (forall m, d {:trigger d in Watching(w', m)} :: d in Watching(w', m) <==>
              d in Watching(w, m) && !(m in ks && d == c))
    decreases |ks|
  {
    hide RemoveOne, Agree, Watching;
    if ks != [] {
      RemoveAgrees(w, c, ks[0]);
      RemoveRequestsAgree(RemoveOne(w, c, ks[0]), c, ks[1..]);
    }
  }

  /** The list names the members of the set. */
  ghost predicate Enumerates<T(!new)>(list: seq<T>, s: set<T>)
  {
    forall x :: x in list <==> x in s
  }

  /** Removing all of a client's requests leaves it watching nothing, and nobody else affected. */
  lemma ClientGone<K(!new)>(w: Watch<K>, c: Client, ks: seq<K>)
    requires Agree(w) && Enumerates(ks, Requests(w, c))
    ensures var w' := RemoveRequests(w, c, ks);
            && Agree(w') && Requests(w', c) == {}
            && (forall m, d {:trigger d in Watching(w', m)} :: d in Watching(w', m) <==> d in Watching(w, m) && d != c)
  {
    RemoveRequestsAgree(w, c, ks);
    var w' := RemoveRequests(w, c, ks);
    forall m, d ensures d in Watching(w', m) <==> d in Watching(w, m) && d != c
    {
      assert d in Watching(w, m) <==> m in Requests(w, d);
    }
    forall m ensures m !in Requests(w', c)
    {
      assert c in Watching(w', m) <==> m in Requests(w', c);
    }
  }

  /** Clients taken off one key, in some order. */
  function RemoveClients<K(==)>(w: Watch<K>, cs: seq<Client>, k: K): Watch<K>
    decreases |cs|
  {
    if cs == [] then w else RemoveClients(RemoveOne(w, cs[0], k), cs[1..], k)
  }

  lemma {:induction false} RemoveClientsAgree<K(!new)>(w: Watch<K>, cs: seq<Client>, k: K)
    requires Agree(w)
    ensures var w' := RemoveClients(w, cs, k);
            && Agree(w')
            && (forall m, d {:trigger d in Watching(w', m)} :: d in Watching(w', m) <==>
              d in Watching(w, m) && !(m == k && d in cs))
    decreases |cs|
  {
    hide RemoveOne, Agree, Watching;
    if cs != [] {
      RemoveAgrees(w, cs[0], k);
      RemoveClientsAgree(RemoveOne(w, cs[0], k), cs[1..], k);
      var w1, w' := RemoveOne(w, cs[0], k), RemoveClients(w, cs, k);
      forall m, d ensures d in Watching(w', m) <==> d in Watching(w, m) && !(m == k && d in cs)
      {
        assert d in cs <==> d == cs[0] || d in cs[1..];
        assert d in Watching(w1, m) <==> d in Watching(w, m) && !(m == k && d == cs[0]);
      }
    }
  }

  /** Agreement leaves no choice: two agreeing indexes with the same watchers are the same to every reader. */
  ghost predicate SameWatches<K(!new)>(w: Watch<K>, w': Watch<K>)
  {
    && w'.byKey == w.byKey
    && (forall c :: Requests(w', c) == Requests(w, c))
  }

  lemma WatchersDetermine<K(!new)>(w: Watch<K>, w': Watch<K>)
    requires Agree(w) && Agree(w') && forall k :: Watching(w', k) == Watching(w, k)
    ensures SameWatches(w, w')
  {
    forall k ensures k in w.byKey <==> k in w'.byKey
    {
      assert Watching(w', k) == Watching(w, k);
      assert k in w.byKey ==> w.byKey[k] != {};
      assert k in w'.byKey ==> w'.byKey[k] != {};
    }
    forall k | k in w.byKey ensures w'.byKey[k] == w.byKey[k]
    {
      assert Watching(w', k) == Watching(w, k);
    }
    assert w'.byKey == w.byKey;
    forall c ensures Requests(w', c) == Requests(w, c)
    {
      forall k ensures k in Requests(w', c) <==> k in Requests(w, c)
      {
        assert c in Watching(w, k) <==> k in Requests(w, c);
        assert c in Watching(w', k) <==> k in Requests(w', c);
      }
    }
  }

  // ---------------------------------------------------------------------------
  // Transactions

  /** Every client that watches one of some keys. */
  ghost function WatchingAny<K>(w: Watch<K>, ks: seq<K>): set<Client>
  {
    if ks == [] then {} else Watching(w, ks[0]) + WatchingAny(w, ks[1..])
  }

  lemma {:induction false} WatchingAnyIff<K>(w: Watch<K>, ks: seq<K>, c: Client)
    ensures c in WatchingAny(w, ks) <==> exists i :: 0 <= i < |ks| && c in Watching(w, ks[i])
    decreases |ks|
  {
    if ks != [] {
      WatchingAnyIff(w, ks[1..], c);
      if c in WatchingAny(w, ks[1..]) {
        var i :| 0 <= i < |ks[1..]| && c in Watching(w, ks[1..][i]);
        assert c in Watching(w, ks[i + 1]);
      }
      if i :| 0 <= i < |ks| && c in Watching(w, ks[i]) {
        assert i > 0 ==> ks[1..][i - 1] == ks[i];
      }
    }
  }

  lemma {:induction false} WatchingAnyMore<K>(w: Watch<K>, ks: seq<K>, i: nat)
    requires i < |ks|
    ensures WatchingAny(w, ks[..i + 1]) == WatchingAny(w, ks[..i]) + Watching(w, ks[i])
    decreases i
  {
    if i > 0 {
      WatchingAnyMore(w, ks[1..], i - 1);
      assert ks[..i + 1][1..] == ks[1..][..i] && ks[..i][1..] == ks[1..][..i - 1];
    } else {
      assert ks[..1][1..] == [];
    }
  }

  lemma WatchingOne<K>(w: Watch<K>, ks: seq<K>, k: K)
    requires k in ks
    ensures Watching(w, k) <= WatchingAny(w, ks)
  {
    var i :| 0 <= i < |ks| && ks[i] == k;
    forall c | c in Watching(w, k) ensures c in WatchingAny(w, ks)
    {
      WatchingAnyIff(w, ks, c);
    }
  }

  /** Addresses an output pays to; none if its script cannot be read. */
  type Payees = TxOut -> seq<string>

  /** Who is to watch an outpoint because the transaction pays an address they watch. */
  ghost function PaidWatchers(addrs: Watch<string>, tx: Tx, count: nat, pays: Payees, op: OutPoint): set<Client>
    requires count <= |tx.outputs|
  {
    if op.txid == tx.id && op.index < count then WatchingAny(addrs, pays(tx.outputs[op.index])) else {}
  }

  /**
    Who watches an outpoint after some transactions of a connected block: a spend ends a watch, a payment
    starts one.
  */
  ghost function AfterBlock(w: Watch<OutPoint>, addrs: Watch<string>, txs: seq<Tx>, n: nat, pays: Payees,
          op: OutPoint): set<Client>
    requires n <= |txs|
  {
    if n == 0 then Watching(w, op)
    else
      (if op in txs[n - 1].inputs then {} else AfterBlock(w, addrs, txs, n - 1, pays, op)) +
      PaidWatchers(addrs, txs[n - 1], |txs[n - 1].outputs|, pays, op)
  }
}
