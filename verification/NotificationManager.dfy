/** The notification manager: one message at a time, as `notificationHandler` takes them. */
module NotificationManager {
  import opened BlockNodes
  import opened Watches

  datatype Msg =
    | BlockConnected(txs: seq<Tx>)
    | BlockDisconnected
    | TxAccepted(tx: Tx)
    | RegisterBlocks(c: Client)
    | UnregisterBlocks(c: Client)
    | RegisterClient(c: Client)
    | UnregisterClient(c: Client)
    | RegisterSpent(c: Client, ops: seq<OutPoint>)
    | UnregisterSpent(c: Client, op: OutPoint)
    | RegisterAddr(c: Client, addrs: seq<string>)
    | UnregisterAddr(c: Client, addr: string)
    | RegisterNewMempoolTxs(c: Client)
    | UnregisterNewMempoolTxs(c: Client)

  method ListSet<T(==)>(s: set<T>) returns (list: seq<T>)
    ensures forall x :: x in list <==> x in s
  {
    list := [];
    var pending := s;
    while pending != {}
      invariant pending <= s && forall x :: x in list <==> x in s && x !in pending
    {
      var x :| x in pending;
      pending := pending - {x};
      list := list + [x];
    }
  }

  /** The messages that can change who watches which outpoint. */
  predicate AboutOutPoints(msg: Msg)
  {
    msg.UnregisterClient? || msg.BlockConnected? || msg.TxAccepted? || msg.RegisterSpent? || msg.UnregisterSpent?
  }

  /** The messages a client causes. */
  predicate MadeBy(msg: Msg, c: Client)
  {
    !msg.BlockConnected? && !msg.BlockDisconnected? && !msg.TxAccepted? && msg.c == c
  }

  class Manager {
    var clients: set<Client>
    var blockNotifications: set<Client>
    var txNotifications: set<Client>
    var watchedOutPoints: map<OutPoint, set<Client>>
    var watchedAddrs: map<string, set<Client>>
    var spentRequests: map<Client, set<OutPoint>>  // kept by each client
    var addrRequests: map<Client, set<string>>  // kept by each client

    ghost function Spent(): Watch<OutPoint>
      reads this
    {
      Watch(watchedOutPoints, spentRequests)
    }

    ghost function Addrs(): Watch<string>
      reads this
    {
      Watch(watchedAddrs, addrRequests)
    }

    ghost predicate Valid()
      reads this
    {
      Agree(Spent()) && Agree(Addrs())
    }

    /** The client is in no map. */
    ghost predicate Absent(c: Client)
      reads this
    {
      && c !in clients && c !in blockNotifications && c !in txNotifications
      && (forall op :: op in watchedOutPoints ==> c !in watchedOutPoints[op])
      && (forall addr :: addr in watchedAddrs ==> c !in watchedAddrs[addr])
      && Requests(Spent(), c) == {} && Requests(Addrs(), c) == {}
    }

    constructor ()
      ensures Valid() && clients == {} && watchedOutPoints == map[] && watchedAddrs == map[]
    {
      clients, blockNotifications, txNotifications := {}, {}, {};
      watchedOutPoints, watchedAddrs, spentRequests, addrRequests := map[], map[], map[], map[];
    }

    // -------------------------------------------------------------------------
    // Outpoints

    method AddSpentRequests(c: Client, ops: seq<OutPoint>)
      modifies `watchedOutPoints, `spentRequests
      ensures Spent() == AddRequests(old(Spent()), c, ops)
    {
      ghost var w := Spent();
      assert ops[0..] == ops;
      for i := 0 to |ops|
        invariant AddRequests(w, c, ops) == AddRequests(Spent(), c, ops[i..])
      {
        assert ops[i..][0] == ops[i] && ops[i..][1..] == ops[i + 1..];
        var op := ops[i];
        var mine := if c in spentRequests then spentRequests[c] else {};
        spentRequests := spentRequests[c := mine + {op}];
        var cmap := if op in watchedOutPoints then watchedOutPoints[op] else {};
        watchedOutPoints := watchedOutPoints[op := cmap + {c}];
      }
    }

    method RemoveSpentRequest(c: Client, op: OutPoint)
      modifies `watchedOutPoints, `spentRequests
      ensures Spent() == RemoveOne(old(Spent()), c, op)
    {
      var mine := if c in spentRequests then spentRequests[c] else {};
      spentRequests := spentRequests[c := mine - {op}];
      if op !in watchedOutPoints {
        return;
      }
      var notifyMap := watchedOutPoints[op] - {c};
      if notifyMap == {} {
        watchedOutPoints := watchedOutPoints - {op};
      } else {
        watchedOutPoints := watchedOutPoints[op := notifyMap];
      }
    }

    /** Everyone who watches an outpoint; in a block their requests are done with. */
    method NotifySpend(op: OutPoint, inBlock: bool) returns (told: set<Client>)
      requires Agree(Spent())
      modifies `watchedOutPoints, `spentRequests
      ensures Agree(Spent()) && told == Watching(old(Spent()), op)
      ensures forall k :: Watching(Spent(), k) == if inBlock && k == op then {} else Watching(old(Spent()), k)
    {
      hide Agree, RemoveOne, RemoveClients;
      if op !in watchedOutPoints {
        return {};
      }
      ghost var w := Spent();
      told := watchedOutPoints[op];
      if inBlock {
        var list := ListSet(told);
        RemoveClientsAgree(w, list, op);
        assert list[0..] == list;
        for i := 0 to |list|
          invariant RemoveClients(w, list, op) == RemoveClients(Spent(), list[i..], op)
        {
          assert list[i..][0] == list[i] && list[i..][1..] == list[i + 1..];
          RemoveClientsStep(Spent(), list[i..], op);
          RemoveSpentRequest(list[i], op);
        }
        NoClientsLeft(Spent(), op);
        assert list[|list|..] == [];
        forall k ensures Watching(Spent(), k) == if k == op then {} else Watching(w, k)
        {
          assert forall d :: d in Watching(Spent(), k) <==> d in Watching(w, k) && !(k == op && d in list);
        }
      }
    }

    /** Tell everyone who watches an input. Each client is told once. */
    method NotifyForTxIns(tx: Tx, inBlock: bool) returns (told: set<Client>)
      requires Agree(Spent())
      modifies `watchedOutPoints, `spentRequests
      ensures Agree(Spent()) && told == WatchingAny(old(Spent()), tx.inputs)
      ensures forall op :: Watching(Spent(), op) ==
                           if inBlock && op in tx.inputs then {} else Watching(old(Spent()), op)
    {
      hide Agree, Watching, WatchingAny;
      told := {};
      ghost var w := Spent();
      WatchingNone(w);
      assert tx.inputs[..0] == [];
      for i := 0 to |tx.inputs|
        invariant Agree(Spent()) && told == WatchingAny(w, tx.inputs[..i])
        invariant forall op :: Watching(Spent(), op) == if inBlock && op in tx.inputs[..i] then {} else Watching(w, op)
      {
        var op := tx.inputs[i];
        assert tx.inputs[..i + 1] == tx.inputs[..i] + [op];
        WatchingAnyMore(w, tx.inputs, i);
        if op in tx.inputs[..i] {
          WatchingOne(w, tx.inputs[..i], op);
        }
        var cs := NotifySpend(op, inBlock);
        assert told + cs == told + Watching(w, op);
        told := told + cs;
      }
      assert tx.inputs[..|tx.inputs|] == tx.inputs;
    }

    /** Have everyone who watches an address watch an outpoint as well. */
    method NotifyPayment(addr: string, op: OutPoint) returns (told: set<Client>)
      requires Agree(Spent())
      modifies `watchedOutPoints, `spentRequests
      ensures Agree(Spent()) && told == Watching(Addrs(), addr)
      ensures forall k :: Watching(Spent(), k) == Watching(old(Spent()), k) + if k == op then told else {}
    {
      hide Agree, AddRequests;
      if addr !in watchedAddrs {
        return {};
      }
      ghost var w := Spent();
      told := watchedAddrs[addr];
      var list := ListSet(told);
      for i := 0 to |list|
        invariant Agree(Spent())
        invariant forall k, d {:trigger d in Watching(Spent(), k)} :: d in Watching(Spent(), k) <==>
          d in Watching(w, k) || (k == op && d in list[..i])
      {
        assert list[..i + 1] == list[..i] + [list[i]];
        AddRequestsAgree(Spent(), list[i], [op]);
        ghost var w1 := Spent();
        AddSpentRequests(list[i], [op]);
        forall k, d ensures d in Watching(Spent(), k) <==> d in Watching(w, k) || (k == op && d in list[..i + 1])
        {
          assert d in Watching(w1, k) <==> d in Watching(w, k) || (k == op && d in list[..i]);
          assert d in Watching(Spent(), k) <==> d in Watching(w1, k) || (k in [op] && d == list[i]);
        }
      }
      assert list[..|list|] == list;
      forall k ensures Watching(Spent(), k) == Watching(w, k) + if k == op then told else {}
      {
        assert forall d :: d in Watching(Spent(), k) <==> d in Watching(w, k) || (k == op && d in list);
      }
    }

    /** Tell everyone who watches an address that is paid, and register them for the outputs. */
    method NotifyForTxOuts(tx: Tx, pays: Payees)
      requires Agree(Spent())
      modifies `watchedOutPoints, `spentRequests
      ensures Agree(Spent())
      ensures forall op :: Watching(Spent(), op) ==
                           Watching(old(Spent()), op) + PaidWatchers(Addrs(), tx, |tx.outputs|, pays, op)
    {
      hide Agree, Watching, WatchingAny;
      ghost var w := Spent();
      for i := 0 to |tx.outputs|
        invariant Agree(Spent())
        invariant forall op :: Watching(Spent(), op) == Watching(w, op) + PaidWatchers(Addrs(), tx, i, pays, op)
      {
        var op := OutPoint(tx.id, i);
        var addrs := pays(tx.outputs[i]);
        ghost var w1 := Spent();
        WatchingNone(Addrs());
        assert addrs[..0] == [];
        for j := 0 to |addrs|
          invariant Agree(Spent())
          invariant forall k :: Watching(Spent(), k) ==
                                Watching(w1, k) + if k == op then WatchingAny(Addrs(), addrs[..j]) else {}
        {
          WatchingAnyMore(Addrs(), addrs, j);
          var _ := NotifyPayment(addrs[j], op);
        }
        assert addrs[..|addrs|] == addrs;
      }
    }

    /**
      What a transaction does to the outpoints watched: spent ones in a block are dropped, then outputs to
      watched addresses are added.
    */
    ghost predicate Seen(w: Watch<OutPoint>, tx: Tx, inBlock: bool, pays: Payees)
      reads this
    {
      forall op :: Watching(Spent(), op) ==
                   (if inBlock && op in tx.inputs then {} else Watching(w, op)) +
                   PaidWatchers(Addrs(), tx, |tx.outputs|, pays, op)
    }

    method NotifyForTx(tx: Tx, inBlock: bool, pays: Payees)
      requires Valid()
      modifies `watchedOutPoints, `spentRequests
      ensures Valid() && Seen(old(Spent()), tx, inBlock, pays)
    {
      hide Agree;
      NobodyWatching(Spent());
      NobodyWatching(Addrs());
      if |watchedOutPoints| != 0 {
        var _ := NotifyForTxIns(tx, inBlock);
      }
      NobodyPaid(Addrs(), tx, pays);
      if |watchedAddrs| != 0 {
        NotifyForTxOuts(tx, pays);
      }
    }

    // -------------------------------------------------------------------------
    // Addresses

    method AddAddrRequests(c: Client, addrs: seq<string>)
      modifies `watchedAddrs, `addrRequests
      ensures Addrs() == AddRequests(old(Addrs()), c, addrs)
    {
      ghost var w := Addrs();
      assert addrs[0..] == addrs;
      for i := 0 to |addrs|
        invariant AddRequests(w, c, addrs) == AddRequests(Addrs(), c, addrs[i..])
      {
        assert addrs[i..][0] == addrs[i] && addrs[i..][1..] == addrs[i + 1..];
        var addr := addrs[i];
        var mine := if c in addrRequests then addrRequests[c] else {};
        addrRequests := addrRequests[c := mine + {addr}];
        var cmap := if addr in watchedAddrs then watchedAddrs[addr] else {};
        watchedAddrs := watchedAddrs[addr := cmap + {c}];
      }
    }

    method RemoveAddrRequest(c: Client, addr: string)
      modifies `watchedAddrs, `addrRequests
      ensures Addrs() == RemoveOne(old(Addrs()), c, addr)
    {
      var mine := if c in addrRequests then addrRequests[c] else {};
      addrRequests := addrRequests[c := mine - {addr}];
      if addr !in watchedAddrs {
        return;
      }
      var cmap := watchedAddrs[addr] - {c};
      if cmap == {} {
        watchedAddrs := watchedAddrs - {addr};
      } else {
        watchedAddrs := watchedAddrs[addr := cmap];
      }
    }

    // -------------------------------------------------------------------------
    // Messages

    /** Remove a client and every request it made. */
    method Unregister(c: Client)
      requires Valid()
      modifies this
      ensures Valid() && Absent(c)
      ensures forall op, d :: d != c ==> (d in Watching(Spent(), op) <==> d in Watching(old(Spent()), op))
      ensures forall addr, d :: d != c ==> (d in Watching(Addrs(), addr) <==> d in Watching(old(Addrs()), addr))
      ensures clients == old(clients) - {c}
      ensures blockNotifications == old(blockNotifications) - {c} && txNotifications == old(txNotifications) - {c}
    {
      hide Agree, RemoveOne, RemoveRequests, Watching;
      blockNotifications := blockNotifications - {c};
      txNotifications := txNotifications - {c};
      ghost var w, v := Spent(), Addrs();
      var ops := ListSet(if c in spentRequests then spentRequests[c] else {});
      ClientGone(w, c, ops);
      assert ops[0..] == ops;
      for i := 0 to |ops|
        invariant RemoveRequests(w, c, ops) == RemoveRequests(Spent(), c, ops[i..])
        invariant Addrs() == v && clients == old(clients)
        invariant blockNotifications == old(blockNotifications) - {c} && txNotifications == old(txNotifications) - {c}
      {
        assert ops[i..][0] == ops[i] && ops[i..][1..] == ops[i + 1..];
        RemoveRequestsStep(Spent(), c, ops[i..]);
        RemoveSpentRequest(c, ops[i]);
      }
      assert ops[|ops|..] == [];
      NoRequestsLeft(Spent(), c);
      var addrs := ListSet(if c in addrRequests then addrRequests[c] else {});
      ClientGone(v, c, addrs);
      ghost var w' := Spent();
      assert addrs[0..] == addrs;
      for i := 0 to |addrs|
        invariant RemoveRequests(v, c, addrs) == RemoveRequests(Addrs(), c, addrs[i..])
        invariant Spent() == w' && clients == old(clients)
        invariant blockNotifications == old(blockNotifications) - {c} && txNotifications == old(txNotifications) - {c}
      {
        assert addrs[i..][0] == addrs[i] && addrs[i..][1..] == addrs[i + 1..];
        RemoveRequestsStep(Addrs(), c, addrs[i..]);
        RemoveAddrRequest(c, addrs[i]);
      }
      assert addrs[|addrs|..] == [];
      NoRequestsLeft(Addrs(), c);
      clients := clients - {c};
      NotInMap(Spent(), c);
      NotInMap(Addrs(), c);
    }

    /** Go through a connected block unless nobody watches anything. */
    method ConnectBlock(txs: seq<Tx>, pays: Payees)
      requires Valid()
      modifies `watchedOutPoints, `spentRequests
      ensures Valid() && forall op :: Watching(Spent(), op) == AfterBlock(old(Spent()), Addrs(), txs, |txs|, pays, op)
    {
      hide Agree, Watching, PaidWatchers;
      ghost var w := Spent();
      if |watchedOutPoints| != 0 || |watchedAddrs| != 0 {
        for i := 0 to |txs|
          invariant Valid() && forall op :: Watching(Spent(), op) == AfterBlock(w, Addrs(), txs, i, pays, op)
        {
          NotifyForTx(txs[i], true, pays);
        }
      } else {
        NobodyWatching(w);
        forall op ensures AfterBlock(w, Addrs(), txs, |txs|, pays, op) == {}
        {
          forall tx: Tx { NobodyPaidAt(Addrs(), tx, pays, op); }
          NothingHappens(w, Addrs(), txs, |txs|, pays, op);
        }
      }
    }

    /** One step of `notificationHandler`. */
    method Handle(msg: Msg, pays: Payees)
      requires Valid()
      modifies this
      ensures Valid() && OthersStayAway(msg, old(Spent()), Spent(), old(Addrs()), Addrs())
      ensures msg.UnregisterClient? ==>
        && Absent(msg.c)
        && (forall op, d :: d != msg.c ==> (d in Watching(Spent(), op) <==> d in Watching(old(Spent()), op)))
        && (forall addr, d :: d != msg.c ==> (d in Watching(Addrs(), addr) <==> d in Watching(old(Addrs()), addr)))
      ensures msg.BlockConnected? ==> forall op ::
        Watching(Spent(), op) == AfterBlock(old(Spent()), old(Addrs()), msg.txs, |msg.txs|, pays, op)
      ensures msg.TxAccepted? ==> Seen(old(Spent()), msg.tx, false, pays)
      ensures msg.RegisterSpent? ==> forall op, d ::
        d in Watching(Spent(), op) <==> d in Watching(old(Spent()), op) || (op in msg.ops && d == msg.c)
      ensures msg.UnregisterSpent? ==> forall op, d ::
        d in Watching(Spent(), op) <==> d in Watching(old(Spent()), op) && !(op == msg.op && d == msg.c)
      ensures msg.RegisterAddr? ==> forall addr, d ::
        d in Watching(Addrs(), addr) <==> d in Watching(old(Addrs()), addr) || (addr in msg.addrs && d == msg.c)
      ensures msg.UnregisterAddr? ==> forall addr, d ::
        d in Watching(Addrs(), addr) <==> d in Watching(old(Addrs()), addr) && !(addr == msg.addr && d == msg.c)
      ensures !msg.UnregisterClient? && !msg.RegisterAddr? && !msg.UnregisterAddr? ==> Addrs() == old(Addrs())
      ensures !AboutOutPoints(msg) ==> Spent() == old(Spent())
      ensures clients == (match msg
                          case RegisterClient(c) => old(clients) + {c}
                          case UnregisterClient(c) => old(clients) - {c}
                          case _ => old(clients))
      ensures blockNotifications == (match msg
                                     case RegisterBlocks(c) => old(blockNotifications) + {c}
                                     case UnregisterBlocks(c) => old(blockNotifications) - {c}
                                     case UnregisterClient(c) => old(blockNotifications) - {c}
                                     case _ => old(blockNotifications))
      ensures txNotifications == (match msg
                                  case RegisterNewMempoolTxs(c) => old(txNotifications) + {c}
                                  case UnregisterNewMempoolTxs(c) => old(txNotifications) - {c}
                                  case UnregisterClient(c) => old(txNotifications) - {c}
                                  case _ => old(txNotifications))
    {
      hide Agree, Watching, AddRequests, RemoveOne, PaidWatchers, OthersStayAway;
      ghost var w, v := Spent(), Addrs();
      match msg {
        case BlockConnected(txs) =>
          ConnectBlock(txs, pays);
          BlockBringsNobody(msg, w, Spent(), v, pays);
        case BlockDisconnected => SameStayAway(msg, w, v);
        case TxAccepted(tx) =>
          NotifyForTx(tx, false, pays);
          TxBringsNobody(msg, w, Spent(), v, pays);
        case RegisterBlocks(c) =>
          blockNotifications := blockNotifications + {c};
          SameStayAway(msg, w, v);
        case UnregisterBlocks(c) =>
          blockNotifications := blockNotifications - {c};
          SameStayAway(msg, w, v);
        case RegisterClient(c) =>
          clients := clients + {c};
          SameStayAway(msg, w, v);
        case UnregisterClient(c) =>
          Unregister(c);
          RequestBringsNobody(msg, w, Spent(), v, Addrs());
        case RegisterSpent(c, ops) =>
          AddRequestsAgree(Spent(), c, ops);
          AddSpentRequests(c, ops);
          RequestBringsNobody(msg, w, Spent(), v, Addrs());
        case UnregisterSpent(c, op) =>
          RemoveAgrees(Spent(), c, op);
          RemoveSpentRequest(c, op);
          RequestBringsNobody(msg, w, Spent(), v, Addrs());
        case RegisterAddr(c, addrs) =>
          AddRequestsAgree(Addrs(), c, addrs);
          AddAddrRequests(c, addrs);
          RequestBringsNobody(msg, w, Spent(), v, Addrs());
        case UnregisterAddr(c, addr) =>
          RemoveAgrees(Addrs(), c, addr);
          RemoveAddrRequest(c, addr);
          RequestBringsNobody(msg, w, Spent(), v, Addrs());
        case RegisterNewMempoolTxs(c) =>
          txNotifications := txNotifications + {c};
          SameStayAway(msg, w, v);
        case UnregisterNewMempoolTxs(c) =>
          txNotifications := txNotifications - {c};
          SameStayAway(msg, w, v);
      }
    }

    /** The handler's loop, over any messages: a client that left and sent nothing since is in no map. */
    method NotificationHandler(msgs: seq<Msg>, pays: Payees)
      requires Valid()
      modifies this
      ensures Valid()
      ensures forall j :: 0 <= j < |msgs| && msgs[j].UnregisterClient? && SilentSince(msgs, j, |msgs|) ==>
        Absent(msgs[j].c)
    {
      hide Agree, Watching;
      for i := 0 to |msgs|
        invariant Valid()
        invariant forall j :: 0 <= j < i && msgs[j].UnregisterClient? && SilentSince(msgs, j, i) ==> Absent(msgs[j].c)
      {
        label before:
        ghost var w, v := Spent(), Addrs();
        Handle(msgs[i], pays);
        forall c | old@before(Absent(c)) && !MadeBy(msgs[i], c) ensures Absent(c)
        {
          AwayIff(w, c);
          AwayIff(v, c);
          AwayIff(Spent(), c);
          AwayIff(Addrs(), c);
        }
      }
    }
  }

  /** A client that watches nothing comes to watch nothing by messages it did not cause. */
  ghost predicate OthersStayAway(msg: Msg, w: Watch<OutPoint>, w': Watch<OutPoint>, v: Watch<string>,
                                 v': Watch<string>)
  {
    forall c :: !MadeBy(msg, c) && (forall addr :: c !in Watching(v, addr)) ==>
      && (forall addr :: c !in Watching(v', addr))
      && forall op :: c in Watching(w', op) ==> c in Watching(w, op)
  }

  lemma SameStayAway(msg: Msg, w: Watch<OutPoint>, v: Watch<string>)
    ensures OthersStayAway(msg, w, w, v, v)
  {
    hide Watching;
  }

  lemma RequestBringsNobody(msg: Msg, w: Watch<OutPoint>, w': Watch<OutPoint>, v: Watch<string>, v': Watch<string>)
    requires forall op, d :: !MadeBy(msg, d) && d in Watching(w', op) ==> d in Watching(w, op)
    requires forall addr, d :: !MadeBy(msg, d) && d in Watching(v', addr) ==> d in Watching(v, addr)
    ensures OthersStayAway(msg, w, w', v, v')
  {
    hide Watching, MadeBy;
  }

  lemma TxBringsNobody(msg: Msg, w: Watch<OutPoint>, w': Watch<OutPoint>, v: Watch<string>, pays: Payees)
    requires msg.TxAccepted?
    requires forall op :: Watching(w', op) == Watching(w, op) + PaidWatchers(v, msg.tx, |msg.tx.outputs|, pays, op)
    ensures OthersStayAway(msg, w, w', v, v)
  {
    hide Watching, PaidWatchers;
    forall c, op | c in Watching(w', op) && (forall addr :: c !in Watching(v, addr)) ensures c in Watching(w, op)
    {
      NotPaid(v, msg.tx, |msg.tx.outputs|, pays, op, c);
    }
  }

  lemma BlockBringsNobody(msg: Msg, w: Watch<OutPoint>, w': Watch<OutPoint>, v: Watch<string>, pays: Payees)
    requires msg.BlockConnected?
    requires forall op :: Watching(w', op) == AfterBlock(w, v, msg.txs, |msg.txs|, pays, op)
    ensures OthersStayAway(msg, w, w', v, v)
  {
    hide Watching, AfterBlock;
    forall c, op | c in Watching(w', op) && (forall addr :: c !in Watching(v, addr)) ensures c in Watching(w, op)
    {
      if c !in Watching(w, op) {
        NotBroughtBack(w, v, msg.txs, |msg.txs|, pays, op, c);
      }
    }
  }

  /** The client of a message has caused none since. */
  ghost predicate SilentSince(msgs: seq<Msg>, j: nat, n: nat)
    requires j < n <= |msgs| && msgs[j].UnregisterClient?
  {
    forall k :: j < k < n ==> !MadeBy(msgs[k], msgs[j].c)
  }

  lemma AwayIff<K(!new)>(w: Watch<K>, c: Client)
    requires Agree(w)
    ensures (forall k :: k in w.byKey ==> c !in w.byKey[k]) && Requests(w, c) == {} <==>
            forall k :: c !in Watching(w, k)
  {
    if forall k :: c !in Watching(w, k) {
      NotInMap(w, c);
      assert Requests(w, c) == {} by {
        assert forall k :: k in Requests(w, c) ==> c in Watching(w, k);
      }
    } else {
      var k :| c in Watching(w, k);
      assert k in w.byKey;
    }
  }

  lemma {:induction false} WatchesNoneOf<K(!new)>(w: Watch<K>, ks: seq<K>, c: Client)
    requires forall k :: c !in Watching(w, k)
    ensures c !in WatchingAny(w, ks)
    decreases |ks|
  {
    if ks != [] {
      WatchesNoneOf(w, ks[1..], c);
    }
  }

  lemma NotPaid(addrs: Watch<string>, tx: Tx, count: nat, pays: Payees, op: OutPoint, c: Client)
    requires count <= |tx.outputs| && forall addr :: c !in Watching(addrs, addr)
    ensures c !in PaidWatchers(addrs, tx, count, pays, op)
  {
    hide Watching;
    if op.txid == tx.id && op.index < count {
      WatchesNoneOf(addrs, pays(tx.outputs[op.index]), c);
    }
  }

  lemma {:induction false} NotBroughtBack(w: Watch<OutPoint>, addrs: Watch<string>, txs: seq<Tx>, n: nat,
                                          pays: Payees, op: OutPoint, c: Client)
    requires n <= |txs| && c !in Watching(w, op) && forall addr :: c !in Watching(addrs, addr)
    ensures c !in AfterBlock(w, addrs, txs, n, pays, op)
    decreases n
  {
    hide Watching, PaidWatchers;
    if n > 0 {
      NotBroughtBack(w, addrs, txs, n - 1, pays, op, c);
      NotPaid(addrs, txs[n - 1], |txs[n - 1].outputs|, pays, op, c);
    }
  }

  lemma RemoveClientsStep<K>(w: Watch<K>, cs: seq<Client>, k: K)
    requires cs != []
    ensures RemoveClients(w, cs, k) == RemoveClients(RemoveOne(w, cs[0], k), cs[1..], k)
  {
  }

  lemma NoClientsLeft<K>(w: Watch<K>, k: K)
    ensures RemoveClients(w, [], k) == w
  {
  }

  lemma RemoveRequestsStep<K>(w: Watch<K>, c: Client, ks: seq<K>)
    requires ks != []
    ensures RemoveRequests(w, c, ks) == RemoveRequests(RemoveOne(w, c, ks[0]), c, ks[1..])
  {
  }

  lemma NoRequestsLeft<K>(w: Watch<K>, c: Client)
    ensures RemoveRequests(w, c, []) == w
  {
  }

  lemma WatchingNone<K>(w: Watch<K>)
    ensures WatchingAny(w, []) == {}
  {
  }

  lemma NotInMap<K(!new)>(w: Watch<K>, c: Client)
    requires forall k :: c !in Watching(w, k)
    ensures forall k :: k in w.byKey ==> c !in w.byKey[k]
  {
    forall k | k in w.byKey ensures c !in w.byKey[k]
    {
      assert c !in Watching(w, k);
    }
  }

  lemma NobodyWatching<K(!new)>(w: Watch<K>)
    ensures |w.byKey| == 0 ==> forall k :: Watching(w, k) == {}
  {
    if |w.byKey| == 0 {
      assert w.byKey == map[];
    }
  }

  lemma NobodyPaid(addrs: Watch<string>, tx: Tx, pays: Payees)
    ensures |addrs.byKey| == 0 ==> forall op :: PaidWatchers(addrs, tx, |tx.outputs|, pays, op) == {}
  {
    if |addrs.byKey| == 0 {
      forall op ensures PaidWatchers(addrs, tx, |tx.outputs|, pays, op) == {}
      {
        NobodyPaidAt(addrs, tx, pays, op);
      }
    }
  }

  lemma NobodyPaidAt(addrs: Watch<string>, tx: Tx, pays: Payees, op: OutPoint)
    requires |addrs.byKey| == 0
    ensures PaidWatchers(addrs, tx, |tx.outputs|, pays, op) == {}
  {
    assert addrs.byKey == map[];
    if op.txid == tx.id && op.index < |tx.outputs| {
      NoneOfAny(addrs, pays(tx.outputs[op.index]));
    }
  }

  lemma {:induction false} NothingHappens(w: Watch<OutPoint>, addrs: Watch<string>, txs: seq<Tx>, n: nat,
          pays: Payees, op: OutPoint)
    requires n <= |txs| && Watching(w, op) == {}
    requires forall tx: Tx :: PaidWatchers(addrs, tx, |tx.outputs|, pays, op) == {}
    ensures AfterBlock(w, addrs, txs, n, pays, op) == {}
    decreases n
  {
    hide Watching, PaidWatchers;
    if n > 0 {
      NothingHappens(w, addrs, txs, n - 1, pays, op);
    }
  }

  lemma {:induction false} NoneOfAny(w: Watch<string>, ks: seq<string>)
    requires w.byKey == map[]
    ensures WatchingAny(w, ks) == {}
    decreases |ks|
  {
    if ks != [] {
      NoneOfAny(w, ks[1..]);
    }
  }
}
