/** The peers file: what is saved, and what loading it into a fresh manager restores. */
module AddrPeers {
  import opened Base
  import opened AddrBook

  const SERIALISATION_VERSION := 2
  const NODE_NETWORK: set<nat> := {0}

  datatype SavedAddr = SavedAddr(addr: Key, src: Key, attempts: nat, timestamp: int, lastAttempt: int, lastSuccess: int,
                                 services: set<nat>, srcServices: set<nat>)

  datatype PeersFile = PeersFile(version: int, addresses: seq<SavedAddr>, newBuckets: seq<seq<Key>>,
    triedBuckets: seq<seq<Key>>)

  function SavedOf(version: int, k: Key, ka: Known): SavedAddr
  {
    SavedAddr(k, ka.src.key, ka.attempts, ka.na.timestamp, ka.lastAttempt, ka.lastSuccess,
              if version > 1 then ka.na.services else {}, if version > 1 then ka.src.services else {})
  }

  ghost predicate Distinct<T(!new)>(s: seq<T>)
  {
    forall i, j :: 0 <= i < j < |s| ==> s[i] != s[j]
  }

  /** The list names every member of the set once. */
  ghost predicate Lists(s: seq<Key>, ks: set<Key>)
  {
    Distinct(s) && forall k :: k in s <==> k in ks
  }

  /** A file `savePeers` can write: maps are walked in any order, tried lists in theirs. */
  ghost predicate IsSave(b: Book, f: PeersFile)
  {
    && (forall i :: 0 <= i < |f.addresses| ==>
          && f.addresses[i].addr in b.index
          && f.addresses[i] == SavedOf(f.version, f.addresses[i].addr, b.index[f.addresses[i].addr]))
    && (forall i, j :: 0 <= i < j < |f.addresses| ==> f.addresses[i].addr != f.addresses[j].addr)
    && (forall k :: k in b.index ==> exists i :: 0 <= i < |f.addresses| && f.addresses[i].addr == k)
    && |f.newBuckets| == |b.news| && (forall i :: 0 <= i < |b.news| ==> Lists(f.newBuckets[i], b.news[i]))
    && f.triedBuckets == b.tried
  }

  // ---------------------------------------------------------------------------
  // Loading

  /** Reading an address back gives it the present time. */
  function Restore(version: int, v: SavedAddr, key: Key, src: Key, now: int): Known
  {
    Known(NetAddr(key, now, if version == 1 then NODE_NETWORK else v.services),
          NetAddr(src, now, if version == 1 then NODE_NETWORK else v.srcServices),
          v.attempts, v.lastAttempt, v.lastSuccess, false, 0)
  }

  function LoadAddresses(f: PeersFile, parse: Key -> Option<Key>, now: int, i: nat, index: map<Key, Known>)
    : Option<map<Key, Known>>
    requires i <= |f.addresses|
    decreases |f.addresses| - i
  {
    if i == |f.addresses| then Some(index)
    else
      var v := f.addresses[i];
      if parse(v.addr).None? || parse(v.src).None? then None
      else
        var ka := Restore(f.version, v, parse(v.addr).value, parse(v.src).value, now);
        LoadAddresses(f, parse, now, i + 1, index[ka.na.key := ka])
  }

  /** One reference from a new bucket. */
  function LoadRef(b: Book, i: nat, k: Key): Book
    requires i < |b.news| && k in b.index
  {
    var ka := b.index[k];
    b.(nNew := b.nNew + (if ka.refs == 0 then 1 else 0),
       index := b.index[k := ka.(refs := ka.refs + 1)],
       news := b.news[i := b.news[i] + {k}])
  }

  function LoadBucket(b: Book, i: nat, ks: seq<Key>): Option<Book>
    requires i < |b.news|
    decreases |ks|
  {
    if ks == [] then Some(b)
    else if ks[0] !in b.index then None
    else LoadBucket(LoadRef(b, i, ks[0]), i, ks[1..])
  }

  function LoadBuckets(b: Book, f: PeersFile, i: nat): Option<Book>
    requires i <= |f.newBuckets| <= |b.news|
    decreases |f.newBuckets| - i
  {
    if i == |f.newBuckets| then Some(b)
    else match LoadBucket(b, i, f.newBuckets[i])
      case None => None
      case Some(b1) => BucketKeepsLength(b, i, f.newBuckets[i]); LoadBuckets(b1, f, i + 1)
  }

  lemma {:induction false} BucketKeepsLength(b: Book, i: nat, ks: seq<Key>)
    requires i < |b.news|
    ensures var r := LoadBucket(b, i, ks); r.Some? ==> |r.value.news| == |b.news| && |r.value.tried| == |b.tried|
    decreases |ks|
  {
    if ks != [] && ks[0] in b.index {
      BucketKeepsLength(LoadRef(b, i, ks[0]), i, ks[1..]);
    }
  }

  function LoadList(b: Book, j: nat, ks: seq<Key>): Option<Book>
    requires j < |b.tried|
    decreases |ks|
  {
    if ks == [] then Some(b)
    else if ks[0] !in b.index then None
    else LoadList(Promote(b, j, ks[0]), j, ks[1..])
  }

  function LoadLists(b: Book, f: PeersFile, j: nat): Option<Book>
    requires j <= |f.triedBuckets| <= |b.tried|
    decreases |f.triedBuckets| - j
  {
    if j == |f.triedBuckets| then Some(b)
    else match LoadList(b, j, f.triedBuckets[j])
      case None => None
      case Some(b1) => ListKeepsLength(b, j, f.triedBuckets[j]); LoadLists(b1, f, j + 1)
  }

  lemma {:induction false} ListKeepsLength(b: Book, j: nat, ks: seq<Key>)
    requires j < |b.tried|
    ensures var r := LoadList(b, j, ks); r.Some? ==> |r.value.tried| == |b.tried|
    decreases |ks|
  {
    if ks != [] && ks[0] in b.index {
      ListKeepsLength(Promote(b, j, ks[0]), j, ks[1..]);
    }
  }

  lemma {:induction false} BucketsKeepLength(b: Book, f: PeersFile, i: nat)
    requires i <= |f.newBuckets| <= |b.news|
    ensures var r := LoadBuckets(b, f, i); r.Some? ==> |r.value.tried| == |b.tried|
    decreases |f.newBuckets| - i
  {
    hide LoadBucket;
    if i < |f.newBuckets| {
      BucketKeepsLength(b, i, f.newBuckets[i]);
      match LoadBucket(b, i, f.newBuckets[i])
      case None =>
      case Some(b1) => BucketsKeepLength(b1, f, i + 1);
    }
  }

  /** The closing check: every address is either new or tried. */
  predicate Sane(index: map<Key, Known>)
  {
    forall k :: k in index ==> (index[k].refs == 0 ==> index[k].tried) && (index[k].refs > 0 ==> !index[k].tried)
  }

  /** `deserializePeers` into a manager with empty tables. */
  function LoadPeers(f: PeersFile, parse: Key -> Option<Key>, now: int): Option<Book>
    requires |f.newBuckets| == NEW_BUCKET_COUNT && |f.triedBuckets| == TRIED_BUCKET_COUNT
  {
    if f.version > SERIALISATION_VERSION then None
    else match LoadAddresses(f, parse, now, 0, map[])
      case None => None
      case Some(index) =>
        var b := Empty().(index := index);
        match LoadBuckets(b, f, 0)
        case None => None
        case Some(b1) =>
          BucketsKeepLength(b, f, 0);
          match LoadLists(b1, f, 0)
          case None => None
          case Some(b2) => if Sane(b2.index) then Some(b2) else None
  }

  // ---------------------------------------------------------------------------
  // What loading restores

  /** An address as it is found again: only times and, before version two, services differ. */
  function Restored(f: PeersFile, b: Book, k: Key, now: int): Known
    requires k in b.index
  {
    Restore(f.version, SavedOf(f.version, k, b.index[k]), k, b.index[k].src.key, now)
  }

  /** Keys and sources can be read back. */
  ghost predicate Readable(b: Book, parse: Key -> Option<Key>)
  {
    forall k :: k in b.index ==> parse(k) == Some(k) && parse(b.index[k].src.key) == Some(b.index[k].src.key)
  }

  ghost function SavedKeys(f: PeersFile, i: nat): set<Key>
    requires i <= |f.addresses|
  {
    set j | 0 <= j < i :: f.addresses[j].addr
  }

  ghost function IndexOf(f: PeersFile, b: Book, ks: set<Key>, now: int): map<Key, Known>
  {
    map k | k in ks && k in b.index :: Restored(f, b, k, now)
  }

  lemma SaveCovers(b: Book, f: PeersFile, now: int)
    requires IsSave(b, f)
    ensures IndexOf(f, b, SavedKeys(f, |f.addresses|), now) == IndexOf(f, b, b.index.Keys, now)
  {
    hide Restored;
    forall k | k in b.index ensures k in SavedKeys(f, |f.addresses|)
    {
      var j :| 0 <= j < |f.addresses| && f.addresses[j].addr == k;
    }
    assert IndexOf(f, b, SavedKeys(f, |f.addresses|), now) == IndexOf(f, b, b.index.Keys, now);
  }

  lemma IndexStep(b: Book, f: PeersFile, now: int, i: nat)
    requires i < |f.addresses| && f.addresses[i].addr in b.index
    ensures IndexOf(f, b, SavedKeys(f, i + 1), now) ==
            IndexOf(f, b, SavedKeys(f, i), now)[f.addresses[i].addr := Restored(f, b, f.addresses[i].addr, now)]
  {
    hide Restored;
    assert SavedKeys(f, i + 1) == SavedKeys(f, i) + {f.addresses[i].addr};
  }

  lemma {:induction false} AddressesLoad(b: Book, f: PeersFile, parse: Key -> Option<Key>, now: int, i: nat)
    requires IsSave(b, f) && Readable(b, parse) && i <= |f.addresses|
    ensures LoadAddresses(f, parse, now, i, IndexOf(f, b, SavedKeys(f, i), now)) ==
            Some(IndexOf(f, b, b.index.Keys, now))
    decreases |f.addresses| - i
  {
    hide IndexOf, SavedKeys;
    if i == |f.addresses| {
      SaveCovers(b, f, now);
    } else {
      IndexStep(b, f, now, i);
      AddressesLoad(b, f, parse, now, i + 1);
    }
  }

  /** The tables once the first `n` new buckets are in. */
  ghost function NewsIn(f: PeersFile, b: Book, n: nat, now: int): Book
    requires n <= |b.news| == NEW_BUCKET_COUNT
  {
    Book(map k | k in b.index :: Restored(f, b, k, now).(refs := Holders(b.news[..n], k)),
         b.news[..n] + seq(|b.news| - n, i => {}),
         Empty().tried,
         |Held(b, n)|,
         0)
  }

  ghost function Held(b: Book, n: nat): set<Key>
    requires n <= |b.news|
  {
    set k | k in b.index && Holders(b.news[..n], k) > 0
  }

  lemma {:induction false} HoldersSnoc(news: seq<set<Key>>, n: nat, k: Key)
    requires n < |news|
    ensures Holders(news[..n + 1], k) == Holders(news[..n], k) + if k in news[n] then 1 else 0
    decreases n
  {
    if n > 0 {
      HoldersSnoc(news[1..], n - 1, k);
      assert news[..n + 1][1..] == news[1..][..n] && news[..n][1..] == news[1..][..n - 1];
    } else {
      assert news[..1][1..] == [];
    }
  }

  /** Several keys referenced from one bucket at once. */
  ghost function AddRefs(b: Book, i: nat, ks: set<Key>): Book
    requires i < |b.news|
  {
    b.(index := map k | k in b.index :: if k in ks then b.index[k].(refs := b.index[k].refs + 1) else b.index[k],
       news := b.news[i := b.news[i] + ks],
       nNew := b.nNew + |Unreferenced(b, ks)|)
  }

  ghost function Unreferenced(b: Book, ks: set<Key>): set<Key>
  {
    set k | k in ks && k in b.index && b.index[k].refs == 0
  }

  lemma {:induction false} BucketLoads(b: Book, i: nat, ks: seq<Key>, all: set<Key>)
    requires i < |b.news| && Lists(ks, all) && all <= b.index.Keys
    ensures LoadBucket(b, i, ks) == Some(AddRefs(b, i, all))
    decreases |ks|
  {
    if ks == [] {
      assert all == {};
      assert AddRefs(b, i, all).index == b.index;
      assert b.news[i := b.news[i] + all] == b.news by { assert b.news[i] + all == b.news[i]; }
      assert Unreferenced(b, all) == {};
    } else {
      var k := ks[0];
      var rest := all - {k};
      RestLists(ks, all);
      BucketLoads(LoadRef(b, i, k), i, ks[1..], rest);
      AddOneMore(b, i, k, rest);
      assert rest + {k} == all;
    }
  }

  lemma RestLists(ks: seq<Key>, all: set<Key>)
    requires ks != [] && Lists(ks, all)
    ensures Lists(ks[1..], all - {ks[0]}) && ks[0] in all
  {
    forall k ensures k in ks[1..] <==> k in all - {ks[0]}
    {
      assert ks == [ks[0]] + ks[1..];
    }
  }

  lemma AddOneMore(b: Book, i: nat, k: Key, rest: set<Key>)
    requires i < |b.news| && k in b.index && k !in rest
    ensures AddRefs(LoadRef(b, i, k), i, rest) == AddRefs(b, i, rest + {k})
  {
    var b1 := LoadRef(b, i, k);
    var a, c := AddRefs(b1, i, rest), AddRefs(b, i, rest + {k});
    assert a.index == c.index;
    assert a.news == c.news by { assert b.news[i] + {k} + rest == b.news[i] + (rest + {k}); }
    var z1, z := Unreferenced(b1, rest), Unreferenced(b, rest + {k});
    if b.index[k].refs == 0 {
      assert z == z1 + {k};
    } else {
      assert z == z1;
    }
  }

  lemma HoldersStep(b: Book, n: nat)
    requires Conserved(b) && n < |b.news|
    ensures b.news[n] <= b.index.Keys
    ensures forall k :: Holders(b.news[..n + 1], k) == Holders(b.news[..n], k) + if k in b.news[n] then 1 else 0
  {
    hide Holders, Conserved;
    forall k | k in b.news[n] ensures k in b.index { BucketedIsKnown(b, n, k); }
    forall k ensures Holders(b.news[..n + 1], k) == Holders(b.news[..n], k) + if k in b.news[n] then 1 else 0
    {
      HoldersSnoc(b.news, n, k);
    }
  }

  lemma HeldStep(f: PeersFile, b: Book, n: nat, now: int)
    requires Conserved(b) && n < |b.news| == NEW_BUCKET_COUNT
    ensures |Held(b, n + 1)| == |Held(b, n)| + |Unreferenced(NewsIn(f, b, n, now), b.news[n])|
  {
    hide Holders, Conserved, Restored;
    HoldersStep(b, n);
    var p := NewsIn(f, b, n, now);
    var added := Unreferenced(p, b.news[n]);
    forall k ensures k in Held(b, n + 1) <==> k in Held(b, n) + added
    {
    }
    assert Held(b, n + 1) == Held(b, n) + added;
    assert Held(b, n) !! added;
  }

  lemma NewsStep(f: PeersFile, b: Book, n: nat, now: int)
    requires Conserved(b) && n < |b.news| == NEW_BUCKET_COUNT
    ensures AddRefs(NewsIn(f, b, n, now), n, b.news[n]) == NewsIn(f, b, n + 1, now)
    ensures b.news[n] <= b.index.Keys
  {
    hide Holders, Conserved, Restored, Held, Unreferenced;
    HoldersStep(b, n);
    HeldStep(f, b, n, now);
    var p, q := NewsIn(f, b, n, now), NewsIn(f, b, n + 1, now);
    var a := AddRefs(p, n, b.news[n]);
    assert a.index == q.index;
    assert p.news[n] + b.news[n] == b.news[n];
    assert a.news == q.news;
  }

  lemma {:induction false} BucketsLoad(b: Book, f: PeersFile, n: nat, now: int)
    requires Conserved(b) && IsSave(b, f) && n <= |b.news| == NEW_BUCKET_COUNT
    ensures LoadBuckets(NewsIn(f, b, n, now), f, n) == Some(NewsIn(f, b, NEW_BUCKET_COUNT, now))
    decreases NEW_BUCKET_COUNT - n
  {
    hide Conserved, Holders, NewsIn, LoadBucket, AddRefs, Held;
    NewsLength(f, b, n, now);
    if n < |b.news| {
      NewsStep(f, b, n, now);
      BucketLoads(NewsIn(f, b, n, now), n, f.newBuckets[n], b.news[n]);
      NewsLength(f, b, n + 1, now);
      BucketsLoad(b, f, n + 1, now);
    }
  }

  lemma NewsLength(f: PeersFile, b: Book, n: nat, now: int)
    requires n <= |b.news| == NEW_BUCKET_COUNT
    ensures |NewsIn(f, b, n, now).news| == NEW_BUCKET_COUNT && NewsIn(f, b, n, now).index.Keys == b.index.Keys
    ensures |NewsIn(f, b, n, now).tried| == TRIED_BUCKET_COUNT
  {
  }

  // ---------------------------------------------------------------------------
  // Tried lists

  /** The tables once all new buckets and the first `n` tried lists are in. */
  ghost function TriedIn(f: PeersFile, b: Book, n: nat, now: int): Book
    requires n <= |b.tried| == TRIED_BUCKET_COUNT
  {
    Book(map k | k in b.index :: Restored(f, b, k, now).(refs := Holders(b.news, k),
      tried := Occurs(b.tried[..n], k) > 0),
         b.news,
         b.tried[..n] + seq(|b.tried| - n, i => []),
         |Untried(b.index)|,
         |Listed(b, n)|)
  }

  ghost function Listed(b: Book, n: nat): set<Key>
    requires n <= |b.tried|
  {
    set k | k in b.index && Occurs(b.tried[..n], k) > 0
  }

  lemma {:induction false} OccursSnoc(tried: seq<seq<Key>>, n: nat, k: Key)
    requires n < |tried|
    ensures Occurs(tried[..n + 1], k) == Occurs(tried[..n], k) + multiset(tried[n])[k]
    decreases n
  {
    if n > 0 {
      OccursSnoc(tried[1..], n - 1, k);
      assert tried[..n + 1][1..] == tried[1..][..n] && tried[..n][1..] == tried[1..][..n - 1];
    } else {
      assert tried[..1][1..] == [];
    }
  }

  lemma {:induction false} OccursPrefix(tried: seq<seq<Key>>, n: nat, k: Key)
    requires n <= |tried|
    ensures Occurs(tried[..n], k) <= Occurs(tried, k)
    decreases |tried| - n
  {
    if n < |tried| {
      OccursSnoc(tried, n, k);
      OccursPrefix(tried, n + 1, k);
    } else {
      assert tried[..n] == tried;
    }
  }

  /** Several keys appended to one list. */
  ghost function AddTried(b: Book, j: nat, ks: seq<Key>): Book
    requires j < |b.tried|
  {
    b.(index := map k | k in b.index :: if k in ks then b.index[k].(tried := true) else b.index[k],
       tried := b.tried[j := b.tried[j] + ks],
       nTried := b.nTried + |ks|)
  }

  lemma {:induction false} ListLoads(b: Book, j: nat, ks: seq<Key>)
    requires j < |b.tried| && forall k :: k in ks ==> k in b.index
    ensures LoadList(b, j, ks) == Some(AddTried(b, j, ks))
    decreases |ks|
  {
    if ks == [] {
      assert AddTried(b, j, ks).index == b.index;
      assert b.tried[j := b.tried[j] + ks] == b.tried by { assert b.tried[j] + ks == b.tried[j]; }
    } else {
      var k := ks[0];
      ListLoads(Promote(b, j, k), j, ks[1..]);
      var a, c := AddTried(Promote(b, j, k), j, ks[1..]), AddTried(b, j, ks);
      assert ks == [k] + ks[1..];
      assert a.index == c.index;
      assert a.tried == c.tried by { assert b.tried[j] + [k] + ks[1..] == b.tried[j] + ks; }
    }
  }

  lemma {:induction false} OnceEach(ks: seq<Key>)
    requires forall k :: multiset(ks)[k] <= 1
    ensures |set k | k in ks| == |ks|
    decreases |ks|
  {
    if ks != [] {
      var k, rest := ks[0], ks[1..];
      assert ks == [k] + rest;
      forall m ensures multiset(rest)[m] <= 1 && (m == k ==> m !in rest)
      {
        assert multiset(ks)[m] == multiset([k])[m] + multiset(rest)[m];
      }
      OnceEach(rest);
      assert (set m | m in ks) == (set m | m in rest) + {k};
    }
  }

  lemma ListedKnown(b: Book, n: nat)
    requires Conserved(b) && n < |b.tried|
    ensures forall k :: k in b.tried[n] ==> k in b.index
  {
    hide Conserved;
    forall k | k in b.tried[n] ensures k in b.index
    {
      var e :| 0 <= e < |b.tried[n]| && b.tried[n][e] == k;
      ListedIsKnown(b, n, e);
    }
  }

  /** A key of a list is in no list before it, and in it once. */
  lemma OccursStep(b: Book, n: nat, k: Key)
    requires Conserved(b) && n < |b.tried|
    ensures Occurs(b.tried[..n + 1], k) == Occurs(b.tried[..n], k) + multiset(b.tried[n])[k] <= 1
  {
    hide Occurs, Conserved;
    OccursSnoc(b.tried, n, k);
    OccursPrefix(b.tried, n + 1, k);
    AtMostOnce(b, k);
  }

  lemma ListedStep(b: Book, n: nat)
    requires Conserved(b) && n < |b.tried|
    ensures |Listed(b, n + 1)| == |Listed(b, n)| + |b.tried[n]|
  {
    hide Occurs, Conserved;
    ListedKnown(b, n);
    var added := set k | k in b.tried[n];
    forall k
      ensures multiset(b.tried[n])[k] <= 1 && (k in added ==> k !in Listed(b, n))
      ensures k in Listed(b, n + 1) <==> k in Listed(b, n) + added
    {
      OccursStep(b, n, k);
    }
    OnceEach(b.tried[n]);
    assert Listed(b, n + 1) == Listed(b, n) + added;
    assert Listed(b, n) !! added;
  }

  lemma ListStep(f: PeersFile, b: Book, n: nat, now: int)
    requires Conserved(b) && n < |b.tried| == TRIED_BUCKET_COUNT
    ensures AddTried(TriedIn(f, b, n, now), n, b.tried[n]) == TriedIn(f, b, n + 1, now)
    ensures forall k :: k in b.tried[n] ==> k in b.index
  {
    hide Holders, Occurs, Conserved, Restored, Listed;
    ListedKnown(b, n);
    ListedStep(b, n);
    var p, q := TriedIn(f, b, n, now), TriedIn(f, b, n + 1, now);
    var a := AddTried(p, n, b.tried[n]);
    forall k | k in b.index ensures a.index[k] == q.index[k]
    {
      OccursStep(b, n, k);
    }
    assert a.index == q.index;
    assert p.tried[n] + b.tried[n] == b.tried[n];
    assert a.tried == q.tried;
  }

  lemma AtMostOnce(b: Book, k: Key)
    requires Conserved(b)
    ensures Occurs(b.tried, k) <= 1
  {
    hide Holders, Occurs;
    assert KeyOk(b, k);
  }

  lemma {:induction false} ListsLoad(b: Book, f: PeersFile, n: nat, now: int)
    requires Conserved(b) && IsSave(b, f) && n <= |b.tried| == TRIED_BUCKET_COUNT
    ensures LoadLists(TriedIn(f, b, n, now), f, n) == Some(TriedIn(f, b, TRIED_BUCKET_COUNT, now))
    decreases TRIED_BUCKET_COUNT - n
  {
    hide Conserved, Holders, Occurs, TriedIn, LoadList, AddTried, Listed;
    TriedLength(f, b, n, now);
    if n < |b.tried| {
      ListStep(f, b, n, now);
      ListLoads(TriedIn(f, b, n, now), n, b.tried[n]);
      TriedLength(f, b, n + 1, now);
      ListsLoad(b, f, n + 1, now);
    }
  }

  lemma TriedLength(f: PeersFile, b: Book, n: nat, now: int)
    requires n <= |b.tried| == TRIED_BUCKET_COUNT
    ensures |TriedIn(f, b, n, now).tried| == TRIED_BUCKET_COUNT && TriedIn(f, b, n, now).index.Keys == b.index.Keys
  {
  }

  // ---------------------------------------------------------------------------
  // Round trip

  /** The tables after saving and loading: the same keys, buckets, lists, references, kinds, attempts and counters. */
  function Reopened(f: PeersFile, b: Book, now: int): Book
  {
    b.(index := map k | k in b.index :: Restored(f, b, k, now).(refs := b.index[k].refs, tried := b.index[k].tried))
  }

  lemma StartsEmpty(f: PeersFile, b: Book, now: int)
    requires |b.news| == NEW_BUCKET_COUNT
    ensures NewsIn(f, b, 0, now) == Empty().(index := IndexOf(f, b, b.index.Keys, now))
  {
    var p, q := NewsIn(f, b, 0, now), Empty().(index := IndexOf(f, b, b.index.Keys, now));
    assert b.news[..0] == [];
    assert p.index == q.index;
    assert p.news == q.news;
    assert Held(b, 0) == {};
  }

  lemma NewsDone(f: PeersFile, b: Book, now: int)
    requires Conserved(b) && |b.news| == NEW_BUCKET_COUNT && |b.tried| == TRIED_BUCKET_COUNT
    ensures NewsIn(f, b, NEW_BUCKET_COUNT, now) == TriedIn(f, b, 0, now)
  {
    hide Holders, Conserved, SavedOf;
    var p, q := NewsIn(f, b, NEW_BUCKET_COUNT, now), TriedIn(f, b, 0, now);
    assert b.news[..NEW_BUCKET_COUNT] == b.news && b.tried[..0] == [];
    assert p.index == q.index;
    assert p.news == q.news;
    assert p.tried == q.tried;
    forall k | k in b.index ensures k in Held(b, NEW_BUCKET_COUNT) <==> k in Untried(b.index) { KindByHolders(b, k); }
    assert Held(b, NEW_BUCKET_COUNT) == Untried(b.index);
    assert Listed(b, 0) == {};
  }

  lemma KindByHolders(b: Book, k: Key)
    requires Conserved(b) && k in b.index
    ensures Holders(b.news, k) > 0 <==> !b.index[k].tried
    ensures b.index[k].refs == Holders(b.news, k) && (Occurs(b.tried, k) > 0 <==> b.index[k].tried)
  {
    hide Holders, Occurs;
    assert KeyOk(b, k);
  }

  lemma TriedDone(f: PeersFile, b: Book, now: int)
    requires Conserved(b) && |b.tried| == TRIED_BUCKET_COUNT
    ensures TriedIn(f, b, TRIED_BUCKET_COUNT, now) == Reopened(f, b, now)
    ensures Sane(Reopened(f, b, now).index)
  {
    hide Holders, Occurs, Conserved, Restore, SavedOf;
    var p, q := TriedIn(f, b, TRIED_BUCKET_COUNT, now), Reopened(f, b, now);
    assert b.tried[..TRIED_BUCKET_COUNT] == b.tried;
    forall k | k in b.index
      ensures Holders(b.news, k) == b.index[k].refs && (Occurs(b.tried, k) > 0 <==> b.index[k].tried)
      ensures b.index[k].refs > 0 <==> !b.index[k].tried
    {
      KindByHolders(b, k);
    }
    assert p.index == q.index;
    assert p.tried == q.tried;
    CountersAre(b);
    assert Listed(b, TRIED_BUCKET_COUNT) == TriedKeys(b.index);
  }

  lemma CountersAre(b: Book)
    requires Conserved(b)
    ensures b.nNew == |Untried(b.index)| && b.nTried == |TriedKeys(b.index)|
  {
  }

  /** Saving and loading into a fresh manager succeeds and restores the tables, timestamps excepted. */
  lemma SaveLoadRoundTrip(b: Book, f: PeersFile, parse: Key -> Option<Key>, now: int)
    requires Conserved(b) && IsSave(b, f) && Readable(b, parse) && f.version <= SERIALISATION_VERSION
    ensures |f.newBuckets| == NEW_BUCKET_COUNT && |f.triedBuckets| == TRIED_BUCKET_COUNT
    ensures LoadPeers(f, parse, now) == Some(Reopened(f, b, now))
  {
    hide Conserved, Readable, LoadAddresses, LoadBuckets, LoadLists, NewsIn, TriedIn, Reopened, Sane, Empty, IndexOf;
    SizesAre(b);
    AddressesLoad(b, f, parse, now, 0);
    NoneSaved(f, b, now);
    StartsEmpty(f, b, now);
    BucketsLoad(b, f, 0, now);
    NewsDone(f, b, now);
    ListsLoad(b, f, 0, now);
    TriedDone(f, b, now);
    BucketsKeepLength(NewsIn(f, b, 0, now), f, 0);
  }

  lemma NoneSaved(f: PeersFile, b: Book, now: int)
    ensures IndexOf(f, b, SavedKeys(f, 0), now) == map[]
  {
  }

  /** Whatever is restored is conserved again, with every field but times as it was when the file has service bits. */
  lemma ReopenedConserved(f: PeersFile, b: Book, now: int)
    requires Conserved(b)
    ensures Conserved(Reopened(f, b, now))
    ensures f.version > 1 ==> forall k :: k in b.index ==>
      k in Reopened(f, b, now).index &&
      Reopened(f, b, now).index[k] ==
        b.index[k].(na := b.index[k].na.(timestamp := now), src := b.index[k].src.(timestamp := now))
  {
    hide Holders, Occurs;
    var b' := Reopened(f, b, now);
    forall k ensures KeyOk(b', k) { assert KeyOk(b, k); }
    assert Untried(b'.index) == Untried(b.index) && TriedKeys(b'.index) == TriedKeys(b.index);
    forall k | k in b.index ensures b.index[k].na.key == k { assert KeyOk(b, k); }
  }
}
