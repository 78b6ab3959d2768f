/**
  The address manager's tables: what each operation makes of them, and what every
  operation keeps.

  Random draws, the bucket hashes and the verdict of `isBad` are inputs.  The source
  shares one record per address between its index and its buckets; here buckets hold
  address keys and the record is found through the index.
*/
module AddrBook {
  import opened Base

  const TRIED_BUCKET_SIZE := 256
  const TRIED_BUCKET_COUNT := 64
  const NEW_BUCKET_SIZE := 64
  const NEW_BUCKET_COUNT := 1024
  const NEW_BUCKETS_PER_ADDRESS := 8

  type Key = string

  datatype NetAddr = NetAddr(key: Key, timestamp: int, services: set<nat>)

  datatype Known = Known(na: NetAddr, src: NetAddr, attempts: nat, lastAttempt: int, lastSuccess: int,
    tried: bool, refs: int)

  datatype Book = Book(
    index: map<Key, Known>,
    news: seq<set<Key>>,
    tried: seq<seq<Key>>,
    nNew: int,
    nTried: int)

  /** The bucket hashes, before they are reduced to a bucket number. */
  datatype Hashes = Hashes(ofNew: (NetAddr, NetAddr) -> nat, ofTried: NetAddr -> nat)

  function NewBucket(h: Hashes, na: NetAddr, src: NetAddr): (i: nat)
    ensures i < NEW_BUCKET_COUNT
  {
    h.ofNew(na, src) % NEW_BUCKET_COUNT
  }

  function TriedBucket(h: Hashes, na: NetAddr): (i: nat)
    ensures i < TRIED_BUCKET_COUNT
  {
    h.ofTried(na) % TRIED_BUCKET_COUNT
  }

  // ---------------------------------------------------------------------------
  // Conservation

  /** The number of new buckets that hold a key. */
  function Holders(news: seq<set<Key>>, k: Key): nat
  {
    if news == [] then 0 else (if k in news[0] then 1 else 0) + Holders(news[1..], k)
  }

  /** How often a key occurs in the tried lists together. */
  function Occurs(tried: seq<seq<Key>>, k: Key): nat
  {
    if tried == [] then 0 else multiset(tried[0])[k] + Occurs(tried[1..], k)
  }

  function Untried(index: map<Key, Known>): set<Key>
  {
    set k | k in index && !index[k].tried
  }

  function TriedKeys(index: map<Key, Known>): set<Key>
  {
    set k | k in index && index[k].tried
  }

  /** References, buckets and flags agree on one key. */
  ghost predicate KeyOk(b: Book, k: Key)
  {
    if k in b.index then
      var ka := b.index[k];
      && ka.na.key == k
      && ka.refs == Holders(b.news, k) <= NEW_BUCKETS_PER_ADDRESS
      && Occurs(b.tried, k) == (if ka.tried then 1 else 0)
      && (ka.tried <==> ka.refs == 0)
    else Holders(b.news, k) == 0 && Occurs(b.tried, k) == 0
  }

  ghost predicate Sized(b: Book)
  {
    && |b.news| == NEW_BUCKET_COUNT && |b.tried| == TRIED_BUCKET_COUNT
    && (forall i :: 0 <= i < |b.news| ==> |b.news[i]| <= NEW_BUCKET_SIZE + 1)
    && (forall i :: 0 <= i < |b.tried| ==> |b.tried[i]| <= TRIED_BUCKET_SIZE)
  }

  ghost predicate Counted(b: Book)
  {
    b.nNew == |Untried(b.index)| && b.nTried == |TriedKeys(b.index)|
  }

  /** What every operation keeps. */
  ghost predicate Conserved(b: Book)
  {
    Sized(b) && Counted(b) && forall k :: KeyOk(b, k)
  }

  // ---------------------------------------------------------------------------
  // Counting lemmas

  lemma {:induction false} HoldersUpdate(news: seq<set<Key>>, i: nat, bucket: set<Key>, k: Key)
    requires i < |news|
    ensures Holders(news[i := bucket], k) ==
            Holders(news, k) - (if k in news[i] then 1 else 0) + (if k in bucket then 1 else 0)
    decreases |news|
  {
    if i > 0 {
      HoldersUpdate(news[1..], i - 1, bucket, k);
      assert news[i := bucket][1..] == news[1..][i - 1 := bucket];
    } else {
      assert news[i := bucket][1..] == news[1..];
    }
  }

  lemma {:induction false} HoldersSome(news: seq<set<Key>>, i: nat, k: Key)
    requires i < |news| && k in news[i]
    ensures Holders(news, k) > 0
    decreases |news|
  {
    if i > 0 {
      HoldersSome(news[1..], i - 1, k);
    }
  }

  lemma {:induction false} HoldersFind(news: seq<set<Key>>, k: Key) returns (i: nat)
    requires Holders(news, k) > 0
    ensures i < |news| && k in news[i]
    decreases |news|
  {
    if k in news[0] {
      i := 0;
    } else {
      var j := HoldersFind(news[1..], k);
      i := j + 1;
    }
  }

  lemma {:induction false} OccursUpdate(tried: seq<seq<Key>>, i: nat, list: seq<Key>, k: Key)
    requires i < |tried|
    ensures Occurs(tried[i := list], k) == Occurs(tried, k) - multiset(tried[i])[k] + multiset(list)[k]
    decreases |tried|
  {
    if i > 0 {
      OccursUpdate(tried[1..], i - 1, list, k);
      assert tried[i := list][1..] == tried[1..][i - 1 := list];
    } else {
      assert tried[i := list][1..] == tried[1..];
    }
  }

  lemma {:induction false} OccursSome(tried: seq<seq<Key>>, i: nat, k: Key)
    requires i < |tried|
    ensures Occurs(tried, k) >= multiset(tried[i])[k]
    decreases |tried|
  {
    if i > 0 {
      OccursSome(tried[1..], i - 1, k);
    }
  }

  lemma {:induction false} OccursFind(tried: seq<seq<Key>>, k: Key) returns (i: nat)
    requires Occurs(tried, k) > 0
    ensures i < |tried| && k in tried[i]
    decreases |tried|
  {
    if k in tried[0] {
      i := 0;
    } else {
      assert multiset(tried[0])[k] == 0;
      var j := OccursFind(tried[1..], k);
      i := j + 1;
    }
  }

  // ---------------------------------------------------------------------------
  // Removing keys from a new bucket

  /** The keys of `ks` that are held by no other bucket. */
  function LastRefs(b: Book, ks: set<Key>): set<Key>
  {
    set k | k in ks && k in b.index && b.index[k].refs == 1
  }

  /** Take keys out of a new bucket; an address whose last reference goes is forgotten. */
  function Drop(b: Book, i: nat, ks: set<Key>): Book
    requires i < |b.news|
  {
    b.(index := map k | k in b.index && k !in LastRefs(b, ks) ::
                  if k in ks then b.index[k].(refs := b.index[k].refs - 1) else b.index[k],
       news := b.news[i := b.news[i] - ks],
       nNew := b.nNew - |LastRefs(b, ks)|)
  }

  /** Conserved but for one address: it may be known without being in a bucket yet. */
  ghost predicate ConservedBut(b: Book, key: Key)
  {
    && Sized(b) && Counted(b) && (forall k :: k != key ==> KeyOk(b, k))
    && key in b.index && !b.index[key].tried && b.index[key].na.key == key
    && b.index[key].refs == Holders(b.news, key) < NEW_BUCKETS_PER_ADDRESS && Occurs(b.tried, key) == 0
  }

  lemma HeldIsKnown(b: Book, i: nat, key: Key, k: Key)
    requires ConservedBut(b, key) && i < |b.news| && k in b.news[i]
    ensures k in b.index && b.index[k].refs >= 1 && !b.index[k].tried && b.index[k].na.key == k
  {
    hide Holders, Occurs;
    assert k != key ==> KeyOk(b, k);
    HoldersSome(b.news, i, k);
  }

  /** Dropping other addresses keeps what is conserved. */
  lemma DropKeeps(b: Book, i: nat, ks: set<Key>, key: Key)
    requires ConservedBut(b, key) && i < |b.news| && ks <= b.news[i] && key !in ks
    ensures ConservedBut(Drop(b, i, ks), key) && |Drop(b, i, ks).news[i]| == |b.news[i]| - |ks|
  {
    hide Holders, Occurs;
    var b' := Drop(b, i, ks);
    forall k | k in ks ensures k in b.index && b.index[k].refs >= 1 && !b.index[k].tried { HeldIsKnown(b, i, key, k); }
    forall k | k != key ensures KeyOk(b', k)
    {
      assert KeyOk(b, k);
      HoldersUpdate(b.news, i, b.news[i] - ks, k);
    }
    HoldersUpdate(b.news, i, b.news[i] - ks, key);
    SubsetCount(b.news[i], ks);
    assert Untried(b'.index) == Untried(b.index) - LastRefs(b, ks);
    SubsetCount(Untried(b.index), LastRefs(b, ks));
    assert TriedKeys(b'.index) == TriedKeys(b.index);
    DropSized(b, i, ks);
  }

  lemma DropSized(b: Book, i: nat, ks: set<Key>)
    requires Sized(b) && i < |b.news| && ks <= b.news[i]
    ensures Sized(Drop(b, i, ks))
  {
    SubsetCount(b.news[i], ks);
  }

  lemma SubsetCount<T>(a: set<T>, c: set<T>)
    requires c <= a
    ensures |a - c| == |a| - |c|
  {
    assert a == (a - c) + c;
  }

  /** One key after the others. */
  lemma DropMore(b: Book, i: nat, ks: set<Key>, key: Key, k: Key)
    requires ConservedBut(b, key) && i < |b.news| && ks <= b.news[i] && k in b.news[i] && k !in ks
    ensures Drop(Drop(b, i, ks), i, {k}) == Drop(b, i, ks + {k})
  {
    hide ConservedBut;
    HeldIsKnown(b, i, key, k);
    var b1 := Drop(b, i, ks);
    var a, c := Drop(b1, i, {k}), Drop(b, i, ks + {k});
    assert b1.index[k] == b.index[k];
    assert LastRefs(b1, {k}) == LastRefs(b, {k});
    assert LastRefs(b, ks + {k}) == LastRefs(b, ks) + LastRefs(b, {k});
    assert LastRefs(b, ks) !! LastRefs(b, {k});
    assert a.news == c.news by { assert b.news[i] - ks - {k} == b.news[i] - (ks + {k}); }
    forall m | m in a.index ensures m in c.index && a.index[m] == c.index[m] {}
    forall m | m in c.index ensures m in a.index {}
    assert a.index == c.index;
  }

  lemma DropNone(b: Book, i: nat)
    requires i < |b.news|
    ensures Drop(b, i, {}) == b
  {
    assert LastRefs(b, {}) == {};
    assert Drop(b, i, {}).index == b.index;
    assert b.news[i] - {} == b.news[i];
  }

  // ---------------------------------------------------------------------------
  // updateAddress

  /** `oldest` is an entry `expireNew` can settle on: of the entries it did not throw away, none is older. */
  ghost predicate OldestOf(b: Book, i: nat, bad: Known -> bool, oldest: Option<Key>)
    requires i < |b.news|
  {
    match oldest
    case None => forall k :: k in b.news[i] ==> k in b.index && bad(b.index[k])
    case Some(k) =>
      && k in b.news[i] && k in b.index && !bad(b.index[k])
      && forall m :: m in b.news[i] && m in b.index && !bad(b.index[m]) ==>
           b.index[k].na.timestamp <= b.index[m].na.timestamp
  }

  /** What `expireNew` throws away: every bad entry, and the oldest of the others. */
  function Expired(b: Book, i: nat, bad: Known -> bool, oldest: Option<Key>): set<Key>
    requires i < |b.news|
  {
    (set k | k in b.news[i] && k in b.index && bad(b.index[k])) +
    (if oldest.Some? then {oldest.value} * b.news[i] else {})
  }

  /** A newer timestamp or a service not seen before replaces the stored address. */
  function Refresh(ka: Known, na: NetAddr): Known
  {
    if na.timestamp > ka.na.timestamp || !(na.services <= ka.na.services) then
      ka.(na := ka.na.(timestamp := na.timestamp, services := ka.na.services + na.services))
    else ka
  }

  function Fresh(na: NetAddr, src: NetAddr): Known
  {
    Known(na, src, 0, 0, 0, false, 0)
  }

  /** The first half: note the address, and stop if it is not to be put into another bucket. */
  function Noted(b: Book, na: NetAddr, src: NetAddr, rand: nat): (r: (Book, bool))
    requires Conserved(b)
  {
    if na.key in b.index then
      var ka := b.index[na.key];
      var b1 := b.(index := b.index[na.key := Refresh(ka, na)]);
      assert KeyOk(b, na.key);
      (b1, !ka.tried && ka.refs != NEW_BUCKETS_PER_ADDRESS && rand % (2 * ka.refs) == 0)
    else (b.(index := b.index[na.key := Fresh(na, src)], nNew := b.nNew + 1), true)
  }

  /** Another reference from a new bucket. */
  function Refer(b: Book, i: nat, k: Key): Book
    requires i < |b.news| && k in b.index
  {
    b.(index := b.index[k := b.index[k].(refs := b.index[k].refs + 1)], news := b.news[i := b.news[i] + {k}])
  }

  /** `updateAddress`; `oldest` is what its call of `expireNew` settles on, if there is one. */
  function UpdateAddress(b: Book, na: NetAddr, src: NetAddr, routable: bool, rand: nat, h: Hashes,
                         bad: Known -> bool, oldest: Option<Key>): Book
    requires Conserved(b)
  {
    if !routable then b
    else
      var (b1, more) := Noted(b, na, src, rand);
      var i := NewBucket(h, na, src);
      if !more || na.key in b1.news[i] then b1
      else
        var b2 := if |b1.news[i]| > NEW_BUCKET_SIZE then Drop(b1, i, Expired(b1, i, bad, oldest)) else b1;
        Refer(b2, i, na.key)
  }

  /** `Int31n` is only called with a positive bound. */
  lemma DrawBoundPositive(b: Book, k: Key)
    requires Conserved(b) && k in b.index && !b.index[k].tried
    ensures 2 * b.index[k].refs > 0
  {
    assert KeyOk(b, k);
  }

  lemma KnownNoted(b: Book, na: NetAddr, src: NetAddr, rand: nat)
    requires Conserved(b) && na.key in b.index
    ensures var (b1, more) := Noted(b, na, src, rand);
            Conserved(b1) && (more ==> ConservedBut(b1, na.key))
  {
    hide Holders, Occurs;
    var b1 := Noted(b, na, src, rand).0;
    assert Untried(b1.index) == Untried(b.index) && TriedKeys(b1.index) == TriedKeys(b.index);
    forall k ensures KeyOk(b1, k) { assert KeyOk(b, k); }
    assert KeyOk(b, na.key);
  }

  lemma UnknownNoted(b: Book, na: NetAddr, src: NetAddr, rand: nat)
    requires Conserved(b) && na.key !in b.index
    ensures ConservedBut(Noted(b, na, src, rand).0, na.key)
  {
    hide Holders, Occurs;
    var b1 := Noted(b, na, src, rand).0;
    assert Untried(b1.index) == Untried(b.index) + {na.key} && TriedKeys(b1.index) == TriedKeys(b.index);
    forall k | k != na.key ensures KeyOk(b1, k) { assert KeyOk(b, k); }
    assert KeyOk(b, na.key);
  }

  lemma ReferKeeps(b: Book, i: nat, key: Key)
    requires ConservedBut(b, key) && i < |b.news| && key !in b.news[i] && |b.news[i]| <= NEW_BUCKET_SIZE
    ensures Conserved(Refer(b, i, key))
  {
    hide Holders, Occurs;
    var b' := Refer(b, i, key);
    assert Untried(b'.index) == Untried(b.index) && TriedKeys(b'.index) == TriedKeys(b.index);
    forall k ensures KeyOk(b', k)
    {
      assert k != key ==> KeyOk(b, k);
      HoldersUpdate(b.news, i, b.news[i] + {key}, k);
    }
  }

  lemma {:induction false} HoldersNone(news: seq<set<Key>>, k: Key)
    requires Holders(news, k) == 0
    ensures forall i :: 0 <= i < |news| ==> k !in news[i]
    decreases |news|
  {
    forall i | 0 <= i < |news| ensures k !in news[i]
    {
      if k in news[i] { HoldersSome(news, i, k); }
    }
  }

  /** The chosen entry is one the loop of `expireNew` can settle on, if the call is made. */
  ghost predicate UpdateChoice(b: Book, na: NetAddr, src: NetAddr, rand: nat, h: Hashes, bad: Known -> bool,
          oldest: Option<Key>)
    requires Conserved(b)
  {
    var (b1, more) := Noted(b, na, src, rand);
    var i := NewBucket(h, na, src);
    more && na.key !in b1.news[i] && |b1.news[i]| > NEW_BUCKET_SIZE ==> OldestOf(b1, i, bad, oldest)
  }

  /** A full bucket always gives up an entry. */
  lemma ExpiredSome(b: Book, i: nat, key: Key, bad: Known -> bool, oldest: Option<Key>)
    requires ConservedBut(b, key) && i < |b.news| && |b.news[i]| > NEW_BUCKET_SIZE && OldestOf(b, i, bad, oldest)
    ensures |Expired(b, i, bad, oldest)| >= 1 && Expired(b, i, bad, oldest) <= b.news[i]
  {
    hide ConservedBut;
    var ks := Expired(b, i, bad, oldest);
    var k :| k in b.news[i];
    HeldIsKnown(b, i, key, k);
    if oldest.Some? {
      assert oldest.value in ks;
    } else {
      assert k in ks;
    }
    SomeMember(ks);
  }

  lemma SomeMember<T>(s: set<T>)
    requires s != {}
    ensures |s| >= 1
  {
  }

  lemma UpdateKeeps(b: Book, na: NetAddr, src: NetAddr, routable: bool, rand: nat, h: Hashes,
          bad: Known -> bool, oldest: Option<Key>)
    requires Conserved(b) && UpdateChoice(b, na, src, rand, h, bad, oldest)
    ensures Conserved(UpdateAddress(b, na, src, routable, rand, h, bad, oldest))
  {
    hide Conserved, ConservedBut, Noted, Drop, Refer, Expired, OldestOf;
    if routable {
      NotedFields(b, na, src, rand);
      var (b1, more) := Noted(b, na, src, rand);
      var i := NewBucket(h, na, src);
      if na.key in b.index { KnownNoted(b, na, src, rand); } else { UnknownNoted(b, na, src, rand); }
      if more && na.key !in b1.news[i] {
        BucketFits(b1, i, na.key);
        if |b1.news[i]| > NEW_BUCKET_SIZE {
          ExpiredSome(b1, i, na.key, bad, oldest);
          var ks := Expired(b1, i, bad, oldest);
          DropKeeps(b1, i, ks, na.key);
          DropFields(b1, i, ks);
          ReferKeeps(Drop(b1, i, ks), i, na.key);
        } else {
          ReferKeeps(b1, i, na.key);
        }
      }
    }
  }

  /** The record of an address once it has been heard of again, or for the first time. */
  function HeardOf(b: Book, na: NetAddr, src: NetAddr): Known
  {
    if na.key !in b.index then Known(na, src, 0, 0, 0, false, 0)
    else
      var ka := b.index[na.key];
      var newer := na.timestamp > ka.na.timestamp || !(na.services <= ka.na.services);
      ka.(na := NetAddr(ka.na.key, if newer then na.timestamp else ka.na.timestamp, ka.na.services + na.services))
  }

  /** Whether the address gets another reference: always the first, and up to eight by a draw that gets rarer. */
  predicate Joins(b: Book, na: NetAddr, rand: nat, i: nat)
    requires i < |b.news|
  {
    && na.key !in b.news[i]
    && (na.key in b.index ==>
          var ka := b.index[na.key];
          !ka.tried && ka.refs < 8 && ka.refs > 0 && rand % (2 * ka.refs) == 0)
  }

  /** The addresses thrown out to make room: none while the bucket has at most 64. */
  function ThrownOut(b: Book, i: nat, bad: Known -> bool, oldest: Option<Key>): set<Key>
    requires i < |b.news|
  {
    if |b.news[i]| > 64 then
      set m | m in b.news[i] && ((m in b.index && bad(b.index[m])) || oldest == Some(m))
    else {}
  }

  /** Some addresses lose a reference or are forgotten, and all others but `k` are as they were. */
  ghost predicate Lost(b: Book, b': Book, out: set<Key>, k: Key)
  {
    && (forall m :: m in b'.index ==> m == k || m in b.index)
    && (forall m :: m in b.index && m != k ==>
          if m !in out then m in b'.index && b'.index[m] == b.index[m]
          else if b.index[m].refs == 1 then m !in b'.index
          else m in b'.index && b'.index[m] == b.index[m].(refs := b.index[m].refs - 1))
  }

  lemma DropLoses(b: Book, b1: Book, i: nat, out: set<Key>, k: Key, rec: Known)
    requires i < |b1.news| && b1.index == b.index[k := rec] && k !in out
    ensures var b' := Refer(Drop(b1, i, out), i, k);
            && Lost(b, b', out, k) && k in b'.index && b'.index[k] == rec.(refs := rec.refs + 1)
            && b'.tried == b1.tried && b'.news == b1.news[i := b1.news[i] - out + {k}]
  {
  }

  lemma KeptLoses(b: Book, b1: Book, k: Key, rec: Known)
    requires b1.index == b.index[k := rec]
    ensures Lost(b, b1, {}, k) && k in b1.index && b1.index[k] == rec
  {
  }

  /**
    What hearing of an address does: its record is refreshed or begun, it may join the new bucket of its hash,
    which may throw others out, each of which loses a reference or is forgotten; and nothing else changes.
  */
  lemma UpdateEffect(b: Book, na: NetAddr, src: NetAddr, rand: nat, h: Hashes, bad: Known -> bool, oldest: Option<Key>)
    requires Conserved(b) && UpdateChoice(b, na, src, rand, h, bad, oldest)
    ensures UpdateAddress(b, na, src, false, rand, h, bad, oldest) == b && |b.news| == NEW_BUCKET_COUNT
    ensures var k, i, rec := na.key, NewBucket(h, na, src), HeardOf(b, na, src);
            var b' := UpdateAddress(b, na, src, true, rand, h, bad, oldest);
            var joins := Joins(b, na, rand, i);
            var out := if joins then ThrownOut(b, i, bad, oldest) else {};
            && k in b'.index && b'.index[k] == rec.(refs := rec.refs + if joins then 1 else 0)
            && b'.tried == b.tried && b'.news == b.news[i := b.news[i] - out + if joins then {k} else {}]
            && Lost(b, b', out, k)
  {
    hide Conserved, Noted, Drop, Refer, Lost, HeardOf, Expired, OldestOf;
    NotedFields(b, na, src, rand);
    RefreshedIs(b, na, src, rand);
    var k, i, rec := na.key, NewBucket(h, na, src), HeardOf(b, na, src);
    var b1 := Noted(b, na, src, rand).0;
    if Joins(b, na, rand, i) {
      var out := ThrownOut(b, i, bad, oldest);
      SameExpired(b, b1, i, bad, oldest, k);
      DropLoses(b, b1, i, out, k, rec);
      if out == {} { DropNone(b1, i); }
    } else {
      KeptLoses(b, b1, k, rec);
      assert b.news[i] - {} + {} == b.news[i];
    }
  }

  lemma SameExpired(b: Book, b1: Book, i: nat, bad: Known -> bool, oldest: Option<Key>, k: Key)
    requires i < |b.news| && b1.news == b.news && k !in b.news[i] && k in b1.index
    requires forall m :: m != k ==> (m in b1.index <==> m in b.index) && (m in b.index ==> b1.index[m] == b.index[m])
    ensures |b.news[i]| > 64 ==> Expired(b1, i, bad, oldest) == ThrownOut(b, i, bad, oldest)
    ensures k !in ThrownOut(b, i, bad, oldest)
  {
  }

  lemma RefreshedIs(b: Book, na: NetAddr, src: NetAddr, rand: nat)
    requires Conserved(b)
    ensures var (b1, more) := Noted(b, na, src, rand);
            && b1.index == b.index[na.key := HeardOf(b, na, src)] && b1.tried == b.tried
            && (more <==> (na.key in b.index ==>
                  var ka := b.index[na.key];
                  !ka.tried && ka.refs < 8 && ka.refs > 0 && rand % (2 * ka.refs) == 0))
  {
    hide Holders, Occurs;
    assert KeyOk(b, na.key);
    if na.key in b.index && na.services <= b.index[na.key].na.services {
      assert b.index[na.key].na.services + na.services == b.index[na.key].na.services;
    }
  }

  lemma BucketFits(b: Book, i: nat, key: Key)
    requires ConservedBut(b, key) && i < |b.news|
    ensures |b.news[i]| <= NEW_BUCKET_SIZE + 1
  {
  }

  lemma NotedFields(b: Book, na: NetAddr, src: NetAddr, rand: nat)
    requires Conserved(b)
    ensures var (b1, more) := Noted(b, na, src, rand);
            b1.news == b.news && |b.news| == NEW_BUCKET_COUNT && na.key in b1.index && (!more ==> na.key in b.index)
            && (na.key !in b.index ==> forall i :: 0 <= i < |b.news| ==> na.key !in b.news[i])
  {
    hide Holders, Occurs;
    assert KeyOk(b, na.key);
    if na.key !in b.index { HoldersNone(b.news, na.key); }
  }

  lemma DropFields(b: Book, i: nat, ks: set<Key>)
    requires i < |b.news|
    ensures Drop(b, i, ks).news == b.news[i := b.news[i] - ks]
  {
  }

  // ---------------------------------------------------------------------------
  // Good

  /** The first new bucket that holds a key. */
  function FirstHolder(news: seq<set<Key>>, k: Key): (r: Option<nat>)
    ensures r.Some? ==> r.value < |news| && k in news[r.value] && forall i :: 0 <= i < r.value ==> k !in news[i]
    ensures r.None? ==> forall i :: 0 <= i < |news| ==> k !in news[i]
  {
    if news == [] then None
    else if k in news[0] then Some(0)
    else match FirstHolder(news[1..], k)
      case None => assert forall i :: 0 < i < |news| ==> news[i] == news[1..][i - 1]; None
      case Some(i) => assert forall j :: 0 < j < |news| ==> news[j] == news[1..][j - 1]; Some(i + 1)
  }

  /** Every bucket without a key. */
  function Purge(news: seq<set<Key>>, k: Key): (r: seq<set<Key>>)
    ensures |r| == |news| && forall i :: 0 <= i < |news| ==> r[i] == news[i] - {k}
  {
    if news == [] then [] else [news[0] - {k}] + Purge(news[1..], k)
  }

  function Stamp(b: Book, k: Key): int
  {
    if k in b.index then b.index[k].na.timestamp else 0
  }

  /** `pickTried`: the first of the oldest entries of a list. */
  function OldestIn(b: Book, list: seq<Key>): (oldest: nat)
    requires list != []
    ensures oldest < |list|
    ensures forall j :: 0 <= j < |list| ==> Stamp(b, list[oldest]) <= Stamp(b, list[j])
    ensures forall j :: 0 <= j < oldest ==> Stamp(b, list[oldest]) < Stamp(b, list[j])
  {
    var n := |list| - 1;
    if n == 0 then 0
    else
      var e := OldestIn(b, list[..n]);
      if Stamp(b, list[e]) > Stamp(b, list[n]) then n else e
  }

  /** The address leaves every new bucket. */
  function Unbucketed(b: Book, k: Key, now: int): Book
    requires k in b.index
  {
    var ka := b.index[k];
    b.(index := b.index[k := ka.(lastSuccess := now, lastAttempt := now, attempts := 0,
      refs := ka.refs - Holders(b.news, k))],
       news := Purge(b.news, k), nNew := b.nNew - 1)
  }

  /** The address joins a tried list with room. */
  function Promote(b: Book, j: nat, k: Key): Book
    requires j < |b.tried| && k in b.index
  {
    b.(index := b.index[k := b.index[k].(tried := true)], tried := b.tried[j := b.tried[j] + [k]],
      nTried := b.nTried + 1)
  }

  /** The address takes the place of another, which goes back to a new bucket. */
  function Exchange(b: Book, j: nat, e: nat, k: Key, i: nat): Book
    requires j < |b.tried| && e < |b.tried[j]| && i < |b.news| && k in b.index && b.tried[j][e] in b.index
  {
    var out := b.tried[j][e];
    var ra := b.index[out];
    b.(index := b.index[k := b.index[k].(tried := true)][out := ra.(tried := false, refs := ra.refs + 1)],
       tried := b.tried[j := b.tried[j][e := k]],
       news := b.news[i := b.news[i] + {out}],
       nNew := b.nNew + 1)
  }

  /** Where the evicted address goes: its own bucket, or one just freed. */
  function BackTo(b: Book, h: Hashes, out: Known, freed: nat): nat
    requires |b.news| == NEW_BUCKET_COUNT
  {
    var i := NewBucket(h, out.na, out.src);
    if |b.news[i]| >= NEW_BUCKET_SIZE then freed else i
  }

  function Good(b: Book, k: Key, now: int, h: Hashes): Book
    requires Conserved(b)
  {
    if k !in b.index then b
    else if b.index[k].tried then
      b.(index := b.index[k := b.index[k].(lastSuccess := now, lastAttempt := now, attempts := 0)])
    else
      var b1 := Unbucketed(b, k, now);
      match FirstHolder(b.news, k)
      case None => b1
      case Some(freed) =>
        var j := TriedBucket(h, b.index[k].na);
        if |b1.tried[j]| < TRIED_BUCKET_SIZE then Promote(b1, j, k)
        else
          var e := OldestIn(b1, b1.tried[j]);
          ListedIsKnown(b, j, e);
          Exchange(b1, j, e, k, BackTo(b1, h, b1.index[b1.tried[j][e]], freed))
  }

  lemma ListedIsKnown(b: Book, j: nat, e: nat)
    requires Conserved(b) && j < |b.tried| && e < |b.tried[j]|
    ensures b.tried[j][e] in b.index && b.index[b.tried[j][e]].tried && b.index[b.tried[j][e]].refs == 0
    ensures b.index[b.tried[j][e]].na.key == b.tried[j][e]
  {
    hide Holders, Occurs;
    var k := b.tried[j][e];
    assert KeyOk(b, k);
    assert k in b.tried[j];
    OccursSome(b.tried, j, k);
  }

  lemma {:induction false} HoldersPurge(news: seq<set<Key>>, k: Key, m: Key)
    ensures Holders(Purge(news, k), m) == if m == k then 0 else Holders(news, m)
    decreases |news|
  {
    if news != [] {
      HoldersPurge(news[1..], k, m);
      assert Purge(news, k)[1..] == Purge(news[1..], k);
    }
  }

  /** The exit of `Good` for an address in no bucket is never taken, and no reference is left over. */
  lemma GoodFindsBucket(b: Book, k: Key, now: int)
    requires Conserved(b) && k in b.index && !b.index[k].tried
    ensures FirstHolder(b.news, k).Some? && Unbucketed(b, k, now).index[k].refs == 0
  {
    hide Holders, Occurs;
    assert KeyOk(b, k);
    var i := HoldersFind(b.news, k);
  }

  /** Between leaving the new buckets and joining a tried list. */
  ghost predicate Between(b: Book, k: Key)
  {
    && Sized(b) && k in b.index && !b.index[k].tried && b.index[k].na.key == k && b.index[k].refs == 0
    && Holders(b.news, k) == 0 && Occurs(b.tried, k) == 0
    && (forall m :: m != k ==> KeyOk(b, m))
    && b.nNew == |Untried(b.index)| - 1 && b.nTried == |TriedKeys(b.index)|
  }

  lemma UnbucketedBetween(b: Book, k: Key, now: int)
    requires Conserved(b) && k in b.index && !b.index[k].tried
    ensures Between(Unbucketed(b, k, now), k)
  {
    hide Holders, Occurs, Purge;
    var b' := Unbucketed(b, k, now);
    assert KeyOk(b, k);
    HoldersPurge(b.news, k, k);
    forall m | m != k ensures KeyOk(b', m)
    {
      assert KeyOk(b, m);
      HoldersPurge(b.news, k, m);
    }
    assert Untried(b'.index) == Untried(b.index) && TriedKeys(b'.index) == TriedKeys(b.index);
    forall i | 0 <= i < |b'.news| ensures |b'.news[i]| <= NEW_BUCKET_SIZE + 1
    {
      Smaller(b.news[i], k);
    }
  }

  lemma Smaller(s: set<Key>, k: Key)
    ensures |s - {k}| == |s| - if k in s then 1 else 0
  {
    if k !in s { assert s - {k} == s; }
  }

  lemma PromoteKeeps(b: Book, j: nat, k: Key)
    requires Between(b, k) && j < |b.tried| && |b.tried[j]| < TRIED_BUCKET_SIZE
    ensures Conserved(Promote(b, j, k))
  {
    hide Holders, Occurs;
    var b' := Promote(b, j, k);
    forall m ensures KeyOk(b', m)
    {
      assert m != k ==> KeyOk(b, m);
      OccursUpdate(b.tried, j, b.tried[j] + [k], m);
    }
    assert Untried(b'.index) == Untried(b.index) - {k};
    assert TriedKeys(b'.index) == TriedKeys(b.index) + {k};
  }

  lemma ExchangeKeys(b: Book, j: nat, e: nat, k: Key, i: nat)
    requires Between(b, k) && j < |b.tried| && e < |b.tried[j]| && i < |b.news|
    requires b.tried[j][e] in b.index && b.index[b.tried[j][e]].tried
    ensures forall m :: KeyOk(Exchange(b, j, e, k, i), m)
  {
    hide Holders, Occurs;
    var b' := Exchange(b, j, e, k, i);
    var out := b.tried[j][e];
    assert KeyOk(b, out);
    assert out !in b.news[i] by {
      if out in b.news[i] { HoldersSome(b.news, i, out); }
    }
    forall m ensures KeyOk(b', m)
    {
      assert m != k ==> KeyOk(b, m);
      OccursUpdate(b.tried, j, b.tried[j][e := k], m);
      HoldersUpdate(b.news, i, b.news[i] + {out}, m);
      ReplacedCount(b.tried[j], e, k, m);
      OccursSome(b.tried, j, out);
    }
  }

  lemma ReplacedCount(list: seq<Key>, e: nat, k: Key, m: Key)
    requires e < |list|
    ensures multiset(list[e := k])[m] == multiset(list)[m] - (if m == list[e] then 1 else 0) + (if m == k then 1 else 0)
    ensures multiset(list)[list[e]] >= 1
  {
    assert list == list[..e] + [list[e]] + list[e + 1..];
    assert list[e := k] == list[..e] + [k] + list[e + 1..];
  }

  lemma ExchangeKeeps(b: Book, j: nat, e: nat, k: Key, i: nat)
    requires Between(b, k) && j < |b.tried| && e < |b.tried[j]| && i < |b.news| && |b.news[i]| <= NEW_BUCKET_SIZE
    requires b.tried[j][e] in b.index && b.index[b.tried[j][e]].tried
    ensures Conserved(Exchange(b, j, e, k, i))
  {
    hide Holders, Occurs, KeyOk;
    ExchangeKeys(b, j, e, k, i);
    var b' := Exchange(b, j, e, k, i);
    var out := b.tried[j][e];
    assert Untried(b'.index) == Untried(b.index) - {k} + {out};
    assert TriedKeys(b'.index) == TriedKeys(b.index) - {out} + {k};
  }

  lemma GoodKeeps(b: Book, k: Key, now: int, h: Hashes)
    requires Conserved(b)
    ensures Conserved(Good(b, k, now, h))
  {
    hide Holders, Occurs, KeyOk, Between, Conserved;
    if k in b.index {
      if b.index[k].tried {
        KeyIs(b, k);
        TouchKeeps(b, k, b.index[k].(lastSuccess := now, lastAttempt := now, attempts := 0));
      } else {
        GoodFindsBucket(b, k, now);
        UnbucketedBetween(b, k, now);
        var b1 := Unbucketed(b, k, now);
        var j := TriedBucket(h, b.index[k].na);
        SizesAre(b);
        if |b1.tried[j]| < TRIED_BUCKET_SIZE {
          PromoteKeeps(b1, j, k);
        } else {
          var e := OldestIn(b1, b1.tried[j]);
          ListedIsKnown(b, j, e);
          var freed := FirstHolder(b.news, k).value;
          RoomAgain(b, freed, k);
          ExchangeKeeps(b1, j, e, k, BackTo(b1, h, b1.index[b1.tried[j][e]], freed));
        }
      }
    }
  }

  /** The record of an address that has just been good. */
  function Proven(ka: Known, now: int): Known
  {
    Known(ka.na, ka.src, 0, now, now, true, 0)
  }

  /** An address that is tried already only has its times and attempts reset; an unknown one is ignored. */
  lemma GoodAgain(b: Book, k: Key, now: int, h: Hashes)
    requires Conserved(b) && (k in b.index ==> b.index[k].tried)
    ensures k !in b.index ==> Good(b, k, now, h) == b
    ensures k in b.index ==> Good(b, k, now, h) == b.(index := b.index[k := Proven(b.index[k], now)])
  {
    hide Holders, Occurs;
    assert KeyOk(b, k);
  }

  /**
    An address that was not tried is promoted: it leaves every new bucket and joins the tried list of its own
    hash.  A list with room takes it at its end and nothing else changes.
  */
  lemma GoodPromotes(b: Book, k: Key, now: int, h: Hashes)
    requires Conserved(b) && k in b.index && !b.index[k].tried
    requires |b.tried[TriedBucket(h, b.index[k].na)]| < 256
    ensures var b', j := Good(b, k, now, h), TriedBucket(h, b.index[k].na);
            && b'.index == b.index[k := Proven(b.index[k], now)]
            && b'.tried == b.tried[j := b.tried[j] + [k]]
            && |b'.news| == |b.news| && (forall i :: 0 <= i < |b.news| ==> b'.news[i] == b.news[i] - {k})
  {
    hide Holders, Occurs, Purge, Conserved, FirstHolder;
    SizesAre(b);
    GoodFindsBucket(b, k, now);
  }

  /** Where the address that makes room goes: its own new bucket if that has room, or the first one left just now. */
  ghost predicate GoesBack(b: Book, k: Key, h: Hashes, out: Key, i: nat)
    requires |b.news| == NEW_BUCKET_COUNT && out in b.index
  {
    var own := NewBucket(h, b.index[out].na, b.index[out].src);
    if |b.news[own] - {k}| < 64 then i == own
    else i < |b.news| && k in b.news[i] && forall j :: 0 <= j < i ==> k !in b.news[j]
  }

  /**
    A full list gives up the first of its oldest entries: that address takes the promoted one's place among the
    new ones, with one reference, and everything else stays.
  */
  lemma GoodEvicts(b: Book, k: Key, now: int, h: Hashes) returns (e: nat, i: nat)
    requires Conserved(b) && k in b.index && !b.index[k].tried
    requires |b.tried[TriedBucket(h, b.index[k].na)]| >= 256
    ensures var b', j := Good(b, k, now, h), TriedBucket(h, b.index[k].na);
            && e < |b.tried[j]| && e == OldestIn(b, b.tried[j]) && |b.news| == NEW_BUCKET_COUNT
            && var out := b.tried[j][e];
            && out in b.index && out != k && GoesBack(b, k, h, out, i) && i < |b.news|
            && b'.index == b.index[k := Proven(b.index[k], now)][out := b.index[out].(tried := false, refs := 1)]
            && b'.tried == b.tried[j := b.tried[j][e := k]]
            && |b'.news| == |b.news| && b'.news[i] == b.news[i] - {k} + {out}
            && (forall x :: 0 <= x < |b.news| && x != i ==> b'.news[x] == b.news[x] - {k})
  {
    hide Holders, Occurs, Purge, Conserved, FirstHolder, OldestIn;
    SizesAre(b);
    GoodFindsBucket(b, k, now);
    var j := TriedBucket(h, b.index[k].na);
    var b1 := Unbucketed(b, k, now);
    e := OldestIn(b1, b1.tried[j]);
    SameOldest(b, b1, b.tried[j]);
    ListedIsKnown(b, j, e);
    var freed := FirstHolder(b.news, k).value;
    i := BackTo(b1, h, b1.index[b.tried[j][e]], freed);
  }

  lemma {:induction false} SameOldest(b: Book, b': Book, list: seq<Key>)
    requires list != [] && forall k :: Stamp(b', k) == Stamp(b, k)
    ensures OldestIn(b', list) == OldestIn(b, list)
    decreases |list|
  {
    if |list| > 1 {
      SameOldest(b, b', list[..|list| - 1]);
    }
  }

  lemma SizesAre(b: Book)
    requires Conserved(b)
    ensures |b.news| == NEW_BUCKET_COUNT && |b.tried| == TRIED_BUCKET_COUNT
  {
  }

  lemma RoomAgain(b: Book, i: nat, k: Key)
    requires Conserved(b) && i < |b.news| && k in b.news[i]
    ensures |Purge(b.news, k)[i]| <= NEW_BUCKET_SIZE
  {
    Smaller(b.news[i], k);
  }

  /** Changing what is known about an address other than its references and its kind. */
  lemma TouchKeeps(b: Book, k: Key, ka: Known)
    requires Conserved(b) && k in b.index && ka.na.key == k && ka.tried == b.index[k].tried &&
      ka.refs == b.index[k].refs
    ensures Conserved(b.(index := b.index[k := ka]))
  {
    hide Holders, Occurs;
    var b' := b.(index := b.index[k := ka]);
    forall m ensures KeyOk(b', m) { assert KeyOk(b, m); }
    assert Untried(b'.index) == Untried(b.index) && TriedKeys(b'.index) == TriedKeys(b.index);
  }

  // ---------------------------------------------------------------------------
  // Attempt, Connected, SetServices

  function Attempt(b: Book, k: Key, now: int): Book
  {
    if k !in b.index then b
    else b.(index := b.index[k := b.index[k].(attempts := b.index[k].attempts + 1, lastAttempt := now)])
  }

  const TWENTY_MINUTES := 20 * 60

  function Connected(b: Book, k: Key, now: int, later: int): Book
  {
    if k !in b.index || now <= b.index[k].na.timestamp + TWENTY_MINUTES then b
    else b.(index := b.index[k := b.index[k].(na := b.index[k].na.(timestamp := later))])
  }

  function SetServices(b: Book, k: Key, services: set<nat>): Book
  {
    if k !in b.index || b.index[k].na.services == services then b
    else b.(index := b.index[k := b.index[k].(na := b.index[k].na.(services := services))])
  }

  lemma KeyIs(b: Book, k: Key)
    requires Conserved(b) && k in b.index
    ensures b.index[k].na.key == k
  {
    hide Holders, Occurs;
    assert KeyOk(b, k);
  }

  // ---------------------------------------------------------------------------
  // A fresh manager

  /** `New`: no addresses, empty buckets. */
  function Empty(): Book
  {
    Book(map[], seq(NEW_BUCKET_COUNT, i => {}), seq(TRIED_BUCKET_COUNT, i => []), 0, 0)
  }

  lemma {:induction false} NoHolders(news: seq<set<Key>>, k: Key)
    requires forall i :: 0 <= i < |news| ==> news[i] == {}
    ensures Holders(news, k) == 0
    decreases |news|
  {
    if news != [] { NoHolders(news[1..], k); }
  }

  lemma {:induction false} NoOccurrence(tried: seq<seq<Key>>, k: Key)
    requires forall i :: 0 <= i < |tried| ==> tried[i] == []
    ensures Occurs(tried, k) == 0
    decreases |tried|
  {
    if tried != [] { NoOccurrence(tried[1..], k); }
  }

  lemma EmptyConserved()
    ensures Conserved(Empty())
  {
    hide Holders, Occurs;
    var b := Empty();
    forall k ensures KeyOk(b, k)
    {
      NoHolders(b.news, k);
      NoOccurrence(b.tried, k);
    }
    assert Untried(b.index) == {} && TriedKeys(b.index) == {};
  }

  // ---------------------------------------------------------------------------
  // GetAddress

  /** One round: the bucket drawn, the entry drawn in it, and whether the entry is taken. */
  datatype Draw = Draw(bucket: nat, nth: nat, pick: Key, accept: bool)

  function PickTried(b: Book, draws: seq<Draw>): Option<Key>
    requires |b.tried| == TRIED_BUCKET_COUNT
    decreases |draws|
  {
    if draws == [] then None
    else
      var d := draws[0];
      var list := b.tried[d.bucket % TRIED_BUCKET_COUNT];
      if list == [] || !d.accept then PickTried(b, draws[1..])
      else Some(list[d.nth % |list|])
  }

  /** The buckets are unordered, so an entry is drawn as a key. */
  function PickNew(b: Book, draws: seq<Draw>): Option<Key>
    requires |b.news| == NEW_BUCKET_COUNT
    decreases |draws|
  {
    if draws == [] then None
    else
      var d := draws[0];
      var bucket := b.news[d.bucket % NEW_BUCKET_COUNT];
      if d.pick !in bucket || !d.accept then PickNew(b, draws[1..]) else Some(d.pick)
  }

  /** `GetAddress` with a finite supply of draws. */
  function GetAddress(b: Book, coin: bool, draws: seq<Draw>): Option<Key>
    requires |b.news| == NEW_BUCKET_COUNT && |b.tried| == TRIED_BUCKET_COUNT
  {
    if b.nTried + b.nNew == 0 then None
    else if b.nTried > 0 && (b.nNew == 0 || coin) then PickTried(b, draws)
    else PickNew(b, draws)
  }

  /** The table that is drawn from. */
  predicate FromTried(b: Book, coin: bool)
  {
    b.nTried > 0 && (b.nNew == 0 || coin)
  }

  /** The draw meets an entry and takes it: the entry it meets. */
  function Taken(b: Book, tried: bool, d: Draw): Option<Key>
    requires |b.news| == 1024 && |b.tried| == 64
  {
    if !d.accept then None
    else if tried then
      var list := b.tried[d.bucket % 64];
      if list == [] then None else Some(list[d.nth % |list|])
    else if d.pick in b.news[d.bucket % 1024] then Some(d.pick)
    else None
  }

  /** The first draw that takes an entry decides; without an address, or without such a draw, there is no result. */
  lemma {:induction false} GetAddressIs(b: Book, coin: bool, draws: seq<Draw>, i: nat)
    requires |b.news| == NEW_BUCKET_COUNT && |b.tried| == TRIED_BUCKET_COUNT && i <= |draws|
    requires forall j :: 0 <= j < i ==> Taken(b, FromTried(b, coin), draws[j]).None?
    ensures b.nTried + b.nNew == 0 ==> GetAddress(b, coin, draws).None?
    ensures b.nTried + b.nNew != 0 && i == |draws| ==> GetAddress(b, coin, draws).None?
    ensures b.nTried + b.nNew != 0 && i < |draws| && Taken(b, FromTried(b, coin), draws[i]).Some? ==>
      GetAddress(b, coin, draws) == Taken(b, FromTried(b, coin), draws[i])
    decreases |draws|
  {
    if i > 0 {
      assert Taken(b, FromTried(b, coin), draws[0]).None?;
      forall j | 0 <= j < i - 1 ensures Taken(b, FromTried(b, coin), draws[1..][j]).None?
      {
        assert draws[1..][j] == draws[j + 1];
      }
      GetAddressIs(b, coin, draws[1..], i - 1);
    }
  }

  lemma {:induction false} PickTriedKnown(b: Book, draws: seq<Draw>)
    requires Conserved(b)
    ensures var r := PickTried(b, draws); r.Some? ==> r.value in b.index && b.index[r.value].tried
    decreases |draws|
  {
    hide Conserved;
    SizesAre(b);
    if draws != [] {
      var d := draws[0];
      var j := d.bucket % TRIED_BUCKET_COUNT;
      if b.tried[j] != [] {
        ListedIsKnown(b, j, d.nth % |b.tried[j]|);
      }
      PickTriedKnown(b, draws[1..]);
    }
  }

  lemma {:induction false} PickNewKnown(b: Book, draws: seq<Draw>)
    requires Conserved(b)
    ensures var r := PickNew(b, draws); r.Some? ==> r.value in b.index && !b.index[r.value].tried
    decreases |draws|
  {
    hide Conserved;
    SizesAre(b);
    if draws != [] {
      var d := draws[0];
      var i := d.bucket % NEW_BUCKET_COUNT;
      if d.pick in b.news[i] {
        BucketedIsKnown(b, i, d.pick);
      }
      PickNewKnown(b, draws[1..]);
    }
  }

  lemma BucketedIsKnown(b: Book, i: nat, k: Key)
    requires Conserved(b) && i < |b.news| && k in b.news[i]
    ensures k in b.index && !b.index[k].tried
  {
    hide Holders, Occurs;
    assert KeyOk(b, k);
    HoldersSome(b.news, i, k);
  }

  /** A tried address, if there is one, is in a tried list. */
  lemma TriedSomewhere(b: Book) returns (i: nat)
    requires Conserved(b) && b.nTried > 0
    ensures i < |b.tried| && b.tried[i] != []
  {
    hide Holders, Occurs;
    var k :| k in TriedKeys(b.index);
    assert KeyOk(b, k);
    i := OccursFind(b.tried, k);
  }

  lemma NewSomewhere(b: Book) returns (i: nat, k: Key)
    requires Conserved(b) && b.nNew > 0
    ensures i < |b.news| && k in b.news[i]
  {
    hide Holders, Occurs;
    k :| k in Untried(b.index);
    assert KeyOk(b, k);
    i := HoldersFind(b.news, k);
  }

  /** Whatever the coin says, the table drawn from has a non-empty bucket: some draw ends the loop. */
  lemma GetAddressCanEnd(b: Book, coin: bool) returns (d: Draw)
    requires Conserved(b) && b.nTried + b.nNew > 0
    ensures |b.news| == NEW_BUCKET_COUNT && |b.tried| == TRIED_BUCKET_COUNT && GetAddress(b, coin, [d]).Some?
  {
    hide Conserved;
    SizesAre(b);
    CountersNatural(b);
    if b.nTried > 0 && (b.nNew == 0 || coin) {
      var i := TriedSomewhere(b);
      d := Draw(i, 0, "", true);
    } else {
      var i, k := NewSomewhere(b);
      d := Draw(i, 0, k, true);
    }
  }

  lemma CountersNatural(b: Book)
    requires Conserved(b)
    ensures b.nNew >= 0 && b.nTried >= 0 && b.nNew + b.nTried == |b.index.Keys|
  {
    assert b.index.Keys == Untried(b.index) + TriedKeys(b.index);
    assert Untried(b.index) !! TriedKeys(b.index);
  }

  /** What is returned is a known address of the table that was drawn from. */
  lemma GetAddressKnown(b: Book, coin: bool, draws: seq<Draw>)
    requires Conserved(b)
    ensures |b.news| == NEW_BUCKET_COUNT && |b.tried| == TRIED_BUCKET_COUNT
    ensures var r := GetAddress(b, coin, draws);
            r.Some? ==> r.value in b.index && (b.index[r.value].tried <==> b.nTried > 0 && (b.nNew == 0 || coin))
  {
    hide Conserved, PickTried, PickNew;
    SizesAre(b);
    PickTriedKnown(b, draws);
    PickNewKnown(b, draws);
  }
}
