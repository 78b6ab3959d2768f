/** Which peers files load, and what the tables then are, read off the file. */
module AddrFiles {
  import opened Base
  import opened AddrBook
  import opened AddrPeers

  /** The keys of the addresses from position `i` on. */
  ghost function FileKeys(f: PeersFile, parse: Key -> Option<Key>, i: nat): set<Key>
  {
    set j | i <= j < |f.addresses| && parse(f.addresses[j].addr).Some? :: parse(f.addresses[j].addr).value
  }

  ghost predicate AllRead(f: PeersFile, parse: Key -> Option<Key>, i: nat)
  {
    forall j :: i <= j < |f.addresses| ==> parse(f.addresses[j].addr).Some? && parse(f.addresses[j].src).Some?
  }

  /** No address is in a table yet. */
  ghost predicate Unplaced(index: map<Key, Known>)
  {
    forall k :: k in index ==> index[k].refs == 0 && !index[k].tried
  }

  lemma {:induction false} AddressesRead(f: PeersFile, parse: Key -> Option<Key>, now: int, i: nat,
                                         index: map<Key, Known>)
    requires i <= |f.addresses| && Unplaced(index)
    ensures var r := LoadAddresses(f, parse, now, i, index);
            && (r.Some? <==> AllRead(f, parse, i))
            && (r.Some? ==> r.value.Keys == index.Keys + FileKeys(f, parse, i) && Unplaced(r.value))
    decreases |f.addresses| - i
  {
    if i < |f.addresses| {
      var v := f.addresses[i];
      if parse(v.addr).Some? && parse(v.src).Some? {
        var ka := Restore(f.version, v, parse(v.addr).value, parse(v.src).value, now);
        AddressesRead(f, parse, now, i + 1, index[ka.na.key := ka]);
        assert FileKeys(f, parse, i) == FileKeys(f, parse, i + 1) + {parse(v.addr).value};
      }
    } else {
      assert FileKeys(f, parse, i) == {};
    }
  }

  /** Tables that know the same addresses, with so many references more. */
  ghost predicate Referred(b: Book, b': Book, more: Key -> nat)
  {
    && b'.index.Keys == b.index.Keys
    && (forall k :: k in b.index ==>
          b'.index[k].refs == b.index[k].refs + more(k) && b'.index[k].tried == b.index[k].tried)
  }

  lemma {:induction false} BucketTables(b: Book, i: nat, ks: seq<Key>)
    requires i < |b.news|
    ensures var r := LoadBucket(b, i, ks);
            && (r.Some? <==> forall k :: k in ks ==> k in b.index)
            && (r.Some? ==> r.value.tried == b.tried && r.value.news == b.news[i := b.news[i] + set k | k in ks])
    decreases |ks|
  {
    if ks == [] {
      assert b.news[i] + (set k | k in ks) == b.news[i];
    } else {
      assert forall k :: k in ks <==> k == ks[0] || k in ks[1..];
      if ks[0] in b.index {
        BucketTables(LoadRef(b, i, ks[0]), i, ks[1..]);
        assert b.news[i] + {ks[0]} + (set k | k in ks[1..]) == b.news[i] + set k | k in ks;
      }
    }
  }

  /** One entry counts once. */
  lemma RefCounts(b: Book, b': Book, i: nat, ks: seq<Key>)
    requires i < |b.news| && ks != [] && ks[0] in b.index
    requires Referred(LoadRef(b, i, ks[0]), b', k => multiset(ks[1..])[k])
    ensures Referred(b, b', k => multiset(ks)[k])
  {
    var b1 := LoadRef(b, i, ks[0]);
    assert b1.index.Keys == b.index.Keys;
    forall k | k in b.index ensures b1.index[k].refs + multiset(ks[1..])[k] == b.index[k].refs + multiset(ks)[k]
    {
      assert multiset(ks) == multiset{ks[0]} + multiset(ks[1..]) by { assert ks == [ks[0]] + ks[1..]; }
    }
  }

  lemma {:induction false} BucketRefs(b: Book, i: nat, ks: seq<Key>)
    requires i < |b.news| && LoadBucket(b, i, ks).Some?
    ensures Referred(b, LoadBucket(b, i, ks).value, k => multiset(ks)[k])
    decreases |ks|
  {
    hide Referred;
    if ks != [] {
      BucketRefs(LoadRef(b, i, ks[0]), i, ks[1..]);
      RefCounts(b, LoadBucket(b, i, ks).value, i, ks);
    } else {
      NothingReferred(b);
    }
  }

  lemma NothingReferred(b: Book)
    ensures Referred(b, b, k => multiset([])[k])
  {
  }

  lemma {:induction false} BucketsRead(b: Book, f: PeersFile, i: nat)
    requires i <= |f.newBuckets| == |b.news|
    ensures var r := LoadBuckets(b, f, i);
            && (r.Some? <==> forall j, k :: i <= j < |f.newBuckets| && k in f.newBuckets[j] ==> k in b.index)
            && (r.Some? ==>
                  && Referred(b, r.value, k => Occurs(f.newBuckets[i..], k))
                  && r.value.tried == b.tried && |r.value.news| == |b.news|
                  && forall j :: 0 <= j < |b.news| ==>
                       r.value.news[j] == if j < i then b.news[j] else b.news[j] + set k | k in f.newBuckets[j])
    decreases |f.newBuckets| - i
  {
    hide LoadBucket;
    if i < |f.newBuckets| {
      BucketTables(b, i, f.newBuckets[i]);
      assert f.newBuckets[i..][1..] == f.newBuckets[i + 1..];
      match LoadBucket(b, i, f.newBuckets[i])
      case None =>
      case Some(b1) =>
        BucketRefs(b, i, f.newBuckets[i]);
        BucketsRead(b1, f, i + 1);
    }
  }

  /** Tables that know the same addresses, some of which are now tried. */
  ghost predicate NowTried(b: Book, b': Book, listed: Key -> bool)
  {
    && b'.index.Keys == b.index.Keys
    && (forall k :: k in b.index ==>
          b'.index[k].refs == b.index[k].refs && b'.index[k].tried == (b.index[k].tried || listed(k)))
  }

  lemma {:induction false} ListRead(b: Book, j: nat, ks: seq<Key>)
    requires j < |b.tried|
    ensures var r := LoadList(b, j, ks);
            && (r.Some? <==> forall k :: k in ks ==> k in b.index)
            && (r.Some? ==>
                  && NowTried(b, r.value, k => k in ks)
                  && r.value.news == b.news && r.value.tried == b.tried[j := b.tried[j] + ks])
    decreases |ks|
  {
    if ks == [] {
      assert b.tried[j] + [] == b.tried[j];
    } else {
      assert forall k :: k in ks <==> k == ks[0] || k in ks[1..];
      if ks[0] in b.index {
        ListRead(Promote(b, j, ks[0]), j, ks[1..]);
        assert b.tried[j] + [ks[0]] + ks[1..] == b.tried[j] + ks;
      }
    }
  }

  ghost predicate InLists(f: PeersFile, j: nat, k: Key)
  {
    exists i :: j <= i < |f.triedBuckets| && k in f.triedBuckets[i]
  }

  lemma {:induction false} ListsRead(b: Book, f: PeersFile, j: nat)
    requires j <= |f.triedBuckets| == |b.tried|
    ensures var r := LoadLists(b, f, j);
            && (r.Some? <==> forall i, k :: j <= i < |f.triedBuckets| && k in f.triedBuckets[i] ==> k in b.index)
            && (r.Some? ==>
                  && NowTried(b, r.value, k => InLists(f, j, k))
                  && r.value.news == b.news && |r.value.tried| == |b.tried|
                  && forall i :: 0 <= i < |b.tried| ==>
                       r.value.tried[i] == if i < j then b.tried[i] else b.tried[i] + f.triedBuckets[i])
    decreases |f.triedBuckets| - j
  {
    hide LoadList;
    if j < |f.triedBuckets| {
      ListRead(b, j, f.triedBuckets[j]);
      match LoadList(b, j, f.triedBuckets[j])
      case None =>
      case Some(b1) => ListsRead(b1, f, j + 1);
    }
  }

  /** What the three steps of loading leave, put together. */
  lemma StepsRead(f: PeersFile, b: Book, b1: Book, b2: Book)
    requires |f.newBuckets| == |b.news| == |b1.news| && |f.triedBuckets| == |b1.tried| == |b2.tried|
    requires b.news == Empty().news && b1.tried == Empty().tried && b2.news == b1.news
    requires Unplaced(b.index) && Referred(b, b1, k => Occurs(f.newBuckets, k))
    requires NowTried(b1, b2, k => InLists(f, 0, k))
    requires forall j :: 0 <= j < |b.news| ==> b1.news[j] == b.news[j] + set k | k in f.newBuckets[j]
    requires forall j :: 0 <= j < |b1.tried| ==> b2.tried[j] == b1.tried[j] + f.triedBuckets[j]
    ensures b2.index.Keys == b.index.Keys
    ensures forall k :: k in b.index ==>
              b2.index[k].refs == Occurs(f.newBuckets, k) && b2.index[k].tried == InLists(f, 0, k)
    ensures b2.tried == f.triedBuckets
    ensures |b2.news| == |f.newBuckets|
    ensures forall j :: 0 <= j < |f.newBuckets| ==> b2.news[j] == set k | k in f.newBuckets[j]
    ensures Sane(b2.index) <==>
            forall k :: k in b.index ==> (Occurs(f.newBuckets, k) == 0 <==> InLists(f, 0, k))
  {
    hide Occurs, InLists;
    forall k | k in b.index
      ensures b2.index[k].refs == Occurs(f.newBuckets, k) && b2.index[k].tried == InLists(f, 0, k)
    {
      assert b1.index[k].refs == Occurs(f.newBuckets, k) && !b1.index[k].tried;
    }
    assert forall j :: 0 <= j < |b1.tried| ==> b2.tried[j] == f.triedBuckets[j];
  }

  /**
    A file loads exactly if its version is at most two, every address and source can be read, every entry of a
    bucket or list is one of the addresses, and every address is in a new bucket or in a tried list but not in
    both.  Then each address has as many references as bucket entries, and the tables are those of the file.
  */
  lemma LoadPeersIff(f: PeersFile, parse: Key -> Option<Key>, now: int)
    requires |f.newBuckets| == NEW_BUCKET_COUNT && |f.triedBuckets| == TRIED_BUCKET_COUNT
    ensures var keys, r := FileKeys(f, parse, 0), LoadPeers(f, parse, now);
            && (r.Some? <==>
                  && f.version <= 2 && AllRead(f, parse, 0)
                  && (forall j, k :: 0 <= j < |f.newBuckets| && k in f.newBuckets[j] ==> k in keys)
                  && (forall j, k :: 0 <= j < |f.triedBuckets| && k in f.triedBuckets[j] ==> k in keys)
                  && (forall k :: k in keys ==> (Occurs(f.newBuckets, k) == 0 <==> InLists(f, 0, k))))
            && (r.Some? ==>
                  && r.value.index.Keys == keys
                  && (forall k :: k in keys ==>
                        r.value.index[k].refs == Occurs(f.newBuckets, k) && r.value.index[k].tried == InLists(f, 0, k))
                  && |r.value.news| == |f.newBuckets| && r.value.tried == f.triedBuckets
                  && forall j :: 0 <= j < |f.newBuckets| ==> r.value.news[j] == set k | k in f.newBuckets[j])
  {
    hide LoadAddresses, LoadBuckets, LoadLists, Occurs, InLists, FileKeys, AllRead, Empty, Sane, Referred, NowTried;
    AddressesRead(f, parse, now, 0, map[]);
    EmptySizes();
    match LoadAddresses(f, parse, now, 0, map[])
    case None =>
    case Some(index) =>
      var b := Empty().(index := index);
      assert f.newBuckets[0..] == f.newBuckets;
      BucketsRead(b, f, 0);
      match LoadBuckets(b, f, 0)
      case None =>
      case Some(b1) =>
        ListsRead(b1, f, 0);
        SameKnown(b, b1, k => Occurs(f.newBuckets, k));
        match LoadLists(b1, f, 0)
        case None =>
        case Some(b2) => StepsRead(f, b, b1, b2);
  }

  lemma EmptySizes()
    ensures |Empty().news| == NEW_BUCKET_COUNT && |Empty().tried| == TRIED_BUCKET_COUNT
  {
  }

  lemma SameKnown(b: Book, b': Book, more: Key -> nat)
    requires Referred(b, b', more)
    ensures b'.index.Keys == b.index.Keys
  {
  }
}
