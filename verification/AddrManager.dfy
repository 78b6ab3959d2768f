/** The address manager object: tables updated in place. */
module AddrManager {
  import opened Base
  import opened AddrBook
  import opened AddrPeers

  const GET_ADDR_MAX := 2500
  const GET_ADDR_PERCENT := 23

  class AddrManager {
    var addrIndex: map<Key, Known>
    const addrNew: array<set<Key>>
    const addrTried: array<seq<Key>>
    var nNew: int
    var nTried: int

    ghost function Tables(): Book
      reads this, addrNew, addrTried
    {
      Book(addrIndex, addrNew[..], addrTried[..], nNew, nTried)
    }

    ghost predicate Valid()
      reads this, addrNew, addrTried
    {
      Conserved(Tables())
    }

    constructor ()
      ensures Valid() && Tables() == Empty() && fresh(addrNew) && fresh(addrTried)
    {
      addrIndex, nNew, nTried := map[], 0, 0;
      addrNew := new set<Key>[NEW_BUCKET_COUNT](_ => {});
      addrTried := new seq<Key>[TRIED_BUCKET_COUNT](_ => []);
      new;
      EmptyConserved();
      assert addrNew[..] == Empty().news;
      assert addrTried[..] == Empty().tried;
    }

    // -------------------------------------------------------------------------
    // Adding addresses

    /** Delete one entry of a new bucket. */
    method DropOne(bucket: nat, k: Key)
      requires bucket < addrNew.Length && k in addrIndex
      modifies this`addrIndex, this`nNew, addrNew
      ensures Tables() == Drop(old(Tables()), bucket, {k})
    {
      hide Holders, Occurs;
      ghost var b := Tables();
      addrNew[bucket] := addrNew[bucket] - {k};
      assert addrNew[..] == b.news[bucket := b.news[bucket] - {k}];
      var refs := addrIndex[k].refs - 1;
      if refs == 0 {
        nNew := nNew - 1;
        addrIndex := addrIndex - {k};
        assert LastRefs(b, {k}) == {k};
      } else {
        addrIndex := addrIndex[k := addrIndex[k].(refs := refs)];
        assert LastRefs(b, {k}) == {};
      }
      assert addrIndex == Drop(b, bucket, {k}).index;
    }

    /** Throw away the bad entries of a new bucket, and the oldest of the others. */
    method ExpireNew(bucket: nat, bad: Known -> bool, ghost key: Key) returns (ghost chosen: Option<Key>)
      requires bucket < addrNew.Length && ConservedBut(Tables(), key)
      modifies this`addrIndex, this`nNew, addrNew
      ensures OldestOf(old(Tables()), bucket, bad, chosen)
      ensures Tables() == Drop(old(Tables()), bucket, Expired(old(Tables()), bucket, bad, chosen))
    {
      hide Holders, Occurs, ConservedBut, Drop;
      ghost var b := Tables();
      ghost var all := addrNew[bucket];
      var oldest: Option<Key> := None;
      var pending := addrNew[bucket];
      ghost var gone: set<Key> := {};
      DropNone(b, bucket);
      while pending != {}
        invariant pending <= all && gone <= all - pending && Tables() == Drop(b, bucket, gone)
        invariant forall k :: k in all - pending ==> k in b.index && (k in gone <==> bad(b.index[k]))
        invariant oldest.None? ==> gone == all - pending
        invariant oldest.Some? ==> Leads(b, all - pending, gone, oldest.value)
      {
        var k :| k in pending;
        pending := pending - {k};
        HeldIsKnown(b, bucket, key, k);
        StillThere(b, bucket, gone, k);
        var v := addrIndex[k];
        if bad(v) {
          DropMore(b, bucket, gone, key, k);
          DropOne(bucket, k);
          gone := gone + {k};
          assert oldest.None? ==> gone == all - pending;
        } else {
          if oldest.None? {
            oldest := Some(k);
          } else {
            StillThere(b, bucket, gone, oldest.value);
            if v.na.timestamp <= addrIndex[oldest.value].na.timestamp {
              oldest := Some(k);
            }
          }
        }
      }
      assert all - pending == all;
      chosen := oldest;
      assert (set k | k in all && k in b.index && bad(b.index[k])) == gone;
      if oldest.Some? {
        StillThere(b, bucket, gone, oldest.value);
        HeldIsKnown(b, bucket, key, oldest.value);
        DropMore(b, bucket, gone, key, oldest.value);
        DropOne(bucket, oldest.value);
        assert Expired(b, bucket, bad, chosen) == gone + {oldest.value};
      } else {
        assert Expired(b, bucket, bad, chosen) == gone;
      }
    }

    method UpdateAddress(na: NetAddr, src: NetAddr, routable: bool, rand: nat, h: Hashes, bad: Known -> bool)
      returns (ghost oldest: Option<Key>)
      requires Valid()
      modifies this`addrIndex, this`nNew, addrNew
      ensures routable ==> UpdateChoice(old(Tables()), na, src, rand, h, bad, oldest)
      ensures Valid() && Tables() == AddrBook.UpdateAddress(old(Tables()), na, src, routable, rand, h, bad, oldest)
    {
      hide Holders, Occurs, Conserved, ConservedBut, Drop, Expired, OldestOf, KeyOk;
      oldest := None;
      if !routable {
        return;
      }
      ghost var b := Tables();
      SizesAre(b);
      var addr := na.key;
      if addr in addrIndex {
        KnownNoted(b, na, src, rand);
        var ka := addrIndex[addr];
        if na.timestamp > ka.na.timestamp || !(na.services <= ka.na.services) {
          var copy := ka.na.(timestamp := na.timestamp, services := ka.na.services + na.services);
          addrIndex := addrIndex[addr := ka.(na := copy)];
        } else {
          assert addrIndex[addr := ka] == addrIndex;
        }
        if ka.tried {
          return;
        }
        if ka.refs == NEW_BUCKETS_PER_ADDRESS {
          return;
        }
        DrawBoundPositive(b, addr);
        if rand % (2 * ka.refs) != 0 {
          return;
        }
      } else {
        UnknownNoted(b, na, src, rand);
        addrIndex := addrIndex[addr := Known(na, src, 0, 0, 0, false, 0)];
        nNew := nNew + 1;
      }
      ghost var b1 := Noted(b, na, src, rand).0;
      assert Tables() == b1;
      NotedFields(b, na, src, rand);
      var bucket := NewBucket(h, na, src);
      if addr in addrNew[bucket] {
        return;
      }
      if |addrNew[bucket]| > NEW_BUCKET_SIZE {
        oldest := ExpireNew(bucket, bad, addr);
        DropFields(b1, bucket, Expired(b1, bucket, bad, oldest));
        ExpiredIsHeld(b1, bucket, bad, oldest);
        StillThere(b1, bucket, Expired(b1, bucket, bad, oldest), addr);
      }
      UpdateKeeps(b, na, src, routable, rand, h, bad, oldest);
      AddReference(bucket, addr);
    }

    /** Put an address into a new bucket. */
    method AddReference(bucket: nat, k: Key)
      requires bucket < addrNew.Length && k in addrIndex
      modifies this`addrIndex, addrNew
      ensures Tables() == Refer(old(Tables()), bucket, k)
    {
      addrIndex := addrIndex[k := addrIndex[k].(refs := addrIndex[k].refs + 1)];
      addrNew[bucket] := addrNew[bucket] + {k};
    }

    // -------------------------------------------------------------------------
    // Promoting addresses

    /** The entry of a tried list to evict. */
    method PickTried(bucket: nat) returns (e: nat)
      requires bucket < addrTried.Length && addrTried[bucket] != []
      requires forall k :: k in addrTried[bucket] ==> k in addrIndex
      ensures e < |addrTried[bucket]| && e == OldestIn(Tables(), addrTried[bucket])
    {
      var list := addrTried[bucket];
      e := 0;
      for i := 1 to |list|
        invariant e < i && e == OldestIn(Tables(), list[..i])
      {
        assert list[..i + 1][..i] == list[..i];
        assert list[e] in list && list[i] in list;
        if addrIndex[list[e]].na.timestamp > addrIndex[list[i]].na.timestamp {
          e := i;
        }
      }
      assert list[..|list|] == list;
    }

    /** Remove a key from every new bucket, counting the references and noting the first bucket. */
    method RemoveFromNew(k: Key) returns (removed: nat, first: Option<nat>)
      modifies addrNew
      ensures addrNew[..] == Purge(old(addrNew[..]), k)
      ensures removed == Holders(old(addrNew[..]), k) && first == FirstHolder(old(addrNew[..]), k)
    {
      ghost var news := addrNew[..];
      removed, first := 0, None;
      assert news[0..] == news;
      for i := 0 to addrNew.Length
        invariant forall j :: 0 <= j < addrNew.Length ==> addrNew[j] == if j < i then news[j] - {k} else news[j]
        invariant Holders(news, k) == removed + Holders(news[i..], k)
        invariant first.None? ==> forall j :: 0 <= j < i ==> k !in news[j]
        invariant first.Some? ==> first.value < i && k in news[first.value] && forall j ::
          0 <= j < first.value ==> k !in news[j]
      {
        assert news[i..][0] == news[i] && news[i..][1..] == news[i + 1..];
        if k in addrNew[i] {
          addrNew[i] := addrNew[i] - {k};
          removed := removed + 1;
          if first.None? {
            first := Some(i);
          }
        }
      }
      assert addrNew[..] == Purge(news, k);
    }

    /** Take an address out of every new bucket; the first of them has room now. */
    method Unbucket(k: Key, now: int) returns (oldBucket: Option<nat>)
      requires k in addrIndex
      modifies this`addrIndex, this`nNew, addrNew
      ensures Tables() == Unbucketed(old(Tables()), k, now) && oldBucket == FirstHolder(old(Tables()).news, k)
    {
      hide Holders, Purge, FirstHolder;
      var removed, first := RemoveFromNew(k);
      var ka := addrIndex[k];
      addrIndex := addrIndex[k := ka.(lastSuccess := now, lastAttempt := now, attempts := 0,
        refs := ka.refs - removed)];
      nNew := nNew - 1;
      oldBucket := first;
    }

    /** Evict the oldest entry of a full tried list in favour of an address. */
    method Evict(k: Key, bucket: nat, freed: nat, h: Hashes)
      requires addrNew.Length == NEW_BUCKET_COUNT && bucket < addrTried.Length && addrTried[bucket] != [] &&
        freed < addrNew.Length
      requires k in addrIndex && forall m :: m in addrTried[bucket] ==> m in addrIndex && m != k
      modifies this`addrIndex, this`nNew, addrTried, addrNew
      ensures var b := old(Tables());
              var e := OldestIn(b, b.tried[bucket]);
              && b.tried[bucket][e] in b.index
              && Tables() == Exchange(b, bucket, e, k, BackTo(b, h, b.index[b.tried[bucket][e]], freed))
    {
      hide OldestIn;
      var entry := PickTried(bucket);
      assert addrTried[bucket][entry] in addrTried[bucket];
      var out := addrIndex[addrTried[bucket][entry]];
      var newBucket := NewBucket(h, out.na, out.src);
      if |addrNew[newBucket]| >= NEW_BUCKET_SIZE {
        newBucket := freed;
      }
      SwapTried(bucket, entry, k, newBucket);
    }

    method Good(k: Key, now: int, h: Hashes)
      requires Valid()
      modifies this, addrNew, addrTried
      ensures Valid() && Tables() == AddrBook.Good(old(Tables()), k, now, h)
    {
      hide Holders, Occurs, Conserved, KeyOk, Purge, OldestIn, FirstHolder;
      if k !in addrIndex {
        return;
      }
      ghost var b := Tables();
      SizesAre(b);
      GoodKeeps(b, k, now, h);
      if addrIndex[k].tried {
        addrIndex := addrIndex[k := addrIndex[k].(lastSuccess := now, lastAttempt := now, attempts := 0)];
        return;
      }
      var bucket := TriedBucket(h, addrIndex[k].na);
      HolderInRange(b.news, k);
      var oldBucket := Unbucket(k, now);
      if oldBucket.None? {
        return;
      }
      if |addrTried[bucket]| < TRIED_BUCKET_SIZE {
        PushTried(bucket, k);
        return;
      }
      ListKnown(b, Unbucketed(b, k, now), bucket, k);
      Evict(k, bucket, oldBucket.value, h);
    }

    /** Append an address to a tried list. */
    method PushTried(bucket: nat, k: Key)
      requires bucket < addrTried.Length && k in addrIndex
      modifies this`addrIndex, this`nTried, addrTried
      ensures Tables() == Promote(old(Tables()), bucket, k)
    {
      addrIndex := addrIndex[k := addrIndex[k].(tried := true)];
      addrTried[bucket] := addrTried[bucket] + [k];
      nTried := nTried + 1;
    }

    /** Replace an entry of a tried list; the address that leaves goes to a new bucket. */
    method SwapTried(bucket: nat, entry: nat, k: Key, newBucket: nat)
      requires bucket < addrTried.Length && entry < |addrTried[bucket]| && newBucket < addrNew.Length
      requires k in addrIndex && addrTried[bucket][entry] in addrIndex && addrTried[bucket][entry] != k
      modifies this`addrIndex, this`nNew, addrTried, addrNew
      ensures Tables() == Exchange(old(Tables()), bucket, entry, k, newBucket)
    {
      var out := addrTried[bucket][entry];
      addrIndex := addrIndex[k := addrIndex[k].(tried := true)];
      addrTried[bucket] := addrTried[bucket][entry := k];
      addrIndex := addrIndex[out := addrIndex[out].(tried := false, refs := addrIndex[out].refs + 1)];
      nNew := nNew + 1;
      addrNew[newBucket] := addrNew[newBucket] + {out};
    }

    // -------------------------------------------------------------------------
    // Other marks

    method Attempt(k: Key, now: int)
      requires Valid()
      modifies this`addrIndex
      ensures Valid() && Tables() == AddrBook.Attempt(old(Tables()), k, now)
      ensures addrIndex.Keys == old(addrIndex).Keys && forall m :: m in addrIndex && m != k ==>
        addrIndex[m] == old(addrIndex)[m]
      ensures k in addrIndex ==> var ka := old(addrIndex)[k];
        addrIndex[k] == Known(ka.na, ka.src, ka.attempts + 1, now, ka.lastSuccess, ka.tried, ka.refs)
    {
      hide Conserved;
      if k !in addrIndex {
        return;
      }
      KeyIs(Tables(), k);
      var ka := addrIndex[k].(attempts := addrIndex[k].attempts + 1, lastAttempt := now);
      TouchKeeps(Tables(), k, ka);
      addrIndex := addrIndex[k := ka];
    }

    method Connected(k: Key, now: int, later: int)
      requires Valid()
      modifies this`addrIndex
      ensures Valid() && Tables() == AddrBook.Connected(old(Tables()), k, now, later)
      ensures addrIndex.Keys == old(addrIndex).Keys && forall m :: m in addrIndex && m != k ==>
        addrIndex[m] == old(addrIndex)[m]
      ensures k in addrIndex ==> var ka := old(addrIndex)[k];
        addrIndex[k] == ka.(na := ka.na.(timestamp := if now - ka.na.timestamp > 1200 then later else ka.na.timestamp))
    {
      hide Conserved;
      if k !in addrIndex {
        return;
      }
      if now > addrIndex[k].na.timestamp + TWENTY_MINUTES {
        KeyIs(Tables(), k);
        var ka := addrIndex[k].(na := addrIndex[k].na.(timestamp := later));
        TouchKeeps(Tables(), k, ka);
        addrIndex := addrIndex[k := ka];
      }
    }

    method SetServices(k: Key, services: set<nat>)
      requires Valid()
      modifies this`addrIndex
      ensures Valid() && Tables() == AddrBook.SetServices(old(Tables()), k, services)
      ensures addrIndex.Keys == old(addrIndex).Keys && forall m :: m in addrIndex && m != k ==>
        addrIndex[m] == old(addrIndex)[m]
      ensures k in addrIndex ==> addrIndex[k] == old(addrIndex)[k].(na := old(addrIndex)[k].na.(services := services))
    {
      hide Conserved;
      if k !in addrIndex {
        return;
      }
      if addrIndex[k].na.services != services {
        KeyIs(Tables(), k);
        var ka := addrIndex[k].(na := addrIndex[k].na.(services := services));
        TouchKeeps(Tables(), k, ka);
        addrIndex := addrIndex[k := ka];
      }
    }

    // -------------------------------------------------------------------------
    // Handing out addresses

    /** No result if there is no address, or if the draws run out. */
    method GetAddress(coin: bool, draws: seq<Draw>) returns (r: Option<Key>)
      requires Valid()
      ensures |Tables().news| == NEW_BUCKET_COUNT && |Tables().tried| == TRIED_BUCKET_COUNT
      ensures r == AddrBook.GetAddress(Tables(), coin, draws)
      ensures r.Some? ==> r.value in addrIndex
    {
      hide Conserved;
      ghost var b := Tables();
      SizesAre(b);
      GetAddressKnown(b, coin, draws);
      if nTried + nNew == 0 {
        return None;
      }
      assert draws[0..] == draws;
      if nTried > 0 && (nNew == 0 || coin) {
        for i := 0 to |draws|
          invariant AddrBook.PickTried(b, draws) == AddrBook.PickTried(b, draws[i..])
        {
          assert draws[i..][0] == draws[i] && draws[i..][1..] == draws[i + 1..];
          var bucket := draws[i].bucket % TRIED_BUCKET_COUNT;
          if |addrTried[bucket]| == 0 {
            continue;
          }
          var k := addrTried[bucket][draws[i].nth % |addrTried[bucket]|];
          if draws[i].accept {
            return Some(k);
          }
        }
        return None;
      }
      for i := 0 to |draws|
        invariant PickNew(b, draws) == PickNew(b, draws[i..])
      {
        assert draws[i..][0] == draws[i] && draws[i..][1..] == draws[i + 1..];
        var bucket := draws[i].bucket % NEW_BUCKET_COUNT;
        if draws[i].pick !in addrNew[bucket] {
          continue;
        }
        if draws[i].accept {
          return Some(draws[i].pick);
        }
      }
      return None;
    }

    // -------------------------------------------------------------------------
    // The peers file

    /** The entries of the index, in some order. */
    method SaveAddresses(version: int) returns (saved: seq<SavedAddr>)
      ensures forall i :: 0 <= i < |saved| ==>
        saved[i].addr in addrIndex && saved[i] == SavedOf(version, saved[i].addr, addrIndex[saved[i].addr])
      ensures forall i, j :: 0 <= i < j < |saved| ==> saved[i].addr != saved[j].addr
      ensures forall k :: k in addrIndex ==> exists i :: 0 <= i < |saved| && saved[i].addr == k
    {
      saved := [];
      var pending := addrIndex.Keys;
      while pending != {}
        invariant pending <= addrIndex.Keys
        invariant forall i :: 0 <= i < |saved| ==>
          && saved[i].addr in addrIndex && saved[i].addr !in pending
          && saved[i] == SavedOf(version, saved[i].addr, addrIndex[saved[i].addr])
        invariant forall i, j :: 0 <= i < j < |saved| ==> saved[i].addr != saved[j].addr
        invariant forall k :: k in addrIndex && k !in pending ==> exists i :: 0 <= i < |saved| && saved[i].addr == k
      {
        var k :| k in pending;
        pending := pending - {k};
        ghost var before := saved;
        saved := saved + [SavedOf(version, k, addrIndex[k])];
        forall m | m in addrIndex && m !in pending ensures exists i :: 0 <= i < |saved| && saved[i].addr == m
        {
          var i := if m == k then |before| else (var j :| 0 <= j < |before| && before[j].addr == m; j);
          assert saved[i].addr == m;
        }
      }
    }

    method SavePeers(version: int) returns (f: PeersFile)
      requires Valid()
      ensures IsSave(Tables(), f) && f.version == version
      ensures |f.newBuckets| == NEW_BUCKET_COUNT && |f.triedBuckets| == TRIED_BUCKET_COUNT
    {
      hide Conserved, SavedOf;
      SizesAre(Tables());
      var addresses := SaveAddresses(version);
      var newBuckets: seq<seq<Key>> := [];
      for i := 0 to addrNew.Length
        invariant |newBuckets| == i && forall j :: 0 <= j < i ==> Lists(newBuckets[j], addrNew[j])
      {
        var keys := ListKeys(addrNew[i]);
        newBuckets := newBuckets + [keys];
      }
      f := PeersFile(version, addresses, newBuckets, addrTried[..]);
    }

    /** Read a file into empty tables. */
    method DeserializePeers(f: PeersFile, parse: Key -> Option<Key>, now: int) returns (ok: bool)
      requires Tables() == Empty() && |f.newBuckets| == NEW_BUCKET_COUNT && |f.triedBuckets| == TRIED_BUCKET_COUNT
      modifies this, addrNew, addrTried
      ensures ok <==> LoadPeers(f, parse, now).Some?
      ensures ok ==> Tables() == LoadPeers(f, parse, now).value
    {
      hide Restore, LoadAddresses, LoadBuckets, LoadLists, Empty;
      EmptyIs();
      if f.version > SERIALISATION_VERSION {
        return false;
      }
      ok := ReadAddresses(f, parse, now);
      if !ok {
        return;
      }
      ghost var b := Tables();
      BucketsKeepLength(b, f, 0);
      ok := ReadBuckets(f);
      if !ok {
        return;
      }
      ok := ReadLists(f);
      if !ok {
        return;
      }
      ok := Check();
    }

    method ReadAddresses(f: PeersFile, parse: Key -> Option<Key>, now: int) returns (ok: bool)
      requires addrIndex == map[]
      modifies this`addrIndex
      ensures ok <==> LoadAddresses(f, parse, now, 0, map[]).Some?
      ensures ok ==> addrIndex == LoadAddresses(f, parse, now, 0, map[]).value
    {
      hide Restore;
      for i := 0 to |f.addresses|
        invariant LoadAddresses(f, parse, now, 0, map[]) == LoadAddresses(f, parse, now, i, addrIndex)
      {
        var v := f.addresses[i];
        var key := parse(v.addr);
        if key.None? {
          return false;
        }
        var src := parse(v.src);
        if src.None? {
          return false;
        }
        var ka := Restore(f.version, v, key.value, src.value, now);
        addrIndex := addrIndex[ka.na.key := ka];
      }
      ok := true;
    }

    method ReadBuckets(f: PeersFile) returns (ok: bool)
      requires |f.newBuckets| == addrNew.Length
      modifies this`addrIndex, this`nNew, addrNew
      ensures ok <==> LoadBuckets(old(Tables()), f, 0).Some?
      ensures ok ==> Tables() == LoadBuckets(old(Tables()), f, 0).value
    {
      hide LoadRef;
      ghost var b := Tables();
      for i := 0 to |f.newBuckets|
        invariant LoadBuckets(b, f, 0) == LoadBuckets(Tables(), f, i)
      {
        ghost var b1 := Tables();
        var ks := f.newBuckets[i];
        assert ks[0..] == ks;
        for j := 0 to |ks|
          invariant LoadBucket(b1, i, ks) == LoadBucket(Tables(), i, ks[j..])
        {
          assert ks[j..][0] == ks[j] && ks[j..][1..] == ks[j + 1..];
          if ks[j] !in addrIndex {
            return false;
          }
          ReadRef(i, ks[j]);
        }
      }
      ok := true;
    }

    method ReadRef(i: nat, k: Key)
      requires i < addrNew.Length && k in addrIndex
      modifies this`addrIndex, this`nNew, addrNew
      ensures Tables() == LoadRef(old(Tables()), i, k)
    {
      if addrIndex[k].refs == 0 {
        nNew := nNew + 1;
      }
      AddReference(i, k);
    }

    method ReadLists(f: PeersFile) returns (ok: bool)
      requires |f.triedBuckets| == addrTried.Length
      modifies this`addrIndex, this`nTried, addrTried
      ensures ok <==> LoadLists(old(Tables()), f, 0).Some?
      ensures ok ==> Tables() == LoadLists(old(Tables()), f, 0).value
    {
      hide Promote;
      ghost var b := Tables();
      for i := 0 to |f.triedBuckets|
        invariant LoadLists(b, f, 0) == LoadLists(Tables(), f, i)
      {
        ghost var b1 := Tables();
        var ks := f.triedBuckets[i];
        assert ks[0..] == ks;
        for j := 0 to |ks|
          invariant LoadList(b1, i, ks) == LoadList(Tables(), i, ks[j..])
        {
          assert ks[j..][0] == ks[j] && ks[j..][1..] == ks[j + 1..];
          if ks[j] !in addrIndex {
            return false;
          }
          PushTried(i, ks[j]);
        }
      }
      ok := true;
    }

    /** Every address is either new or tried. */
    method Check() returns (ok: bool)
      ensures ok <==> Sane(addrIndex)
    {
      var pending := addrIndex.Keys;
      while pending != {}
        invariant pending <= addrIndex.Keys
        invariant forall k :: k in addrIndex && k !in pending ==>
          (addrIndex[k].refs == 0 ==> addrIndex[k].tried) && (addrIndex[k].refs > 0 ==> !addrIndex[k].tried)
      {
        var k :| k in pending;
        pending := pending - {k};
        if addrIndex[k].refs == 0 && !addrIndex[k].tried {
          return false;
        }
        if addrIndex[k].refs > 0 && addrIndex[k].tried {
          return false;
        }
      }
      ok := true;
    }

    /** All addresses, in some order. */
    method GetAddresses() returns (addrs: array<NetAddr>)
      requires Valid()
      ensures fresh(addrs) && addrs.Length == |addrIndex|
      ensures forall i :: 0 <= i < addrs.Length ==> addrs[i].key in addrIndex && addrs[i] == addrIndex[addrs[i].key].na
      ensures forall i, j :: 0 <= i < j < addrs.Length ==> addrs[i].key != addrs[j].key
    {
      hide Conserved;
      var list: seq<NetAddr> := [];
      var pending := addrIndex.Keys;
      while pending != {}
        invariant pending <= addrIndex.Keys && |list| + |pending| == |addrIndex|
        invariant forall i :: 0 <= i < |list| ==>
          list[i].key in addrIndex && list[i].key !in pending && list[i] == addrIndex[list[i].key].na
        invariant forall i, j :: 0 <= i < j < |list| ==> list[i].key != list[j].key
      {
        var k :| k in pending;
        KeyIs(Tables(), k);
        pending := pending - {k};
        list := list + [addrIndex[k].na];
      }
      addrs := new NetAddr[|list|](i requires 0 <= i < |list| => list[i]);
    }

    /** At most 2500 and at most 23 percent of the known addresses, each at most once, however the draws fall. */
    method AddressCache(draws: seq<nat>) returns (r: seq<NetAddr>)
      requires Valid()
      ensures |r| == if |addrIndex| * 23 / 100 > 2500 then 2500 else |addrIndex| * 23 / 100
      ensures forall i :: 0 <= i < |r| ==> r[i].key in addrIndex && r[i] == addrIndex[r[i].key].na
      ensures forall i, j :: 0 <= i < j < |r| ==> r[i].key != r[j].key
    {
      hide Conserved;
      var all := GetAddresses();
      var count := all.Length * GET_ADDR_PERCENT / 100;
      if count > GET_ADDR_MAX {
        count := GET_ADDR_MAX;
      }
      for i := 0 to count
        invariant forall j :: 0 <= j < all.Length ==> all[j].key in addrIndex && all[j] == addrIndex[all[j].key].na
        invariant forall j, k :: 0 <= j < k < all.Length ==> all[j].key != all[k].key
      {
        var draw := if i < |draws| then draws[i] else 0;
        var j := draw % (all.Length - i) + i;
        all[i], all[j] := all[j], all[i];
      }
      r := all[..count];
    }
  }

  method ListKeys(ks: set<Key>) returns (list: seq<Key>)
    ensures Lists(list, ks)
  {
    list := [];
    var pending := ks;
    while pending != {}
      invariant pending <= ks && Lists(list, ks - pending)
    {
      var k :| k in pending;
      pending := pending - {k};
      list := list + [k];
    }
    assert ks - pending == ks;
  }

  lemma EmptyIs()
    ensures Empty().index == map[] && |Empty().news| == NEW_BUCKET_COUNT && |Empty().tried| == TRIED_BUCKET_COUNT
  {
  }

  /** `k` is kept, was visited, and is not newer than any other entry kept and visited. */
  ghost predicate Leads(b: Book, visited: set<Key>, gone: set<Key>, k: Key)
  {
    && k in visited && k !in gone && k in b.index
    && forall m :: m in visited && m !in gone && m in b.index ==> b.index[k].na.timestamp <= b.index[m].na.timestamp
  }

  lemma StillThere(b: Book, i: nat, gone: set<Key>, k: Key)
    requires i < |b.news| && k in b.index && k !in gone
    ensures k in Drop(b, i, gone).index && Drop(b, i, gone).index[k] == b.index[k]
  {
  }

  lemma ExpiredIsHeld(b: Book, i: nat, bad: Known -> bool, oldest: Option<Key>)
    requires i < |b.news|
    ensures Expired(b, i, bad, oldest) <= b.news[i]
  {
  }

  lemma ListKnown(b: Book, b1: Book, j: nat, k: Key)
    requires Conserved(b) && b1.tried == b.tried && b1.index.Keys == b.index.Keys && j < |b.tried|
    requires k in b.index && !b.index[k].tried
    ensures forall m :: m in b1.tried[j] ==> m in b1.index && m != k
  {
    hide Conserved;
    forall m | m in b1.tried[j] ensures m in b1.index && m != k
    {
      var e :| 0 <= e < |b.tried[j]| && b.tried[j][e] == m;
      ListedIsKnown(b, j, e);
    }
  }

  lemma HolderInRange(news: seq<set<Key>>, k: Key)
    ensures FirstHolder(news, k).Some? ==> FirstHolder(news, k).value < |news|
  {
  }
}
