/** The checkpoint cache behind `OnGetCFCheckpt` (server.go). */
module FilterCheckpoints {
  import opened Base
  import opened BlockNodes
  import opened ChainModel
  import opened ChainInvariants

  const CF_CHECKPT_INTERVAL := 1000

  datatype Entry = Entry(hash: Hash, header: Hash)

  /** The cached filter headers of new slots before they are filled. */
  const BLANK := Entry(ZERO_HASH, ZERO_HASH)

  type Headers = Hash -> Hash

  // ---------------------------------------------------------------------------
  // What a reply should be

  /** The block at the `i`-th checkpoint below `n`. */
  function Checkpoint(n: BlockNode, i: nat): BlockNode
    requires CF_CHECKPT_INTERVAL * (i + 1) < |Path(n)|
  {
    Path(n)[CF_CHECKPT_INTERVAL * (i + 1)]
  }

  function CheckpointCount(n: BlockNode): nat
  {
    (|Path(n)| - 1) / CF_CHECKPT_INTERVAL
  }

  /** Hashes of the blocks on the way to `n` whose height is a positive multiple of the interval. */
  function CheckpointHashes(n: BlockNode): (r: seq<Hash>)
    ensures |r| == CheckpointCount(n)
    ensures forall i :: 0 <= i < |r| ==>
      CF_CHECKPT_INTERVAL * (i + 1) < |Path(n)| && r[i] == Checkpoint(n, i).block.hash
  {
    seq(CheckpointCount(n), i requires 0 <= i < CheckpointCount(n) => Checkpoint(n, i).block.hash)
  }

  function Lookup(hashes: seq<Hash>, header: Headers): (r: seq<Hash>)
    ensures |r| == |hashes| && forall i :: 0 <= i < |r| ==> r[i] == header(hashes[i])
  {
    if hashes == [] then [] else [header(hashes[0])] + Lookup(hashes[1..], header)
  }

  /** The reply without a cache. */
  function Direct(n: BlockNode, header: Headers): seq<Hash>
  {
    Lookup(CheckpointHashes(n), header)
  }

  // ---------------------------------------------------------------------------
  // The cache

  /** How much of the cache is relevant: the last position where hashes agree. */
  function ForkIndex(cache: seq<Entry>, hashes: seq<Hash>, k: nat): (f: nat)
    requires k <= |hashes| <= |cache|
    ensures f <= k && (f > 0 ==> cache[f - 1].hash == hashes[f - 1])
    ensures forall i :: f <= i < k ==> cache[i].hash != hashes[i]
  {
    if k == 0 || cache[k - 1].hash == hashes[k - 1] then k else ForkIndex(cache, hashes, k - 1)
  }

  function Padded(cache: seq<Entry>, count: nat): (r: seq<Entry>)
    ensures |r| == if count > |cache| then count else |cache|
    ensures forall i :: 0 <= i < |r| ==> r[i] == if i < |cache| then cache[i] else BLANK
  {
    if count > |cache| then cache + seq(count - |cache|, i => BLANK) else cache
  }

  function EntryFor(hash: Hash, header: Headers): Entry
  {
    Entry(hash, header(hash))
  }

  /** The cache with `j` entries from position `f` on replaced by those of the query, cut to `len`. */
  function Overwritten(cache: seq<Entry>, hashes: seq<Hash>, header: Headers, f: nat, j: nat, len: nat): (r: seq<Entry>)
    requires f + j <= |hashes| <= |cache| && len <= |cache|
    ensures |r| == len
    ensures forall i :: 0 <= i < len ==> r[i] == if f <= i < f + j then EntryFor(hashes[i], header) else cache[i]
  {
    seq(len, i requires 0 <= i < len => if f <= i < f + j then EntryFor(hashes[i], header) else cache[i])
  }

  /**
    A query.  `good` lookups succeed before one fails, and `spare` tells whether the cached slice has room
    to grow where it is, so that entries written to the grown slice also show in the cached one.
  */
  function Serve(cache: seq<Entry>, hashes: seq<Hash>, header: Headers, good: nat, spare: bool)
    : (seq<Entry>, Option<seq<Hash>>)
  {
    ServeAt(cache, hashes, header, good, spare, ForkIndex(Padded(cache, |hashes|), hashes, |hashes|))
  }

  /** The same, with the fork index found. */
  function ServeAt(cache: seq<Entry>, hashes: seq<Hash>, header: Headers, good: nat, spare: bool, f: nat)
    : (seq<Entry>, Option<seq<Hash>>)
    requires f <= |hashes|
  {
    var grow := |hashes| > |cache|;
    var padded := Padded(cache, |hashes|);
    if f + good < |hashes| then
      (if grow && spare then Overwritten(padded, hashes, header, f, good, |cache|) else cache, None)
    else
      var full := Overwritten(padded, hashes, header, f, |hashes| - f, |padded|);
      (if grow then full else cache, Some(HeadersOf(full[..|hashes|])))
  }

  function HeadersOf(cache: seq<Entry>): (r: seq<Hash>)
    ensures |r| == |cache| && forall i :: 0 <= i < |r| ==> r[i] == cache[i].header
  {
    if cache == [] then [] else [cache[0].header] + HeadersOf(cache[1..])
  }

  // ---------------------------------------------------------------------------
  // One coherent ancestry

  /** The blocks ever indexed: well built, closed under parents, told apart by their hashes, none of which is zero. */
  ghost predicate Universe(blocks: set<BlockNode>)
  {
    && (forall n {:trigger WellBuilt(n)} :: n in blocks ==> WellBuilt(n))
    && (forall n, m :: n in blocks && m in Path(n) ==> m in blocks)
    && (forall n, m :: n in blocks && m in blocks && n.block.hash == m.block.hash ==> n == m)
    && (forall n :: n in blocks ==> n.block.hash != ZERO_HASH)
  }

  /** The cache holds the checkpoints of one block's ancestry, with their filter headers. */
  ghost predicate FollowsFrom(cache: seq<Entry>, header: Headers, n: BlockNode)
  {
    && |cache| <= CheckpointCount(n)
    && forall i :: 0 <= i < |cache| ==> cache[i] == EntryFor(CheckpointHashes(n)[i], header)
  }

  ghost predicate OneAncestry(blocks: set<BlockNode>, cache: seq<Entry>, header: Headers)
  {
    cache == [] || exists n :: n in blocks && FollowsFrom(cache, header, n)
  }

  /** Two ancestries that agree at a checkpoint agree at every earlier one. */
  lemma AgreeBefore(blocks: set<BlockNode>, a: BlockNode, b: BlockNode, k: nat)
    requires Universe(blocks) && a in blocks && b in blocks && k < CheckpointCount(a) && k < CheckpointCount(b)
    requires CheckpointHashes(a)[k] == CheckpointHashes(b)[k]
    ensures forall i :: 0 <= i <= k ==> CheckpointHashes(a)[i] == CheckpointHashes(b)[i]
  {
    hide Path, WellBuilt;
    var x, y := Checkpoint(a, k), Checkpoint(b, k);
    var h := CF_CHECKPT_INTERVAL * (k + 1);
    assert WellBuilt(a) && WellBuilt(b);
    assert x in Path(a) && y in Path(b);
    assert x == y;
    PathAt(a, h);
    PathAt(b, h);
    forall i | 0 <= i <= k ensures CheckpointHashes(a)[i] == CheckpointHashes(b)[i]
    {
      assert Path(a)[..h + 1][CF_CHECKPT_INTERVAL * (i + 1)] == Path(b)[..h + 1][CF_CHECKPT_INTERVAL * (i + 1)];
    }
  }

  /** Up to the fork index the cache holds what the query asks for. */
  lemma PrefixAgrees(blocks: set<BlockNode>, cache: seq<Entry>, header: Headers, n: BlockNode)
    requires Universe(blocks) && n in blocks && OneAncestry(blocks, cache, header)
    ensures var hashes := CheckpointHashes(n);
            var f := ForkIndex(Padded(cache, |hashes|), hashes, |hashes|);
            && f <= |cache|
            && forall i :: 0 <= i < f ==> cache[i] == EntryFor(hashes[i], header)
  {
    hide Path, WellBuilt, ForkIndex, Padded, CheckpointHashes;
    var hashes := CheckpointHashes(n);
    var padded := Padded(cache, |hashes|);
    var f := ForkIndex(padded, hashes, |hashes|);
    if f > 0 {
      NonZero(blocks, n, f - 1);
      assert f - 1 < |cache|;
      var c :| c in blocks && FollowsFrom(cache, header, c);
      AgreeBefore(blocks, c, n, f - 1);
    }
  }

  lemma NonZero(blocks: set<BlockNode>, n: BlockNode, i: nat)
    requires Universe(blocks) && n in blocks && i < CheckpointCount(n)
    ensures CheckpointHashes(n)[i] != ZERO_HASH
  {
    hide Path, WellBuilt;
    assert Checkpoint(n, i) in Path(n);
  }

  /** A query whose lookups, from the fork index on, succeed is answered as without the cache; one ancestry stays. */
  lemma ReplyIsDirect(blocks: set<BlockNode>, cache: seq<Entry>, header: Headers, n: BlockNode, good: nat, spare: bool)
    requires Universe(blocks) && n in blocks && OneAncestry(blocks, cache, header)
    requires ForkIndex(Padded(cache, CheckpointCount(n)), CheckpointHashes(n), CheckpointCount(n)) + good
             >= CheckpointCount(n)
    ensures var (cache', reply) := Serve(cache, CheckpointHashes(n), header, good, spare);
            reply == Some(Direct(n, header)) && OneAncestry(blocks, cache', header)
  {
    hide Path, WellBuilt, Universe, ForkIndex, CheckpointHashes, Padded, Overwritten, HeadersOf, OneAncestry;
    PrefixAgrees(blocks, cache, header, n);
    var hashes := CheckpointHashes(n);
    var f := ForkIndex(Padded(cache, |hashes|), hashes, |hashes|);
    FilledIsDirect(cache, hashes, header, f);
    if |hashes| > |cache| {
      FilledFollows(blocks, cache, header, n, f);
    }
  }

  /** The entries up to the fork and those filled in behind it. */
  lemma FilledIsDirect(cache: seq<Entry>, hashes: seq<Hash>, header: Headers, f: nat)
    requires f <= |hashes| && f <= |cache| && forall i :: 0 <= i < f ==> cache[i] == EntryFor(hashes[i], header)
    ensures var padded := Padded(cache, |hashes|);
            var full := Overwritten(padded, hashes, header, f, |hashes| - f, |padded|);
            && (forall i :: 0 <= i < |hashes| ==> full[i] == EntryFor(hashes[i], header))
            && HeadersOf(full[..|hashes|]) == Lookup(hashes, header)
  {
    hide Padded, Overwritten, HeadersOf, Lookup;
  }

  lemma FilledFollows(blocks: set<BlockNode>, cache: seq<Entry>, header: Headers, n: BlockNode, f: nat)
    requires n in blocks && f <= |cache| < CheckpointCount(n)
    requires forall i :: 0 <= i < f ==> cache[i] == EntryFor(CheckpointHashes(n)[i], header)
    ensures var hashes := CheckpointHashes(n);
            var padded := Padded(cache, |hashes|);
            OneAncestry(blocks, Overwritten(padded, hashes, header, f, |hashes| - f, |padded|), header)
  {
    hide Path, CheckpointHashes, Padded, Overwritten;
    var hashes := CheckpointHashes(n);
    FilledIsDirect(cache, hashes, header, f);
    var padded := Padded(cache, |hashes|);
    assert FollowsFrom(Overwritten(padded, hashes, header, f, |hashes| - f, |padded|), header, n);
  }

  /**
    After a failed lookup the cache holds one ancestry exactly when nothing was written over entries that
    outlast it.
  */
  lemma FailedLookupIff(blocks: set<BlockNode>, cache: seq<Entry>, header: Headers, n: BlockNode, good: nat,
          spare: bool)
    requires Universe(blocks) && n in blocks && OneAncestry(blocks, cache, header)
    requires ForkIndex(Padded(cache, CheckpointCount(n)), CheckpointHashes(n), CheckpointCount(n)) + good
             < CheckpointCount(n)
    ensures var f := ForkIndex(Padded(cache, CheckpointCount(n)), CheckpointHashes(n), CheckpointCount(n));
            var (cache', reply) := Serve(cache, CheckpointHashes(n), header, good, spare);
            && reply.None?
            && (OneAncestry(blocks, cache', header) <==>
                !(CheckpointCount(n) > |cache| && spare && good > 0 && f + good < |cache|))
  {
    hide Path, WellBuilt, Universe, ForkIndex, CheckpointHashes, FollowsFrom;
    var hashes := CheckpointHashes(n);
    var f := ForkIndex(Padded(cache, |hashes|), hashes, |hashes|);
    var cache' := Serve(cache, hashes, header, good, spare).0;
    if |hashes| > |cache| && spare {
      if good == 0 {
        assert cache' == cache;
      } else if f + good < |cache| {
        MixedAncestry(blocks, cache, cache', header, n, f, good);
      } else {
        WholeAncestry(blocks, cache, cache', header, n, f, good);
      }
    }
  }

  lemma WholeAncestry(blocks: set<BlockNode>, cache: seq<Entry>, cache': seq<Entry>, header: Headers,
          n: BlockNode, f: nat, good: nat)
    requires Universe(blocks) && n in blocks && OneAncestry(blocks, cache, header) &&
      |cache'| == |cache| < CheckpointCount(n)
    requires f == ForkIndex(Padded(cache, CheckpointCount(n)), CheckpointHashes(n), CheckpointCount(n))
    requires f + good >= |cache| && f + good < CheckpointCount(n)
    requires forall i :: 0 <= i < |cache| ==>
      cache'[i] == if f <= i < f + good then EntryFor(CheckpointHashes(n)[i], header) else cache[i]
    ensures OneAncestry(blocks, cache', header)
  {
    hide Path, WellBuilt, Universe, ForkIndex, CheckpointHashes;
    PrefixAgrees(blocks, cache, header, n);
    assert FollowsFrom(cache', header, n);
  }

  lemma MixedAncestry(blocks: set<BlockNode>, cache: seq<Entry>, cache': seq<Entry>, header: Headers,
          n: BlockNode, f: nat, good: nat)
    requires Universe(blocks) && n in blocks && OneAncestry(blocks, cache, header) &&
      |cache'| == |cache| < CheckpointCount(n)
    requires f == ForkIndex(Padded(cache, CheckpointCount(n)), CheckpointHashes(n), CheckpointCount(n))
    requires good > 0 && f + good < |cache|
    requires forall i :: 0 <= i < |cache| ==>
      cache'[i] == if f <= i < f + good then EntryFor(CheckpointHashes(n)[i], header) else cache[i]
    ensures !OneAncestry(blocks, cache', header)
  {
    hide Path, WellBuilt, Universe, ForkIndex, CheckpointHashes;
    var k := f + good;
    assert Padded(cache, CheckpointCount(n))[k - 1].hash != CheckpointHashes(n)[k - 1];
    var c :| c in blocks && FollowsFrom(cache, header, c);
    forall d | d in blocks && FollowsFrom(cache', header, d) ensures false
    {
      assert cache'[k].hash == CheckpointHashes(d)[k] && cache'[k - 1].hash == CheckpointHashes(d)[k - 1];
      AgreeBefore(blocks, c, d, k);
    }
  }

  /** The cache filled by a query for `c`. */
  function CacheOf(c: BlockNode, header: Headers): (r: seq<Entry>)
    ensures |r| == CheckpointCount(c) && forall i :: 0 <= i < |r| ==> r[i] == EntryFor(CheckpointHashes(c)[i], header)
  {
    seq(CheckpointCount(c), i requires 0 <= i < CheckpointCount(c) => EntryFor(CheckpointHashes(c)[i], header))
  }

  /** That is what a query on the empty cache leaves. */
  lemma FirstQueryFills(blocks: set<BlockNode>, c: BlockNode, header: Headers, spare: bool)
    requires Universe(blocks) && c in blocks
    ensures Serve([], CheckpointHashes(c), header, CheckpointCount(c), spare).0 == CacheOf(c, header)
  {
    hide Path, WellBuilt, Universe, CheckpointHashes, CacheOf, ForkIndex, Padded;
    var hc := CheckpointHashes(c);
    var f := ForkIndex(Padded([], |hc|), hc, |hc|);
    if f > 0 { NonZero(blocks, c, f - 1); }
  }

  /**
    What goes wrong otherwise: the cache was filled for `c`, a longer query for `n`, which forks off at checkpoint `f`,
    fails after one lookup in a slice with room to grow, and the next query for `c` gets a header of `n`.
  */
  lemma MixedCacheMisleads(blocks: set<BlockNode>, c: BlockNode, n: BlockNode, f: nat, header: Headers,
          good: nat, spare: bool)
    requires Universe(blocks) && c in blocks && n in blocks && f + 1 < CheckpointCount(c) < CheckpointCount(n)
    requires forall i :: 0 <= i < f ==> CheckpointHashes(c)[i] == CheckpointHashes(n)[i]
    requires CheckpointHashes(c)[f] != CheckpointHashes(n)[f] &&
      header(CheckpointHashes(c)[f]) != header(CheckpointHashes(n)[f])
    ensures var cache := Serve(CacheOf(c, header), CheckpointHashes(n), header, 1, true).0;
            var reply := Serve(cache, CheckpointHashes(c), header, good, spare).1;
            reply.Some? && reply != Some(Direct(c, header))
  {
    hide Path, WellBuilt, Universe, CheckpointHashes, CacheOf, ForkIndex, Padded, HeadersOf;
    var hc, hn := CheckpointHashes(c), CheckpointHashes(n);
    ForksAt(blocks, c, n, f, header);
    var cache := Serve(CacheOf(c, header), hn, header, 1, true).0;
    assert cache[f].header == header(hn[f]) && cache[|hc| - 1].hash == hc[|hc| - 1];
    WholeMatch(cache, hc);
    var reply := Serve(cache, hc, header, good, spare).1;
    assert reply.value[f] == header(hn[f]);
    assert Direct(c, header)[f] == header(hc[f]);
  }

  lemma ForksAt(blocks: set<BlockNode>, c: BlockNode, n: BlockNode, f: nat, header: Headers)
    requires Universe(blocks) && c in blocks && n in blocks && f < CheckpointCount(c) < CheckpointCount(n)
    requires forall i :: 0 <= i < f ==> CheckpointHashes(c)[i] == CheckpointHashes(n)[i]
    requires CheckpointHashes(c)[f] != CheckpointHashes(n)[f]
    ensures ForkIndex(Padded(CacheOf(c, header), CheckpointCount(n)), CheckpointHashes(n), CheckpointCount(n)) == f
  {
    hide Path, WellBuilt, Universe, CheckpointHashes, CacheOf, ForkIndex, Padded;
    var hn := CheckpointHashes(n);
    var padded := Padded(CacheOf(c, header), |hn|);
    assert f > 0 ==> padded[f - 1].hash == hn[f - 1];
    var k := ForkIndex(padded, hn, |hn|);
    if k > f {
      NonZero(blocks, n, k - 1);
      AgreeBefore(blocks, c, n, k - 1);
    }
  }

  lemma WholeMatch(cache: seq<Entry>, hashes: seq<Hash>)
    requires |cache| == |hashes| > 0 && cache[|hashes| - 1].hash == hashes[|hashes| - 1]
    ensures Padded(cache, |hashes|) == cache && ForkIndex(cache, hashes, |hashes|) == |hashes|
  {
  }

  // ---------------------------------------------------------------------------
  // Runs

  /** Every query is answered as without a cache. */
  ghost predicate AllDirect(cache: seq<Entry>, header: Headers, queries: seq<(BlockNode, bool)>)
    decreases |queries|
  {
    queries == [] ||
    var (n, spare) := queries[0];
    var (cache', reply) := Serve(cache, CheckpointHashes(n), header, CheckpointCount(n), spare);
    reply == Some(Direct(n, header)) && AllDirect(cache', header, queries[1..])
  }

  /** For every sequence of stop blocks, on whatever branches, starting from an empty cache. */
  lemma {:induction false} EveryQueryDirect(blocks: set<BlockNode>, cache: seq<Entry>, header: Headers,
          queries: seq<(BlockNode, bool)>)
    requires Universe(blocks) && OneAncestry(blocks, cache, header)
    requires forall q :: q in queries ==> q.0 in blocks
    ensures AllDirect(cache, header, queries)
    decreases |queries|
  {
    hide Universe, OneAncestry, Serve, Direct, CheckpointHashes, CheckpointCount;
    if queries != [] {
      var (n, spare) := queries[0];
      assert queries[0] in queries;
      ReplyIsDirect(blocks, cache, header, n, CheckpointCount(n), spare);
      EveryQueryDirect(blocks, Serve(cache, CheckpointHashes(n), header, CheckpointCount(n), spare).0, header,
        queries[1..]);
    }
  }

  /** What one of the handlers does while it holds a lock: look whether the cache is long enough, or grow it. */
  datatype Turn = ReadLocked(n: BlockNode) | WriteLocked(n: BlockNode, spare: bool)

  /** The cache a turn leaves and the reply it gives; a query too long for the cache gets none under the read lock. */
  function TakeTurn(cache: seq<Entry>, header: Headers, turn: Turn): (seq<Entry>, Option<Option<seq<Hash>>>)
  {
    var n := turn.n;
    if turn.ReadLocked? && CheckpointCount(n) > |cache| then (cache, None)
    else
      var spare := turn.WriteLocked? && turn.spare;
      var (cache', reply) := Serve(cache, CheckpointHashes(n), header, CheckpointCount(n), spare);
      (cache', Some(reply))
  }

  /** Every reply is the one without a cache, and turns under the read lock leave the cache alone. */
  ghost predicate AllTurnsDirect(cache: seq<Entry>, header: Headers, turns: seq<Turn>)
    decreases |turns|
  {
    turns == [] ||
    var (cache', reply) := TakeTurn(cache, header, turns[0]);
    && (reply.None? || reply.value == Some(Direct(turns[0].n, header)))
    && (turns[0].ReadLocked? ==> cache' == cache)
    && AllTurnsDirect(cache', header, turns[1..])
  }

  /** Handlers may interleave between the two locks as they like. */
  lemma {:induction false} EveryTurnDirect(blocks: set<BlockNode>, cache: seq<Entry>, header: Headers, turns: seq<Turn>)
    requires Universe(blocks) && OneAncestry(blocks, cache, header) && forall t :: t in turns ==> t.n in blocks
    ensures AllTurnsDirect(cache, header, turns)
    decreases |turns|
  {
    hide Universe, OneAncestry, Direct, CheckpointHashes, CheckpointCount, ForkIndex;
    if turns != [] {
      var turn := turns[0];
      assert turn in turns;
      ReplyIsDirect(blocks, cache, header, turn.n, CheckpointCount(turn.n), turn.WriteLocked? && turn.spare);
      EveryTurnDirect(blocks, TakeTurn(cache, header, turn).0, header, turns[1..]);
    }
  }

  /** The index of any reachable chain state is such a universe, as long as no block hashes to zero. */
  lemma IndexIsUniverse(s: ChainState)
    requires TreeOk(s) && forall n :: n in s.status ==> n.block.hash != ZERO_HASH
    ensures Universe(s.status.Keys)
  {
    hide Path, WellBuilt;
    forall n, m | n in s.status && m in Path(n) ensures m in s.status
    {
      PathKnown(s, n);
    }
  }

  // ---------------------------------------------------------------------------
  // The handler

  /** A cached slice: the first `used` slots of a buffer that may have room for more. */
  class CheckpointCache {
    var store: array<Entry>
    var used: nat

    ghost predicate Valid()
      reads this
    {
      used <= store.Length
    }

    ghost function Contents(): seq<Entry>
      reads this, store
      requires Valid()
    {
      store[..used]
    }

    constructor ()
      ensures Valid() && Contents() == [] && fresh(store)
    {
      store := new Entry[0];
      used := 0;
    }

    /** `append` of blank entries: in place if the buffer has room, else in a new buffer with some slack. */
    method Grow(count: nat, slack: nat) returns (grown: array<Entry>)
      requires Valid() && count > used
      modifies store
      ensures grown.Length >= count && grown[..count] == Padded(old(Contents()), count)
      ensures grown == store || fresh(grown)
      ensures grown == store <==> count <= old(store.Length)
      ensures store[..used] == old(store[..used])
    {
      if count <= store.Length {
        for i := used to count
          invariant store[..used] == old(store[..used]) && forall j :: used <= j < i ==> store[j] == BLANK
        {
          store[i] := BLANK;
        }
        assert store[..count] == Padded(old(Contents()), count) by {
          assert forall j :: 0 <= j < used ==> store[j] == store[..used][j];
        }
        return store;
      }
      grown := new Entry[count + slack](_ => BLANK);
      for i := 0 to used
        invariant store[..] == old(store[..]) && grown.Length == count + slack
        invariant forall j :: 0 <= j < count ==> grown[j] == if j < i then store[j] else BLANK
      {
        grown[i] := store[i];
      }
      assert grown[..count] == Padded(old(Contents()), count);
    }

    method FindFork(cache: array<Entry>, hashes: seq<Hash>) returns (forkIdx: nat)
      requires |hashes| <= cache.Length
      ensures forkIdx == ForkIndex(cache[..], hashes, |hashes|) && forkIdx <= |hashes|
    {
      forkIdx := |hashes|;
      while forkIdx > 0
        invariant forkIdx <= |hashes| && ForkIndex(cache[..], hashes, |hashes|) == ForkIndex(cache[..], hashes, forkIdx)
      {
        if cache[forkIdx - 1].hash == hashes[forkIdx - 1] {
          break;
        }
        forkIdx := forkIdx - 1;
      }
    }

    /** The closing loop: add looked up headers to the reply, and to the grown cache if there is one. */
    method Collect(cache: array<Entry>, hashes: seq<Hash>, header: Headers, forkIdx: nat, good: nat, update: bool)
      returns (complete: bool, found: seq<Hash>)
      requires forkIdx <= |hashes| <= cache.Length
      modifies cache
      ensures complete <==> forkIdx + good >= |hashes|
      ensures complete ==> found == Lookup(hashes[forkIdx..], header)
      ensures var j := if complete then |hashes| - forkIdx else good;
              cache[..] ==
                if update then Overwritten(old(cache[..]), hashes, header, forkIdx, j, cache.Length)
                else old(cache[..])
    {
      ghost var before := cache[..];
      found := [];
      for i := 0 to |hashes| - forkIdx
        invariant i <= good && |found| == i && forall j :: 0 <= j < i ==> found[j] == header(hashes[forkIdx + j])
        invariant !update ==> cache[..] == before
        invariant update ==> forall j :: 0 <= j < cache.Length ==>
          cache[j] == if forkIdx <= j < forkIdx + i then EntryFor(hashes[j], header) else before[j]
      {
        if i == good {
          return false, [];
        }
        var hash := hashes[forkIdx + i];
        found := found + [header(hash)];
        if update {
          cache[forkIdx + i] := Entry(hash, header(hash));
        }
      }
      complete := true;
    }

    /** The slice to work on: the cached one, or a grown one if the query is longer. */
    method Open(hashes: seq<Hash>, slack: nat) returns (cache: array<Entry>, update: bool)
      requires Valid()
      modifies store
      ensures update <==> |hashes| > used
      ensures |hashes| <= cache.Length && cache[..|hashes|] == Padded(old(Contents()), |hashes|)[..|hashes|]
      ensures cache == store || fresh(cache)
      ensures cache == store <==> |hashes| <= old(store.Length)
      ensures store[..used] == old(store[..used])
    {
      cache := store;
      update := |hashes| > used;
      if update {
        cache := Grow(|hashes|, slack);
      } else {
        assert Padded(Contents(), |hashes|) == Contents();
      }
    }

    method CachedHeaders(cache: array<Entry>, count: nat) returns (headers: seq<Hash>)
      requires count <= cache.Length
      ensures |headers| == count && forall j :: 0 <= j < count ==> headers[j] == cache[j].header
    {
      headers := [];
      for i := 0 to count
        invariant |headers| == i && forall j :: 0 <= j < i ==> headers[j] == cache[j].header
      {
        headers := headers + [cache[i].header];
      }
    }

    /** The part under the read lock: a reply if the cache is long enough. */
    method UnderReadLock(hashes: seq<Hash>, header: Headers, good: nat) returns (reply: Option<Option<seq<Hash>>>)
      requires Valid()
      ensures reply.None? <==> |hashes| > used
      ensures reply.Some? ==>
        forall spare :: (Contents(), reply.value) == Serve(Contents(), hashes, header, good, spare)
    {
      hide ForkIndex, HeadersOf, Lookup, Padded, Overwritten, Serve;
      if |hashes| > used {
        return None;
      }
      ghost var padded := Padded(Contents(), |hashes|);
      assert padded == Contents();
      ghost var had := store[..];
      assert forall i :: 0 <= i < |hashes| ==> had[i] == padded[i];
      var forkIdx := FindFork(store, hashes);
      ForkIndexSame(had, padded, hashes, |hashes|);
      forall spare { ServeFrom(Contents(), hashes, header, good, spare, forkIdx); }
      var headers := CachedHeaders(store, forkIdx);
      var complete, found := LookUp(hashes, header, forkIdx, good);
      if !complete {
        return Some(None);
      }
      FullReply(padded, hashes, header, forkIdx, headers, found);
      reply := Some(Some(headers + found));
    }

    /** The closing loop when there is no cache to fill. */
    method LookUp(hashes: seq<Hash>, header: Headers, forkIdx: nat, good: nat)
      returns (complete: bool, found: seq<Hash>)
      requires forkIdx <= |hashes|
      ensures complete <==> forkIdx + good >= |hashes|
      ensures complete ==> found == Lookup(hashes[forkIdx..], header)
    {
      found := [];
      for i := 0 to |hashes| - forkIdx
        invariant i <= good && |found| == i && forall j :: 0 <= j < i ==> found[j] == header(hashes[forkIdx + j])
      {
        if i == good {
          return false, [];
        }
        found := found + [header(hashes[forkIdx + i])];
      }
      complete := true;
    }

    /** The part under the write lock, which looks at the length again: another handler may have grown the cache. */
    method UnderWriteLock(hashes: seq<Hash>, header: Headers, good: nat, slack: nat) returns (reply: Option<seq<Hash>>)
      requires Valid()
      modifies this, store
      ensures Valid()
      ensures (Contents(), reply) == Serve(old(Contents()), hashes, header, good, |hashes| <= old(store.Length))
    {
      hide ForkIndex, HeadersOf, Lookup, Padded, Overwritten, Serve;
      ghost var before := Contents();
      ghost var padded := Padded(before, |hashes|);
      var cache, updateCache := Open(hashes, slack);
      ghost var had := cache[..];
      SamePrefix(had, padded, |hashes|);
      var forkIdx := FindFork(cache, hashes);
      ForkIndexSame(had, padded, hashes, |hashes|);
      ServeFrom(before, hashes, header, good, |hashes| <= store.Length, forkIdx);
      var headers := CachedHeaders(cache, forkIdx);
      var complete, found := Collect(cache, hashes, header, forkIdx, good, updateCache);
      ghost var j := if complete then |hashes| - forkIdx else good;
      if updateCache {
        SliceOverwritten(had, padded, hashes, header, forkIdx, j, used);
        SliceOverwritten(had, padded, hashes, header, forkIdx, j, |hashes|);
      }
      if !complete {
        assert store[..used] ==
          if updateCache && cache == store then Overwritten(padded, hashes, header, forkIdx, j, used) else before;
        return None;
      }
      FullReply(padded, hashes, header, forkIdx, headers, found);
      if updateCache {
        store, used := cache, |hashes|;
      }
      reply := Some(headers + found);
    }

    /** `hashes` is what `IntervalBlockHashes` returned; `good` filter headers are found before one is missing. */
    method OnGetCFCheckpt(hashes: seq<Hash>, header: Headers, good: nat, slack: nat) returns (reply: Option<seq<Hash>>)
      requires Valid()
      modifies this, store
      ensures Valid()
      ensures (Contents(), reply) == Serve(old(Contents()), hashes, header, good, |hashes| <= old(store.Length))
    {
      hide Serve;
      var first := UnderReadLock(hashes, header, good);
      if first.Some? {
        return first.value;
      }
      reply := UnderWriteLock(hashes, header, good, slack);
    }
  }

  lemma ServeFrom(cache: seq<Entry>, hashes: seq<Hash>, header: Headers, good: nat, spare: bool, f: nat)
    requires f == ForkIndex(Padded(cache, |hashes|), hashes, |hashes|)
    ensures Serve(cache, hashes, header, good, spare) == ServeAt(cache, hashes, header, good, spare, f)
  {
    hide ForkIndex, Padded, ServeAt;
  }

  lemma SamePrefix(a: seq<Entry>, b: seq<Entry>, k: nat)
    requires k <= |a| && k <= |b| && a[..k] == b[..k]
    ensures forall i :: 0 <= i < k ==> a[i] == b[i]
  {
    assert forall i :: 0 <= i < k ==> a[i] == a[..k][i] && b[i] == b[..k][i];
  }

  /** The cached headers followed by those looked up are the headers of the filled cache. */
  lemma FullReply(padded: seq<Entry>, hashes: seq<Hash>, header: Headers, f: nat, cached: seq<Hash>, found: seq<Hash>)
    requires f <= |hashes| <= |padded| && |cached| == f && forall i :: 0 <= i < f ==> cached[i] == padded[i].header
    requires found == Lookup(hashes[f..], header)
    ensures cached + found == HeadersOf(Overwritten(padded, hashes, header, f, |hashes| - f, |padded|)[..|hashes|])
  {
    hide HeadersOf, Lookup, Overwritten;
  }

  lemma SliceOverwritten(a: seq<Entry>, b: seq<Entry>, hashes: seq<Hash>, header: Headers, f: nat, j: nat, len: nat)
    requires f + j <= |hashes| <= |a| && |hashes| <= |b| && len <= |hashes| && forall i :: 0 <= i < |hashes| ==>
      a[i] == b[i]
    ensures Overwritten(a, hashes, header, f, j, |a|)[..len] == Overwritten(b, hashes, header, f, j, len)
  {
    hide Overwritten;
  }

  lemma {:induction false} ForkIndexSame(a: seq<Entry>, b: seq<Entry>, hashes: seq<Hash>, k: nat)
    requires k <= |hashes| <= |a| && |hashes| <= |b| && forall i :: 0 <= i < |hashes| ==> a[i] == b[i]
    ensures ForkIndex(a, hashes, k) == ForkIndex(b, hashes, k)
  {
    if k > 0 {
      ForkIndexSame(a, b, hashes, k - 1);
    }
  }
}
