/** Every run of address manager operations, with the peers file saved and loaded in between. */
module AddrRuns {
  import opened Base
  import opened AddrBook
  import opened AddrPeers

  datatype AddrOp =
    | Update(na: NetAddr, src: NetAddr, routable: bool, rand: nat, bad: Known -> bool, oldest: Option<Key>)
    | MarkGood(key: Key, now: int)
    | MarkAttempt(key: Key, now: int)
    | MarkConnected(key: Key, now: int, later: int)
    | ChangeServices(key: Key, services: set<nat>)
    | Reopen(file: PeersFile, parse: Key -> Option<Key>, now: int)

  ghost predicate CanDo(b: Book, h: Hashes, op: AddrOp)
    requires Conserved(b)
  {
    match op
    case Update(na, src, routable, rand, bad, oldest) => routable ==> UpdateChoice(b, na, src, rand, h, bad, oldest)
    case Reopen(f, parse, now) => IsSave(b, f) && Readable(b, parse) && f.version <= SERIALISATION_VERSION
    case _ => true
  }

  ghost function Perform(b: Book, h: Hashes, op: AddrOp): Book
    requires Conserved(b)
  {
    match op
    case Update(na, src, routable, rand, bad, oldest) => UpdateAddress(b, na, src, routable, rand, h, bad, oldest)
    case MarkGood(key, now) => Good(b, key, now, h)
    case MarkAttempt(key, now) => Attempt(b, key, now)
    case MarkConnected(key, now, later) => Connected(b, key, now, later)
    case ChangeServices(key, services) => SetServices(b, key, services)
    case Reopen(f, parse, now) =>
      if |f.newBuckets| == NEW_BUCKET_COUNT && |f.triedBuckets| == TRIED_BUCKET_COUNT &&
        LoadPeers(f, parse, now).Some? then
        LoadPeers(f, parse, now).value
      else b
  }

  lemma OpKeeps(b: Book, h: Hashes, op: AddrOp)
    requires Conserved(b) && CanDo(b, h, op)
    ensures Conserved(Perform(b, h, op))
  {
    hide Conserved, UpdateAddress, Good, UpdateChoice, LoadPeers, IsSave, Readable, Reopened;
    match op
    case Update(na, src, routable, rand, bad, oldest) =>
      if routable {
        UpdateKeeps(b, na, src, routable, rand, h, bad, oldest);
      } else {
        NotRoutable(b, na, src, rand, h, bad, oldest);
      }
    case MarkGood(key, now) => GoodKeeps(b, key, now, h);
    case MarkAttempt(key, now) =>
      if key in b.index {
        KeyIs(b, key);
        TouchKeeps(b, key, b.index[key].(attempts := b.index[key].attempts + 1, lastAttempt := now));
      }
    case MarkConnected(key, now, later) =>
      if key in b.index {
        KeyIs(b, key);
        TouchKeeps(b, key, b.index[key].(na := b.index[key].na.(timestamp := later)));
      }
    case ChangeServices(key, services) =>
      if key in b.index {
        KeyIs(b, key);
        TouchKeeps(b, key, b.index[key].(na := b.index[key].na.(services := services)));
      }
    case Reopen(f, parse, now) =>
      SaveLoadRoundTrip(b, f, parse, now);
      ReopenedConserved(f, b, now);
  }

  lemma NotRoutable(b: Book, na: NetAddr, src: NetAddr, rand: nat, h: Hashes, bad: Known -> bool, oldest: Option<Key>)
    requires Conserved(b)
    ensures UpdateAddress(b, na, src, false, rand, h, bad, oldest) == b
  {
  }

  ghost predicate AddrRun(b: Book, h: Hashes, ops: seq<AddrOp>)
    requires Conserved(b)
    decreases |ops|
  {
    ops == [] || (CanDo(b, h, ops[0]) && (OpKeeps(b, h, ops[0]); AddrRun(Perform(b, h, ops[0]), h, ops[1..])))
  }

  ghost function BookAfter(b: Book, h: Hashes, ops: seq<AddrOp>): (r: Book)
    requires Conserved(b) && AddrRun(b, h, ops)
    ensures Conserved(r)
    decreases |ops|
  {
    if ops == [] then b
    else
      OpKeeps(b, h, ops[0]);
      BookAfter(Perform(b, h, ops[0]), h, ops[1..])
  }

  /**
    After every run from conserved tables, such as those of a fresh manager: references count buckets, kinds
    and counters agree, and sizes are bounded.
  */
  lemma EveryRunConserves(start: Book, h: Hashes, ops: seq<AddrOp>, k: Key)
    requires Conserved(start) && AddrRun(start, h, ops)
    ensures var b := BookAfter(start, h, ops);
            && b.nNew == |Untried(b.index)| && b.nTried == |TriedKeys(b.index)|
            && (k in b.index ==>
                  && b.index[k].refs == Holders(b.news, k) <= NEW_BUCKETS_PER_ADDRESS
                  && (b.index[k].tried <==> b.index[k].refs == 0)
                  && Occurs(b.tried, k) == (if b.index[k].tried then 1 else 0))
            && (forall i :: 0 <= i < |b.news| ==> |b.news[i]| <= NEW_BUCKET_SIZE + 1)
            && (forall i :: 0 <= i < |b.tried| ==> |b.tried[i]| <= TRIED_BUCKET_SIZE)
  {
    hide Holders, Occurs;
    assert KeyOk(BookAfter(start, h, ops), k);
  }
}
