/** The stored block index: row keys, their order, and rebuilding the tree from a scan of the rows. */
module IndexStore {
  import opened Base
  import opened BlockNodes
  import opened ChainModel
  import opened ChainInvariants
  import SkipSearch

  // ---------------------------------------------------------------------------
  // Keys

  function Pow256(len: nat): (r: nat)
    ensures r >= 1
  {
    if len == 0 then 1 else 256 * Pow256(len - 1)
  }

  function BigEndian(v: nat, len: nat): (b: seq<Byte>)
    ensures |b| == len
  {
    if len == 0 then [] else BigEndian(v / 256, len - 1) + [v % 256]
  }

  /** Big-endian 32-bit height, then the 32 bytes of the hash. */
  function Key(height: nat, hash: Hash): seq<Byte>
  {
    BigEndian(height, 4) + BigEndian(hash, 32)
  }

  /** Fill `len` bytes of a buffer from an offset, most significant first. */
  method PutBigEndian(buf: array<Byte>, at: nat, v: nat, len: nat)
    requires at + len <= buf.Length
    modifies buf
    ensures buf[..] == old(buf[..at]) + BigEndian(v, len) + old(buf[at + len..])
  {
    var rest := v;
    for i := len downto 0
      invariant buf[..at + i] == old(buf[..at + i]) && buf[at + len..] == old(buf[at + len..])
      invariant BigEndian(rest, i) + buf[at + i..at + len] == BigEndian(v, len)
    {
      ghost var tail := buf[at + i + 1..at + len];
      assert buf[at + (i + 1)..at + len] == tail;
      buf[at + i] := rest % 256;
      assert buf[at + i..at + len] == [rest % 256] + tail;
      assert BigEndian(rest / 256, i) + ([rest % 256] + tail) == BigEndian(rest, i + 1) + tail;
      rest := rest / 256;
    }
    assert buf[..] == buf[..at] + buf[at..at + len] + buf[at + len..];
    assert buf[..at + 0] == buf[..at];
    assert buf[at + 0..at + len] == BigEndian(v, len);
  }

  method BlockIndexKey(hash: Hash, height: nat) returns (key: array<Byte>)
    ensures fresh(key) && key[..] == Key(height, hash)
  {
    key := new Byte[36];
    PutBigEndian(key, 0, height, 4);
    assert key[..4] == BigEndian(height, 4);
    PutBigEndian(key, 4, hash, 32);
  }

  /** Byte order, as a cursor visits keys. */
  predicate Before(a: seq<Byte>, b: seq<Byte>)
  {
    b != [] && (a == [] || a[0] < b[0] || (a[0] == b[0] && Before(a[1..], b[1..])))
  }

  lemma {:induction false} BeforeAppend(x: seq<Byte>, y: seq<Byte>, u: seq<Byte>, v: seq<Byte>)
    requires |x| == |y|
    ensures Before(x + u, y + v) <==> Before(x, y) || (x == y && Before(u, v))
  {
    if x == [] {
      assert x + u == u && y + v == v;
    } else {
      BeforeAppend(x[1..], y[1..], u, v);
      assert (x + u)[1..] == x[1..] + u && (y + v)[1..] == y[1..] + v;
      assert x == y <==> x[0] == y[0] && x[1..] == y[1..] by {
        assert x == [x[0]] + x[1..] && y == [y[0]] + y[1..];
      }
    }
  }

  /** Fixed-width big-endian bytes order and identify numbers. */
  lemma {:induction false} BigEndianOrder(a: nat, b: nat, len: nat)
    requires a < Pow256(len) && b < Pow256(len)
    ensures Before(BigEndian(a, len), BigEndian(b, len)) <==> a < b
    ensures BigEndian(a, len) == BigEndian(b, len) <==> a == b
    decreases len
  {
    if len > 0 {
      var x, y := BigEndian(a / 256, len - 1), BigEndian(b / 256, len - 1);
      BigEndianOrder(a / 256, b / 256, len - 1);
      BeforeAppend(x, y, [a % 256], [b % 256]);
      assert Before([a % 256], [b % 256]) <==> a % 256 < b % 256;
      assert x + [a % 256] == y + [b % 256] <==> x == y && a % 256 == b % 256 by {
        assert (x + [a % 256])[..len - 1] == x && (y + [b % 256])[..len - 1] == y;
        assert (x + [a % 256])[len - 1] == a % 256 && (y + [b % 256])[len - 1] == b % 256;
      }
    }
  }

  /** Key order is height order, and hash order within a height. */
  lemma KeyOrder(h1: nat, x1: Hash, h2: nat, x2: Hash)
    requires h1 < Pow256(4) && h2 < Pow256(4) && x1 < Pow256(32) && x2 < Pow256(32)
    ensures Before(Key(h1, x1), Key(h2, x2)) <==> h1 < h2 || (h1 == h2 && x1 < x2)
    ensures Key(h1, x1) == Key(h2, x2) <==> h1 == h2 && x1 == x2
  {
    hide Before, BigEndian, Pow256;
    BigEndianOrder(h1, h2, 4);
    BigEndianOrder(x1, x2, 32);
    BeforeAppend(BigEndian(h1, 4), BigEndian(h2, 4), BigEndian(x1, 32), BigEndian(x2, 32));
    assert Key(h1, x1)[..4] == BigEndian(h1, 4) && Key(h2, x2)[..4] == BigEndian(h2, 4);
    assert Key(h1, x1)[4..] == BigEndian(x1, 32) && Key(h2, x2)[4..] == BigEndian(x2, 32);
  }

  // ---------------------------------------------------------------------------
  // Rows

  /** A row of the block index bucket; the header stands for the block it identifies. */
  datatype Row = Row(key: seq<Byte>, header: Block, status: Status)

  function RowOf(n: BlockNode, status: Status): Row
  {
    Row(Key(n.height, n.block.hash), n.block, status)
  }

  /** Heights are 32-bit and hashes 256-bit. */
  ghost predicate Fits(s: ChainState)
  {
    forall n :: n in s.status ==> n.height < Pow256(4) && n.block.hash < Pow256(32)
  }

  /** `scan` is what a cursor finds: the rows of these nodes, in key order. */
  ghost predicate ScanOf(rows: map<BlockNode, Status>, order: seq<BlockNode>, scan: seq<Row>)
  {
    && |order| == |scan|
    && (forall n :: n in rows <==> n in order)
    && (forall i :: 0 <= i < |scan| ==> order[i] in rows && scan[i] == RowOf(order[i], rows[order[i]]))
    && (forall i, j :: 0 <= i < j < |scan| ==> Before(scan[i].key, scan[j].key))
  }

  ghost predicate IsScan(rows: map<BlockNode, Status>, scan: seq<Row>)
  {
    exists order :: ScanOf(rows, order, scan)
  }

  // ---------------------------------------------------------------------------
  // Rebuilding the tree

  datatype Loaded = Loaded(index: map<Hash, BlockNode>, status: map<BlockNode, Status>)

  /** The parent of the next row: the node before it, or else the one its header names. */
  function ParentFor(genesis: Hash, index: map<Hash, BlockNode>, last: Option<BlockNode>, header: Block)
    : Option<Option<BlockNode>>
  {
    if last.None? then (if header.hash != genesis then None else Some(None))
    else if header.prev == last.value.block.hash then Some(last)
    else if header.prev in index then Some(Some(index[header.prev]))
    else None
  }

  /** The cursor loop of `initChainState`; no result where it returns an assertion error. */
  function LoadRows(genesis: Hash, done: Loaded, last: Option<BlockNode>, scan: seq<Row>): Option<Loaded>
    decreases |scan|
  {
    if scan == [] then Some(done)
    else
      var row := scan[0];
      match ParentFor(genesis, done.index, last, row.header)
      case None => None
      case Some(parent) =>
        var n := SkipSearch.NewNode(row.header, parent);
        LoadRows(genesis, Loaded(done.index[n.block.hash := n], done.status[n := row.status]), Some(n), scan[1..])
  }

  /** A loaded tree: every node is well built and found by its hash, and its parent was loaded before it. */
  ghost predicate LoadedOk(l: Loaded)
  {
    && (forall h :: h in l.index ==> l.index[h] in l.status && l.index[h].block.hash == h)
    && (forall n {:trigger WellBuilt(n)} :: n in l.status ==> WellBuilt(n))
    && (forall n {:trigger ParentLoaded(l.status, n)} :: n in l.status ==> ParentLoaded(l.status, n))
  }

  ghost predicate ParentLoaded(status: map<BlockNode, Status>, n: BlockNode)
  {
    n.parent.Some? ==> n.parent.value in status
  }

  method LoadIndex(genesis: Hash, scan: seq<Row>) returns (r: Option<Loaded>)
    ensures r == LoadRows(genesis, Loaded(map[], map[]), None, scan)
    ensures r.Some? ==> LoadedOk(r.value)
  {
    hide WellBuilt, SkipSearch.NewNode, Path;
    var done, last := Loaded(map[], map[]), None;
    assert scan[0..] == scan;
    for i := 0 to |scan|
      invariant LoadedOk(done) && (last.Some? ==> last.value in done.status)
      invariant LoadRows(genesis, Loaded(map[], map[]), None, scan) == LoadRows(genesis, done, last, scan[i..])
    {
      var row := scan[i];
      assert scan[i..][0] == row && scan[i..][1..] == scan[i + 1..];
      var parent: Option<BlockNode> := None;
      if last.None? {
        if row.header.hash != genesis {
          return None;
        }
      } else if row.header.prev == last.value.block.hash {
        parent := last;
      } else {
        if row.header.prev !in done.index {
          return None;
        }
        parent := Some(done.index[row.header.prev]);
      }
      assert parent.Some? ==> WellBuilt(parent.value);
      var n := SkipSearch.InitBlockNode(row.header, parent);
      NewNodeFields(row.header, parent);
      AddLoaded(done, n, row.status);
      done := Loaded(done.index[n.block.hash := n], done.status[n := row.status]);
      last := Some(n);
    }
    r := Some(done);
  }

  /** The parent of row `i` is a row before it. */
  ghost predicate ParentScanned(scan: seq<Row>, i: nat)
    requires i < |scan|
  {
    exists j :: 0 <= j < i && scan[j].header.hash == scan[i].header.prev
  }

  ghost function ScannedHashes(scan: seq<Row>): set<Hash>
  {
    set i | 0 <= i < |scan| :: scan[i].header.hash
  }

  lemma {:induction false} LoadsRest(genesis: Hash, done: Loaded, last: BlockNode, scan: seq<Row>)
    requires last.block.hash in done.index
    ensures var r := LoadRows(genesis, done, Some(last), scan);
            && (r.Some? <==>
                  forall i :: 0 <= i < |scan| ==> scan[i].header.prev in done.index || ParentScanned(scan, i))
            && (r.Some? ==> r.value.index.Keys == done.index.Keys + ScannedHashes(scan))
    decreases |scan|
  {
    hide SkipSearch.NewNode;
    if scan != [] {
      var row, rest := scan[0], scan[1..];
      match ParentFor(genesis, done.index, Some(last), row.header) {
        case None => assert !ParentScanned(scan, 0);
        case Some(parent) =>
          var n := SkipSearch.NewNode(row.header, parent);
          NewNodeFields(row.header, parent);
          var done' := Loaded(done.index[n.block.hash := n], done.status[n := row.status]);
          LoadsRest(genesis, done', n, rest);
          RestScanned(scan);
          assert ScannedHashes(scan) == ScannedHashes(rest) + {row.header.hash};
          assert row.header.prev in done.index;
      }
    } else {
      assert ScannedHashes(scan) == {};
    }
  }

  lemma RestScanned(scan: seq<Row>)
    requires scan != []
    ensures forall i :: 0 < i < |scan| ==>
      (ParentScanned(scan, i) <==> scan[i].header.prev == scan[0].header.hash || ParentScanned(scan[1..], i - 1))
  {
    forall i | 0 < i < |scan|
      ensures ParentScanned(scan, i) <==>
              scan[i].header.prev == scan[0].header.hash || ParentScanned(scan[1..], i - 1)
    {
      if ParentScanned(scan[1..], i - 1) {
        var j :| 0 <= j < i - 1 && scan[1..][j].header.hash == scan[1..][i - 1].header.prev;
        assert scan[j + 1].header.hash == scan[i].header.prev;
      }
      if ParentScanned(scan, i) && scan[i].header.prev != scan[0].header.hash {
        var j :| 0 <= j < i && scan[j].header.hash == scan[i].header.prev;
        assert scan[1..][j - 1].header.hash == scan[1..][i - 1].header.prev;
      }
    }
  }

  /** Rows load exactly if the first is that of genesis and each other one names a block scanned before it. */
  lemma LoadsIff(genesis: Hash, scan: seq<Row>)
    ensures var r := LoadRows(genesis, Loaded(map[], map[]), None, scan);
            && (r.Some? <==>
                  scan != [] ==>
                    scan[0].header.hash == genesis && forall i :: 0 < i < |scan| ==> ParentScanned(scan, i))
            && (r.Some? ==> r.value.index.Keys == ScannedHashes(scan))
  {
    hide SkipSearch.NewNode, ParentScanned;
    if scan != [] && scan[0].header.hash == genesis {
      var row, rest := scan[0], scan[1..];
      var n := SkipSearch.NewNode(row.header, None);
      NewNodeFields(row.header, None);
      LoadsRest(genesis, Loaded(map[n.block.hash := n], map[n := row.status]), n, rest);
      RestScanned(scan);
      assert ScannedHashes(scan) == ScannedHashes(rest) + {row.header.hash};
      assert forall i :: 0 <= i < |rest| ==> rest[i] == scan[i + 1];
    }
  }

  lemma NewNodeFields(block: Block, parent: Option<BlockNode>)
    ensures SkipSearch.NewNode(block, parent).block == block && SkipSearch.NewNode(block, parent).parent == parent
  {
  }

  lemma AddLoaded(l: Loaded, n: BlockNode, status: Status)
    requires LoadedOk(l) && WellBuilt(n) && ParentLoaded(l.status, n)
    ensures LoadedOk(Loaded(l.index[n.block.hash := n], l.status[n := status]))
  {
    hide WellBuilt;
    var l' := Loaded(l.index[n.block.hash := n], l.status[n := status]);
    forall m {:trigger ParentLoaded(l'.status, m)} | m in l'.status ensures ParentLoaded(l'.status, m)
    {
      assert m != n ==> ParentLoaded(l.status, m);
    }
  }

  lemma {:induction false} LoadedPath(l: Loaded, n: BlockNode)
    requires LoadedOk(l) && n in l.status
    ensures forall m :: m in Path(n) ==> m in l.status
    decreases n
  {
    hide WellBuilt;
    assert ParentLoaded(l.status, n);
    if n.parent.Some? {
      LoadedPath(l, n.parent.value);
    }
  }

  /** Best chain nodes that lack the valid flag. */
  function Unvalidated(s: ChainState): set<BlockNode>
  {
    set m | m in Best(s) && !KnownValid(StatusOf(s, m))
  }

  /** `initChainState` on an initialized database: only what is stored survives. */
  function Reload(s: ChainState, scan: seq<Row>): Option<ChainState>
  {
    match LoadRows(s.genesis.block.hash, Loaded(map[], map[]), None, scan)
    case None => None
    case Some(l) =>
      if s.saved.hash !in l.index then None
      else
        var tip := l.index[s.saved.hash];
        var s1 := s.(index := l.index, status := l.status, dirty := {}, tip := tip,
                     snapshot := SnapshotOf(tip, s.saved.totalTxns));
        Some(Flush(Restatus(s1, Unvalidated(s1), {Valid}, {})))
  }

  // ---------------------------------------------------------------------------
  // The scan rebuilds the tree

  /** A node's fields are those `initBlockNode` computes from its block and parent. */
  lemma NodeIsNew(n: BlockNode)
    requires WellBuilt(n)
    ensures n == SkipSearch.NewNode(n.block, n.parent)
  {
    hide AncestorHeight, Path;
    if n.parent.Some? {
      var p := n.parent.value;
      AncestorHeightBelow(n.height);
      WalkBackIsPath(p, AncestorHeight(n.height));
      assert SkipSearch.AncestorAt(p, AncestorHeight(n.height)) == Some(WalkBack(p, AncestorHeight(n.height)));
    }
  }

  /** Parents come before their children. */
  lemma ParentFirst(s: ChainState, order: seq<BlockNode>, scan: seq<Row>, i: nat) returns (j: nat)
    requires TreeOk(s) && Fits(s) && s.rows.Keys == s.status.Keys && ScanOf(s.rows, order, scan)
    requires i < |order| && order[i].parent.Some?
    ensures j < i && order[j] == order[i].parent.value
  {
    hide TreeOk, Key, Before, Pow256, Path, WalkBack, AncestorHeight;
    var n, p := order[i], order[i].parent.value;
    ParentKnown(s, n);
    assert p in order;
    j :| 0 <= j < |order| && order[j] == p;
    KeyOrder(n.height, n.block.hash, p.height, p.block.hash);
    assert scan[i].key == Key(n.height, n.block.hash) && scan[j].key == Key(p.height, p.block.hash);
    assert n.height == p.height + 1;
  }

  /** The first row is that of genesis, and no other row is. */
  lemma GenesisFirst(s: ChainState, order: seq<BlockNode>, scan: seq<Row>, i: nat)
    requires TreeOk(s) && Fits(s) && s.rows.Keys == s.status.Keys && ScanOf(s.rows, order, scan) && i < |order|
    ensures order[i].parent.None? <==> i == 0
    ensures order[i].parent.None? ==> order[i] == s.genesis
  {
    hide TreeOk, Key, Before, Pow256, Path, WellBuilt;
    ParentKnown(s, order[i]);
    if order[i].parent.Some? {
      var _ := ParentFirst(s, order, scan, i);
    } else if i > 0 {
      assert Before(scan[0].key, scan[i].key);
      ParentKnown(s, order[0]);
      if order[0].parent.Some? {
        var _ := ParentFirst(s, order, scan, 0);
      } else {
        KeyOrder(s.genesis.height, s.genesis.block.hash, s.genesis.height, s.genesis.block.hash);
      }
    }
  }

  /** The part of the tree that the first rows cover. */
  ghost function Prefix(s: ChainState, order: seq<BlockNode>, i: nat): Loaded
    requires i <= |order| && forall n :: n in order ==> n in s.rows
  {
    Loaded(map h | h in s.index && s.index[h] in order[..i] :: s.index[h], map n | n in order[..i] :: s.rows[n])
  }

  lemma {:induction false} LoadsFrom(s: ChainState, order: seq<BlockNode>, scan: seq<Row>, i: nat)
    requires TreeOk(s) && Fits(s) && s.rows.Keys == s.status.Keys && ScanOf(s.rows, order, scan) && i <= |order|
    ensures LoadRows(s.genesis.block.hash, Prefix(s, order, i), if i == 0 then None else Some(order[i - 1]), scan[i..])
            == Some(Prefix(s, order, |order|))
    decreases |order| - i
  {
    hide TreeOk, Prefix, Before, Path, WellBuilt, SkipSearch.NewNode;
    if i < |order| {
      var n := order[i];
      assert scan[i..][0] == scan[i] && scan[i..][1..] == scan[i + 1..];
      ParentKnown(s, n);
      NodeIsNew(n);
      FindsParent(s, order, scan, i);
      PrefixStep(s, order, i);
      LoadsFrom(s, order, scan, i + 1);
    }
  }

  lemma FindsParent(s: ChainState, order: seq<BlockNode>, scan: seq<Row>, i: nat)
    requires TreeOk(s) && Fits(s) && s.rows.Keys == s.status.Keys && ScanOf(s.rows, order, scan) && i < |order|
    ensures var last := if i == 0 then None else Some(order[i - 1]);
            ParentFor(s.genesis.block.hash, Prefix(s, order, i).index, last, order[i].block)
            == Some(order[i].parent)
  {
    hide TreeOk, Before, Path, Pow256, Key, WalkBack, AncestorHeight;
    var n := order[i];
    ParentKnown(s, n);
    GenesisFirst(s, order, scan, i);
    if i > 0 {
      var j := ParentFirst(s, order, scan, i);
      var p := n.parent.value;
      assert order[..i][j] == p;
      FoundByHash(s, p);
      FoundByHash(s, order[i - 1]);
      assert n.block.prev == p.block.hash;
    }
  }

  lemma PrefixStep(s: ChainState, order: seq<BlockNode>, i: nat)
    requires TreeOk(s) && i < |order| && s.rows.Keys == s.status.Keys && forall n :: n in order ==> n in s.rows
    ensures var l, n := Prefix(s, order, i), order[i];
            Prefix(s, order, i + 1) == Loaded(l.index[n.block.hash := n], l.status[n := s.rows[n]])
  {
    hide TreeOk, Path, WellBuilt;
    var l, l', n := Prefix(s, order, i), Prefix(s, order, i + 1), order[i];
    assert order[..i + 1] == order[..i] + [n];
    FoundByHash(s, n);
    forall h | h in s.index ensures s.index[h].block.hash == h { IndexedKnown(s, h); }
    assert l'.index == l.index[n.block.hash := n];
    assert l'.status == l.status[n := s.rows[n]];
  }

  lemma PrefixEnds(s: ChainState, order: seq<BlockNode>)
    requires TreeOk(s) && s.rows.Keys == s.status.Keys && forall n :: n in s.rows <==> n in order
    ensures Prefix(s, order, 0) == Loaded(map[], map[]) && Prefix(s, order, |order|) == Loaded(s.index, s.rows)
  {
    hide TreeOk, Path, WellBuilt;
    assert order[..|order|] == order;
    forall h | h in s.index ensures s.index[h] in order { IndexedKnown(s, h); }
    assert Prefix(s, order, |order|).index == s.index;
    assert Prefix(s, order, |order|).status == s.rows;
  }

  /** The scan rebuilds the index, node for node, with the stored flags. */
  lemma LoadsTree(s: ChainState, scan: seq<Row>)
    requires TreeOk(s) && Fits(s) && s.rows.Keys == s.status.Keys && IsScan(s.rows, scan)
    ensures LoadRows(s.genesis.block.hash, Loaded(map[], map[]), None, scan) == Some(Loaded(s.index, s.rows))
  {
    hide TreeOk, LoadRows, Fits, Prefix;
    var order :| ScanOf(s.rows, order, scan);
    LoadsFrom(s, order, scan, 0);
    assert scan[0..] == scan;
    PrefixEnds(s, order);
  }

  // ---------------------------------------------------------------------------
  // The state after a restart

  /** What a restart makes of a state: the stored flags, with best chain nodes upgraded to valid. */
  ghost function Restarted(s: ChainState): ChainState
  {
    var status := map n | n in s.rows :: s.rows[n] + if n in Best(s) then {Valid} else {};
    s.(status := status, rows := status, dirty := {})
  }

  lemma ReloadLoads(s: ChainState, scan: seq<Row>)
    requires Steady(s) && Fits(s) && IsScan(s.rows, scan)
    ensures var s1 := s.(status := s.rows, dirty := {});
            Reload(s, scan) == Some(Flush(Restatus(s1, Unvalidated(s1), {Valid}, {})))
  {
    hide Steady, LedgerOk, TreeOk, ValidSound, LoadRows, IsScan, Fits, Flush, Restatus, Unvalidated, SnapshotOf;
    TipFacts(s);
    LoadsTree(s, scan);
    FoundByHash(s, s.tip);
    LedgerTip(s);
    assert s.(index := s.index, status := s.rows, dirty := {}, tip := s.tip, snapshot := s.snapshot) ==
      s.(status := s.rows, dirty := {});
  }

  /** A flush leaves every row equal to the flags in memory. */
  lemma FlushAll(s: ChainState)
    requires StoreOk(s)
    ensures Flush(s) == s.(rows := s.status, dirty := {})
  {
    assert Flush(s).rows.Keys == s.status.Keys;
    assert Flush(s).rows == s.status;
  }

  lemma UpgradedAt(s: ChainState, n: BlockNode)
    requires n in s.rows
    ensures var s1 := s.(status := s.rows, dirty := {});
            Restatus(s1, Unvalidated(s1), {Valid}, {}).status[n] == s.rows[n] + if n in Best(s) then {Valid} else {}
  {
    hide Path, Restatus;
    var s1 := s.(status := s.rows, dirty := {});
    RestatusAt(s1, Unvalidated(s1), {Valid}, {}, n);
  }

  lemma UpgradedFlags(s: ChainState)
    requires TreeOk(s) && s.rows.Keys == s.status.Keys
    ensures var s1 := s.(status := s.rows, dirty := {});
            Flush(Restatus(s1, Unvalidated(s1), {Valid}, {})) == Restarted(s)
  {
    hide Path, TreeOk, Flush, Restatus, KnownValid;
    TreeTip(s);
    PathKnown(s, s.tip);
    var s1 := s.(status := s.rows, dirty := {});
    var s2 := Restatus(s1, Unvalidated(s1), {Valid}, {});
    UpgradedFields(s1, Unvalidated(s1));
    forall n | n in s.rows ensures s2.status[n] == Restarted(s).status[n]
    {
      UpgradedAt(s, n);
    }
    assert s2.status == Restarted(s).status;
    FlushAll(s2);
  }

  lemma UpgradedFields(s: ChainState, ns: set<BlockNode>)
    requires s.dirty == {} && s.rows == s.status && ns <= s.status.Keys
    ensures var s' := Restatus(s, ns, {Valid}, {});
            StoreOk(s') && s'.status.Keys == s.status.Keys && s' == s.(status := s'.status, dirty := ns)
  {
  }

  /** Restarting keeps the tree, the tip and everything derived from the best chain. */
  lemma RestartOutcome(s: ChainState, scan: seq<Row>)
    requires Steady(s) && Fits(s) && IsScan(s.rows, scan)
    ensures Reload(s, scan) == Some(Restarted(s))
  {
    hide LedgerOk, TreeOk, ValidSound, IsScan, Fits, Reload, Flush, Restatus, Unvalidated, Restarted;
    ReloadLoads(s, scan);
    UpgradedFlags(s);
  }

  lemma LedgerTip(s: ChainState)
    requires LedgerOk(s)
    ensures s.saved.hash == s.tip.block.hash && s.snapshot == SnapshotOf(s.tip, s.saved.totalTxns)
  {
  }

  /** After a flush a restart changes nothing at all. */
  lemma ReloadRoundTrip(s: ChainState, scan: seq<Row>)
    requires Inv(s) && s.dirty == {} && Fits(s) && IsScan(s.rows, scan)
    ensures Reload(s, scan) == Some(s)
  {
    hide Path, WellBuilt, LoadRows, IsScan, Fits, LedgerOk, TreeOk, ValidSound, Reload;
    TipFacts(s);
    RestartOutcome(s, scan);
    assert s.rows == s.status;
    forall n | n in s.rows ensures Restarted(s).status[n] == s.status[n]
    {
      if n in Best(s) {
        assert KnownValid(StatusOf(s, n));
      }
    }
    assert Restarted(s).status == s.status;
  }
}
