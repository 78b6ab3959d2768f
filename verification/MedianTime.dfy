/** Median time past, and why it never runs backwards. */
module MedianTime {
  import opened Base
  import opened BlockNodes

  const MEDIAN_TIME_BLOCKS := 11

  /** Timestamps of up to `count` nodes, newest first. */
  function Window(n: Option<BlockNode>, count: nat): (w: seq<int>)
    decreases n, count
    ensures |w| <= count && (count > 0 && n.Some? ==> |w| > 0)
  {
    if n.None? || count == 0 then []
    else [n.value.block.timestamp] + Window(n.value.parent, count - 1)
  }

  predicate Ascending(s: seq<int>)
  {
    forall i, j :: 0 <= i < j < |s| ==> s[i] <= s[j]
  }

  function Insert(x: int, s: seq<int>): (r: seq<int>)
    requires Ascending(s)
    ensures Ascending(r) && |r| == |s| + 1 && multiset(r) == multiset(s) + multiset{x}
    ensures r[0] == x || (s != [] && r[0] == s[0])
  {
    if s == [] || x <= s[0] then AscendingFrom(x, s); [x] + s
    else
      var rest := Insert(x, s[1..]);
      assert s == [s[0]] + s[1..];
      AscendingFrom(s[0], rest);
      [s[0]] + rest
  }

  lemma AscendingFrom(x: int, s: seq<int>)
    requires Ascending(s) && (s != [] ==> x <= s[0])
    ensures Ascending([x] + s)
  {
  }

  /** What `sort.Sort` leaves: the same timestamps in ascending order. */
  function Sorted(s: seq<int>): (r: seq<int>)
    ensures Ascending(r) && |r| == |s| && multiset(r) == multiset(s)
  {
    if s == [] then []
    else
      assert s == [s[0]] + s[1..];
      Insert(s[0], Sorted(s[1..]))
  }

  /** The median time past of a node. */
  function PastMedian(n: BlockNode): (v: int)
  {
    var w := Window(Some(n), MEDIAN_TIME_BLOCKS);
    Sorted(w)[|w| / 2]
  }

  lemma {:induction false} WindowOf(n: BlockNode, count: nat)
    ensures var w := Window(Some(n), count);
            && |w| == (if count < |Path(n)| then count else |Path(n)|)
            && forall i :: 0 <= i < |w| ==> w[i] == Path(n)[|Path(n)| - 1 - i].block.timestamp
    decreases n
  {
    if count > 0 && n.parent.Some? {
      WindowOf(n.parent.value, count - 1);
    }
  }

  /** The window: the last eleven blocks of the chain, or all of a shorter one, newest first. */
  lemma WindowIsLastEleven(n: BlockNode)
    requires WellBuilt(n)
    ensures var w := Window(Some(n), MEDIAN_TIME_BLOCKS);
            && |w| == (if n.height + 1 < 11 then n.height + 1 else 11) && |Path(n)| == n.height + 1
            && forall i :: 0 <= i < |w| ==> w[i] == Path(n)[n.height - i].block.timestamp
  {
    hide Window, WellBuilt, Path;
    PathLength(n);
    WindowOf(n, MEDIAN_TIME_BLOCKS);
  }

  /** How many entries are below `v`. */
  function CountBelow(s: seq<int>, v: int): (c: nat)
    ensures c <= |s|
  {
    if s == [] then 0 else (if s[0] < v then 1 else 0) + CountBelow(s[1..], v)
  }

  lemma {:induction false} CountBelowInsert(x: int, s: seq<int>, v: int)
    requires Ascending(s)
    ensures CountBelow(Insert(x, s), v) == CountBelow(s, v) + (if x < v then 1 else 0)
    decreases |s|
  {
    if s != [] && x > s[0] {
      CountBelowInsert(x, s[1..], v);
      assert Insert(x, s)[1..] == Insert(x, s[1..]);
    } else {
      assert ([x] + s)[1..] == s;
    }
  }

  lemma {:induction false} CountBelowSorted(s: seq<int>, v: int)
    ensures CountBelow(Sorted(s), v) == CountBelow(s, v)
    decreases |s|
  {
    if s != [] {
      CountBelowSorted(s[1..], v);
      CountBelowInsert(s[0], Sorted(s[1..]), v);
    }
  }

  /** In an ascending sequence, position is a count. */
  lemma {:induction false} RankOfPosition(s: seq<int>, k: nat, v: int)
    requires Ascending(s) && k < |s|
    ensures s[k] >= v <==> CountBelow(s, v) <= k
    decreases |s|
  {
    if k > 0 {
      RankOfPosition(s[1..], k - 1, v);
    } else if s[0] >= v {
      NoneBelow(s, v);
    }
  }

  lemma {:induction false} NoneBelow(s: seq<int>, v: int)
    requires forall i :: 0 <= i < |s| ==> s[i] >= v
    ensures CountBelow(s, v) == 0
  {
    if s != [] {
      NoneBelow(s[1..], v);
    }
  }

  /** The median, without sorting: `v` is the median exactly when it splits the window at its middle. */
  lemma MedianByRank(n: BlockNode, v: int)
    ensures var w := Window(Some(n), MEDIAN_TIME_BLOCKS);
            PastMedian(n) == v <==> CountBelow(w, v) <= |w| / 2 < CountBelow(w, v + 1)
    ensures var w := Window(Some(n), MEDIAN_TIME_BLOCKS);
            PastMedian(n) >= v <==> CountBelow(w, v) <= |w| / 2
  {
    var w := Window(Some(n), MEDIAN_TIME_BLOCKS);
    CountBelowSorted(w, v);
    CountBelowSorted(w, v + 1);
    RankOfPosition(Sorted(w), |w| / 2, v);
    RankOfPosition(Sorted(w), |w| / 2, v + 1);
  }

  /** A shorter window of the same node is a prefix: it is no longer and holds no more small entries. */
  lemma {:induction false} ShorterWindow(n: Option<BlockNode>, count: nat, v: int)
    ensures CountBelow(Window(n, count), v) <= CountBelow(Window(n, count + 1), v)
    ensures |Window(n, count + 1)| <= |Window(n, count)| + 1
    decreases n, count
  {
    if n.Some? && count > 0 {
      ShorterWindow(n.value.parent, count - 1, v);
    }
  }

  /** A block later than its parent's median cannot pull the median back. */
  lemma ChildMedian(n: BlockNode)
    requires n.parent.Some? && n.block.timestamp > PastMedian(n.parent.value)
    ensures PastMedian(n) >= PastMedian(n.parent.value)
  {
    var p := n.parent.value;
    var v := PastMedian(p);
    MedianByRank(p, v);
    ShorterWindow(Some(p), MEDIAN_TIME_BLOCKS - 1, v);
    assert Window(Some(n), MEDIAN_TIME_BLOCKS)[1..] == Window(Some(p), MEDIAN_TIME_BLOCKS - 1);
    MedianByRank(n, v);
  }

  /** The contextual header rule, along a whole chain. */
  ghost predicate AfterParentMedians(n: BlockNode)
    decreases n
  {
    match n.parent
    case None => true
    case Some(p) => n.block.timestamp > PastMedian(p) && AfterParentMedians(p)
  }

  /** Median time past never decreases along a chain that keeps the header rule. */
  lemma {:induction false} MedianNeverDecreases(m: BlockNode, n: BlockNode)
    requires AfterParentMedians(n) && OnPath(m, n)
    ensures PastMedian(m) <= PastMedian(n)
    decreases n
  {
    if m != n {
      MedianNeverDecreases(m, n.parent.value);
      ChildMedian(n);
    }
  }

  /** The collecting loop of `CalcPastMedianTime`. */
  method CollectTimestamps(node: BlockNode, limit: nat) returns (timestamps: seq<int>)
    ensures timestamps == Window(Some(node), limit)
  {
    timestamps := [];
    var iter: Option<BlockNode> := Some(node);
    var i := 0;
    while i < limit && iter.Some?
      invariant 0 <= i <= limit
      invariant Window(Some(node), limit) == timestamps + Window(iter, limit - i)
    {
      timestamps := timestamps + [iter.value.block.timestamp];
      iter := iter.value.parent;
      i := i + 1;
    }
  }

  method CalcPastMedianTime(node: BlockNode) returns (median: int)
    ensures median == PastMedian(node)
  {
    var timestamps := CollectTimestamps(node, MEDIAN_TIME_BLOCKS);
    var ordered := Sorted(timestamps);
    median := ordered[|timestamps| / 2];
  }
}
