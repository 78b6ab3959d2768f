/**
  The skip-pointer search of blockindex.go: it finds the node the parent walk finds,
  and it needs a number of iterations quadratic in the bit length of the height.
*/
module SkipSearch {
  import opened Base
  import opened BlockNodes

  /** The simple form: the node of the parent path at a height, if there is one. */
  function AncestorAt(n: BlockNode, height: int): (r: Option<BlockNode>)
  {
    if 0 <= height < |Path(n)| then Some(Path(n)[height]) else None
  }

  /** The height the search moves to from height `h` when looking for `target`. */
  function NextHop(h: nat, target: nat): (r: nat)
    requires target < h
    ensures target <= r < h
  {
    AncestorHeightBelow(h);
    if AncestorHeight(h) >= target then AncestorHeight(h) else h - 1
  }

  /** Iterations the search makes from height `h` down to `target`. */
  function Hops(h: nat, target: nat): nat
    requires target <= h
    decreases h
  {
    if h == target then 0 else 1 + Hops(NextHop(h, target), target)
  }

  /** Both pointers of a node above genesis lead to nodes of the same parent path. */
  lemma HopStaysOnPath(n: BlockNode, node: BlockNode)
    requires WellBuilt(node) && OnPath(n, node) && n.height > 0
    ensures WellBuilt(n) && n.parent.Some? && n.ancestor.Some?
    ensures OnPath(n.parent.value, node) && n.parent.value.height == n.height - 1
    ensures OnPath(n.ancestor.value, node) && n.ancestor.value.height == AncestorHeight(n.height)
  {
    hide AncestorHeight;
    OnPathByHeight(n, node);
    PathAt(node, n.height);
    var p := n.parent.value;
    ParentInPath(n);
    OnPathTransitive(p, n, node);
    AncestorHeightBelow(n.height);
    SkipOnParentPath(p, AncestorHeight(n.height));
    OnPathTransitive(n.ancestor.value, p, node);
  }

  lemma SkipOnParentPath(p: BlockNode, height: nat)
    requires WellBuilt(p) && height <= p.height
    ensures OnPath(WalkBack(p, height), p) && WalkBack(p, height).height == height
  {
    WalkBackIsPath(p, height);
    PathAt(p, height);
  }

  /** The search loop of `Ancestor`. */
  method Ancestor(node: BlockNode, height: int) returns (r: Option<BlockNode>, ghost iterations: nat)
    requires WellBuilt(node)
    ensures r == AncestorAt(node, height)
    ensures r.None? <==> height < 0 || height > node.height
    ensures r.Some? ==> r.value.height == height && iterations == Hops(node.height, height)
  {
    iterations := 0;
    if height < 0 || height > node.height {
      PathFacts(node);
      return None, 0;
    }
    var n := node;
    while n.height != height
      invariant height <= n.height && OnPath(n, node)
      invariant iterations + Hops(n.height, height) == Hops(node.height, height)
      decreases n.height
    {
      HopStaysOnPath(n, node);
      AncestorHeightBelow(n.height);
      iterations := iterations + 1;
      if n.ancestor.Some? && AncestorHeight(n.height) >= height {
        n := n.ancestor.value;
      } else {
        n := n.parent.value;
      }
    }
    OnPathByHeight(n, node);
    r := Some(n);
  }

  /** The node `initBlockNode` fills in, with the skip pointer given by the parent walk. */
  function NewNode(block: Block, parent: Option<BlockNode>): (n: BlockNode)
  {
    match parent
    case None => BlockNode(block, 0, block.work, None, None)
    case Some(p) =>
      BlockNode(block, p.height + 1, p.work + block.work, parent, AncestorAt(p, AncestorHeight(p.height + 1)))
  }

  /** `initBlockNode` with `buildAncestor`: it keeps the tree well built. */
  method InitBlockNode(block: Block, parent: Option<BlockNode>) returns (n: BlockNode)
    requires parent.Some? ==> WellBuilt(parent.value) && block.prev == parent.value.block.hash
    ensures n == NewNode(block, parent) && WellBuilt(n)
    ensures parent.Some? ==> n.ancestor.Some? && OnPath(n.ancestor.value, parent.value)
  {
    match parent
    case None =>
      n := BlockNode(block, 0, block.work, None, None);
    case Some(p) =>
      PathFacts(p);
      AncestorHeightBelow(p.height + 1);
      WalkBackIsPath(p, AncestorHeight(p.height + 1));
      var skip, _ := Ancestor(p, AncestorHeight(p.height + 1));
      n := BlockNode(block, p.height + 1, p.work + block.work, parent, skip);
  }

  lemma NewNodeWellBuilt(block: Block, parent: BlockNode)
    requires WellBuilt(parent) && block.prev == parent.block.hash
    ensures WellBuilt(NewNode(block, Some(parent)))
    ensures Path(NewNode(block, Some(parent))) == Path(parent) + [NewNode(block, Some(parent))]
  {
    AncestorHeightBelow(parent.height + 1);
    WalkBackIsPath(parent, AncestorHeight(parent.height + 1));
  }

  /** `IsAncestor`: a proper ancestor, never the node itself. */
  method IsAncestor(node: BlockNode, other: BlockNode) returns (r: bool)
    requires WellBuilt(node)
    ensures r <==> other != node && OnPath(other, node)
  {
    OnPathByHeight(other, node);
    OnPathByHeight(node, node);
    var a, _ := Ancestor(node, other.height);
    if a.None? {
      return false;
    }
    if node.height == a.value.height {
      return false;
    }
    r := a.value == other;
  }

  // ---------------------------------------------------------------------------
  // How many iterations

  function Pow2(k: nat): (r: nat)
    ensures r >= 1
  {
    if k == 0 then 1 else 2 * Pow2(k - 1)
  }

  lemma InvertOdd(m: nat)
    ensures InvertLowestOne(2 * m + 1) == 2 * m
  {
    AndSelf(m);
  }

  lemma {:induction false} AndSelf(m: nat)
    ensures BitAnd(m, m) == m
  {
    if m != 0 {
      AndSelf(m / 2);
    }
  }

  lemma InvertEven(m: nat)
    ensures InvertLowestOne(2 * m) == 2 * InvertLowestOne(m)
  {
    if m > 0 {
      assert (2 * m) % 2 == 0 && (2 * m - 1) / 2 == m - 1 && (2 * m) / 2 == m;
    }
  }

  /** `base` is a multiple of `2^k`. */
  predicate LowZeros(base: nat, k: nat)
  {
    k == 0 || (base % 2 == 0 && LowZeros(base / 2, k - 1))
  }

  lemma {:induction false} LowZerosLess(base: nat, k: nat)
    requires k > 0 && LowZeros(base, k)
    ensures LowZeros(base, k - 1) && LowZeros(base + Pow2(k - 1), k - 1)
    decreases k
  {
    if k > 1 {
      LowZerosLess(base / 2, k - 1);
    }
  }

  /** The low `k` bits lose their lowest one; the bits above are untouched. */
  lemma {:induction false} InvertLow(base: nat, k: nat, a: nat)
    requires LowZeros(base, k) && 0 < a < Pow2(k)
    ensures InvertLowestOne(base + a) == base + InvertLowestOne(a)
    decreases k
  {
    hide BitAnd, InvertLowestOne;
    if a % 2 == 1 {
      InvertOdd(base / 2 + a / 2);
      InvertOdd(a / 2);
    } else {
      InvertEven(base / 2 + a / 2);
      InvertEven(a / 2);
      InvertLow(base / 2, k - 1, a / 2);
    }
  }

  lemma {:induction false} PowMonotone(j: nat, i: nat)
    requires j <= i
    ensures Pow2(j) <= Pow2(i)
    decreases i
  {
    if j < i {
      PowMonotone(j, i - 1);
    }
  }

  /** The number whose ones are bits `j .. i-1`. */
  function Ones(i: nat, j: nat): nat
    requires j <= i
  {
    PowMonotone(j, i);
    Pow2(i) - Pow2(j)
  }

  lemma {:induction false} InvertOnes(i: nat, j: nat)
    requires j < i
    ensures InvertLowestOne(Ones(i, j)) == Ones(i, j + 1)
    decreases j
  {
    hide BitAnd, InvertLowestOne;
    if j == 0 {
      InvertOdd(Pow2(i - 1) - 1);
    } else {
      InvertOnes(i - 1, j - 1);
      InvertEven(Ones(i - 1, j - 1));
    }
  }

  /** A power of two has no lower bits to give up. */
  lemma InvertTop(base: nat, k: nat)
    requires k > 0 && LowZeros(base, k)
    ensures InvertLowestOne(base + Pow2(k - 1)) == base
  {
    hide BitAnd, InvertLowestOne;
    InvertOnes(k, k - 1);
    InvertLow(base, k, Pow2(k - 1));
  }

  lemma InvertOnesAbove(base: nat, i: nat, j: nat)
    requires j < i && LowZeros(base, i)
    ensures InvertLowestOne(base + Ones(i, j)) == base + Ones(i, j + 1)
  {
    hide BitAnd, InvertLowestOne, LowZeros;
    PowMonotone(j + 1, i);
    InvertLow(base, i, Ones(i, j));
    InvertOnes(i, j);
  }

  /** The skip at `base` plus ones drops two of the ones, or falls below `base`. */
  lemma SkipOnes(base: nat, i: nat, j: nat)
    requires j < i && LowZeros(base, i)
    ensures j + 2 <= i ==> AncestorHeight(base + Ones(i, j)) == base + Ones(i, j + 2)
    ensures j + 1 == i ==> AncestorHeight(base + Ones(i, j)) == InvertLowestOne(base)
  {
    hide InvertLowestOne, LowZeros, Pow2;
    InvertOnesAbove(base, i, j);
    if j + 2 <= i {
      InvertOnesAbove(base, i, j + 1);
    } else {
      assert Ones(i, j + 1) == 0;
    }
  }

  /** Hops from `base + 2^i - 1` to `base - 1` when no skip may pass `base`. */
  function CrossCost(i: nat): nat
  {
    if i % 2 == 0 then i / 2 + 1 else i + 1
  }

  lemma {:induction false} CrossEven(base: nat, i: nat, j: nat, t: nat)
    requires j <= i && (i - j) % 2 == 0 && LowZeros(base, i)
    requires InvertLowestOne(base) < t < base
    ensures Hops(base + Ones(i, j), t) == (i - j) / 2 + 1 + Hops(base - 1, t)
    decreases i - j
  {
    hide InvertLowestOne, LowZeros, Pow2;
    if j == i {
      InvertBelow(InvertLowestOne(base));
    } else {
      SkipOnes(base, i, j);
      PowMonotone(j + 2, i);
      CrossEven(base, i, j + 2, t);
    }
  }

  lemma {:induction false} CrossOdd(base: nat, i: nat, j: nat, t: nat)
    requires j < i && (i - j) % 2 == 1 && LowZeros(base, i)
    requires InvertLowestOne(base) < t < base
    ensures Hops(base + Ones(i, j), t) == (i - j - 1) / 2 + 1 + Hops(base + Ones(i - 1, 0), t)
    decreases i - j
  {
    hide InvertLowestOne, AncestorHeight, LowZeros;
    SkipOnes(base, i, j);
    if j + 1 < i {
      PowMonotone(j + 2, i);
      CrossOdd(base, i, j + 2, t);
    }
  }

  lemma CrossFull(base: nat, i: nat, t: nat)
    requires LowZeros(base, i) && InvertLowestOne(base) < t < base
    ensures Hops(base + Ones(i, 0), t) == CrossCost(i) + Hops(base - 1, t)
  {
    hide InvertLowestOne, AncestorHeight, LowZeros, Hops, Pow2;
    if i % 2 == 0 {
      CrossEven(base, i, 0, t);
    } else {
      LowZerosLess(base, i);
      CrossOdd(base, i, 0, t);
      CrossEven(base, i - 1, 0, t);
    }
  }

  /** Reaching `base` itself from the ones above it. */
  lemma {:induction false} LandEven(base: nat, k: nat, j: nat)
    requires j <= k && (k - j) % 2 == 0 && LowZeros(base, k)
    ensures Hops(base + Ones(k, j), base) == (k - j) / 2
    decreases k - j
  {
    hide InvertLowestOne, AncestorHeight, LowZeros;
    if j < k {
      SkipOnes(base, k, j);
      PowMonotone(j + 2, k);
      LandEven(base, k, j + 2);
    }
  }

  lemma {:induction false} LandOdd(base: nat, k: nat, j: nat)
    requires j < k && (k - j) % 2 == 1 && k % 2 == 1 && LowZeros(base, k)
    ensures Hops(base + Ones(k, j), base) <= (k - j - 1) / 2 + 1 + (k - 1) / 2
    decreases k - j
  {
    hide InvertLowestOne, AncestorHeight, LowZeros;
    SkipOnes(base, k, j);
    if j + 1 < k {
      PowMonotone(j + 2, k);
      LandOdd(base, k, j + 2);
    } else {
      InvertBelow(base);
      LowZerosLess(base, k);
      LandEven(base, k - 1, 0);
    }
  }

  /** The most hops any target needs from `2^k`. */
  function WorstHops(k: nat): (r: nat)
    ensures r >= k
  {
    if k == 0 then 0 else WorstHops(k - 1) + CrossCost(k - 1)
  }

  /** From a block of `k` ones, any target inside the block. */
  lemma {:induction false} FromOnes(base: nat, k: nat, t: nat)
    requires LowZeros(base, k) && base <= t < base + Pow2(k)
    ensures Hops(base + Pow2(k) - 1, t) <= WorstHops(k)
    ensures t > base ==> Hops(base + Pow2(k) - 1, t) <= WorstHops(k) - 1
    decreases k
  {
    hide InvertLowestOne, AncestorHeight, LowZeros;
    if k > 0 {
      var mid := base + Pow2(k - 1);
      LowZerosLess(base, k);
      if t == base {
        if k % 2 == 0 { LandEven(base, k, 0); } else { LandOdd(base, k, 0); }
      } else if t >= mid {
        FromOnes(mid, k - 1, t);
      } else {
        InvertTop(base, k);
        CrossFull(mid, k - 1, t);
        FromOnes(base, k - 1, t);
      }
    }
  }

  lemma {:induction false} LowZerosOfZero(k: nat)
    ensures LowZeros(0, k)
  {
    if k > 0 {
      LowZerosOfZero(k - 1);
    }
  }

  /** At a power of two the skip leads to genesis, so any other target costs one parent step. */
  lemma StepOffPower(k: nat, t: nat)
    requires t < Pow2(k)
    ensures t == 0 ==> Hops(Pow2(k), t) == 1
    ensures t > 0 ==> Hops(Pow2(k), t) == 1 + Hops(Pow2(k) - 1, t)
  {
    hide InvertLowestOne, LowZeros;
    LowZerosOfZero(k + 1);
    InvertTop(0, k + 1);
    InvertBelow(0);
    assert AncestorHeight(Pow2(k)) == 0;
    if t == 0 {
      assert NextHop(Pow2(k), t) == 0;
    }
  }

  /** No target needs more than `WorstHops(k)` iterations from height `2^k`. */
  lemma HopsFromPower(k: nat, t: nat)
    requires 0 < k && t <= Pow2(k)
    ensures Hops(Pow2(k), t) <= WorstHops(k)
  {
    hide AncestorHeight, LowZeros;
    if t < Pow2(k) {
      StepOffPower(k, t);
      LowZerosOfZero(k);
      FromOnes(0, k, t);
    }
  }

  /** The bound is met: the target at height one needs that many. */
  lemma {:induction false} HopsToOne(k: nat)
    requires k > 0
    ensures Hops(Pow2(k) - 1, 1) == WorstHops(k) - 1
    ensures Hops(Pow2(k), 1) == WorstHops(k)
    decreases k
  {
    hide InvertLowestOne, AncestorHeight, LowZeros;
    StepOffPower(k, 1);
    if k > 1 {
      HopsToOne(k - 1);
      LowZerosOfZero(k);
      InvertTop(0, k);
      LowZerosLess(0, k);
      CrossFull(Pow2(k - 1), k - 1, 1);
    }
  }

  function OnesCount(n: nat): nat
  {
    if n == 0 then 0 else n % 2 + OnesCount(n / 2)
  }

  lemma {:induction false} OnesCountBelow(n: nat, k: nat)
    requires n < Pow2(k)
    ensures OnesCount(n) <= k
    decreases k
  {
    if n > 0 {
      OnesCountBelow(n / 2, k - 1);
    }
  }

  lemma OnesDouble(h: nat)
    ensures OnesCount(2 * h) == OnesCount(h) && OnesCount(2 * h + 1) == OnesCount(h) + 1
  {
    assert (2 * h) / 2 == h && (2 * h + 1) / 2 == h;
  }

  lemma {:induction false} InvertDropsOne(n: nat)
    requires n > 0
    ensures OnesCount(InvertLowestOne(n)) == OnesCount(n) - 1
    decreases n
  {
    hide BitAnd, InvertLowestOne, OnesCount;
    var h := n / 2;
    OnesDouble(h);
    if n % 2 == 1 {
      InvertOdd(h);
    } else {
      InvertDropsOne(h);
      InvertEven(h);
      OnesDouble(InvertLowestOne(h));
    }
  }

  /** A number that loses its lowest one and is then zero is a power of two. */
  lemma {:induction false} SingleOne(n: nat, k: nat) returns (i: nat)
    requires 0 < n < Pow2(k) && InvertLowestOne(n) == 0
    ensures i < k && n == Pow2(i)
    decreases n
  {
    hide BitAnd, InvertLowestOne;
    if n % 2 == 1 {
      InvertOdd(n / 2);
      i := 0;
    } else {
      InvertEven(n / 2);
      i := SingleOne(n / 2, k - 1);
      i := i + 1;
    }
  }

  lemma {:induction false} LowZerosPrefix(base: nat, k: nat, i: nat)
    requires i <= k && LowZeros(base, k)
    ensures LowZeros(base, i)
    decreases k - i
  {
    if i < k {
      LowZerosLess(base, k);
      LowZerosPrefix(base, k - 1, i);
    }
  }

  /** The last hops of a crossing: at `base`, or one power of two above it. */
  lemma CrossLast(base: nat, k: nat, a: nat, t: nat)
    requires LowZeros(base, k) && a < Pow2(k) && InvertLowestOne(base) <= t < base
    requires InvertLowestOne(a) == 0
    ensures Hops(base + a, t) <= k + 2 + Hops(base - 1, t)
  {
    hide InvertLowestOne, LowZeros;
    InvertBelow(InvertLowestOne(base));
    if a > 0 {
      InvertLow(base, k, a);
      assert AncestorHeight(base + a) == InvertLowestOne(base);
      if InvertLowestOne(base) < t {
        var i := SingleOne(a, k);
        LowZerosPrefix(base, k, i);
        CrossFull(base, i, t);
        assert base + a - 1 == base + Ones(i, 0);
      } else {
        assert NextHop(base + a, t) == t;
        assert Hops(base + a, t) == 1 + Hops(t, t);
      }
    }
  }

  /** From any height above `base` down past `base`. */
  lemma {:induction false} CrossAny(base: nat, k: nat, a: nat, t: nat)
    requires LowZeros(base, k) && a < Pow2(k) && InvertLowestOne(base) <= t < base
    ensures Hops(base + a, t) <= OnesCount(a) / 2 + k + 2 + Hops(base - 1, t)
    decreases a
  {
    hide InvertLowestOne, LowZeros, OnesCount, Pow2;
    var b := InvertLowestOne(a);
    if b == 0 {
      CrossLast(base, k, a, t);
    } else {
      var c := InvertLowestOne(b);
      InvertBelow(a);
      InvertBelow(b);
      InvertLow(base, k, a);
      InvertLow(base, k, b);
      InvertDropsOne(a);
      InvertDropsOne(b);
      CrossAny(base, k, c, t);
      assert AncestorHeight(base + a) == base + c;
      assert Hops(base + a, t) == 1 + Hops(base + c, t);
    }
  }

  lemma {:induction false} FromAny(base: nat, k: nat, a: nat, t: nat)
    requires LowZeros(base, k) && a < Pow2(k) && base <= t <= base + a
    ensures Hops(base + a, t) <= WorstHops(k) + 2 * k + 2
    decreases k
  {
    hide InvertLowestOne, AncestorHeight, LowZeros, OnesCount;
    if k > 0 {
      var half := Pow2(k - 1);
      LowZerosLess(base, k);
      if a < half {
        FromAny(base, k - 1, a, t);
      } else if t >= base + half {
        FromAny(base + half, k - 1, a - half, t);
      } else {
        InvertTop(base, k);
        OnesCountBelow(a - half, k - 1);
        CrossAny(base + half, k - 1, a - half, t);
        FromOnes(base, k - 1, t);
      }
    }
  }

  lemma {:induction false} WorstHopsQuadratic(k: nat)
    ensures 2 * WorstHops(k) <= k * k + k
  {
    if k > 0 {
      WorstHopsQuadratic(k - 1);
      assert k * k + k == (k - 1) * (k - 1) + (k - 1) + 2 * k;
    }
  }

  /** The search is quadratic in the bit length of the starting height. */
  lemma SearchIsQuadratic(h: nat, t: nat, bits: nat)
    requires t <= h < Pow2(bits)
    ensures 2 * Hops(h, t) <= bits * bits + 5 * bits + 4
  {
    LowZerosOfZero(bits);
    FromAny(0, bits, h, t);
    WorstHopsQuadratic(bits);
  }

  lemma WorstStep(k: nat)
    ensures WorstHops(k + 1) == WorstHops(k) + CrossCost(k)
  {
  }

  lemma ProductStep(m: nat)
    requires m > 0
    ensures m * (m + 1) == (m - 1) * m + 2 * m
  {
  }

  /** The sum in closed form: for an even and for an odd power. */
  lemma {:induction false} WorstHopsFormula(m: nat)
    ensures 2 * WorstHops(2 * m) == 3 * (m * (m + 1))
    ensures 2 * WorstHops(2 * m + 1) == 3 * (m * (m + 1)) + 2 * (m + 1)
    decreases m
  {
    hide WorstHops;
    if m > 0 {
      WorstHopsFormula(m - 1);
      WorstStep(2 * m - 1);
      ProductStep(m);
      assert CrossCost(2 * m - 1) == 2 * m;
    } else {
      NoHops();
    }
    WorstStep(2 * m);
  }

  lemma NoHops()
    ensures WorstHops(0) == 0
  {
  }

  lemma WorstHopsAt29()
    ensures WorstHops(29) == 330
  {
    hide WorstHops;
    WorstHopsFormula(14);
  }

  /** The comment on `getAncestorHeight`: at most 330 steps from `1 << 29`, and one target needs all of them. */
  lemma SearchFrom29(h: nat, t: nat)
    requires h == Pow2(29) && t <= h
    ensures Hops(h, t) <= 330
    ensures t == 1 ==> Hops(h, t) == 330
  {
    WorstHopsAt29();
    HopsFromPower(29, t);
    HopsToOne(29);
  }
}
