/**
  Blocks and the nodes of the block index.

  The source keeps the nodes of the block tree behind pointers that never change
  once a node is built, so a node is modelled as a value that contains its parent
  and its skip pointer.  The one mutable field, the status, lives in the chain
  state instead.
*/
module BlockNodes {
  import opened Base

  datatype OutPoint = OutPoint(txid: Hash, index: nat)

  /** `spendable` is the negation of `txscript.IsUnspendable` for the script. */
  datatype TxOut = TxOut(amount: int, script: seq<Byte>, spendable: bool)

  datatype Tx = Tx(id: Hash, inputs: seq<OutPoint>, outputs: seq<TxOut>)

  /** `txs[0]` is the coinbase; `work` is `CalcWork` of the header's bits. */
  datatype Block = Block(hash: Hash, prev: Hash, timestamp: int, work: nat, txs: seq<Tx>)

  datatype BlockNode = BlockNode(
    block: Block,
    height: nat,
    work: nat,
    parent: Option<BlockNode>,
    ancestor: Option<BlockNode>)

  /** The nodes from genesis to `n`, found by following parents. */
  function Path(n: BlockNode): (path: seq<BlockNode>)
    decreases n
    ensures |path| >= 1 && path[|path| - 1] == n
  {
    match n.parent
    case None => [n]
    case Some(p) => Path(p) + [n]
  }

  /** Follow parents from `n` until the height is at most `height`. */
  function WalkBack(n: BlockNode, height: nat): BlockNode
    decreases n
  {
    if n.height <= height || n.parent.None? then n else WalkBack(n.parent.value, height)
  }

  /** Bitwise and of two naturals. */
  function BitAnd(a: nat, b: nat): nat
  {
    if a == 0 || b == 0 then 0
    else (if a % 2 == 1 && b % 2 == 1 then 1 else 0) + 2 * BitAnd(a / 2, b / 2)
  }

  /** `n & (n - 1)`; at zero the source computes `0 & -1`. */
  function InvertLowestOne(n: nat): nat
  {
    if n == 0 then 0 else BitAnd(n, n - 1)
  }

  function AncestorHeight(height: nat): nat
  {
    InvertLowestOne(InvertLowestOne(height))
  }

  /** The nodes `initBlockNode` builds: every derived field follows from the parent. */
  ghost predicate WellBuilt(n: BlockNode)
    decreases n
  {
    match n.parent
    case None => n.height == 0 && n.work == n.block.work && n.ancestor == None
    case Some(p) =>
      && WellBuilt(p)
      && n.block.prev == p.block.hash
      && n.height == p.height + 1
      && n.work == p.work + n.block.work
      && n.ancestor == Some(WalkBack(p, AncestorHeight(n.height)))
  }

  /** Clearing a set bit of a positive number makes it smaller. */
  lemma {:induction false} AndBelow(a: nat, b: nat)
    ensures BitAnd(a, b) <= a && BitAnd(a, b) <= b
    decreases a
  {
    if a != 0 && b != 0 {
      AndBelow(a / 2, b / 2);
    }
  }

  lemma InvertBelow(n: nat)
    ensures InvertLowestOne(n) <= n
    ensures n > 0 ==> InvertLowestOne(n) < n
  {
    if n > 0 {
      AndBelow(n, n - 1);
    }
  }

  lemma AncestorHeightBelow(h: nat)
    ensures h > 0 ==> AncestorHeight(h) < h
  {
    InvertBelow(h);
    InvertBelow(InvertLowestOne(h));
  }

  lemma ParentWellBuilt(n: BlockNode)
    requires WellBuilt(n) && n.parent.Some?
    ensures WellBuilt(n.parent.value)
  {
  }

  lemma {:induction false} PathLength(n: BlockNode)
    requires WellBuilt(n)
    ensures |Path(n)| == n.height + 1
    decreases n
  {
    if n.parent.Some? {
      PathLength(n.parent.value);
    }
  }

  lemma {:induction false} PathAt(n: BlockNode, i: nat)
    requires WellBuilt(n) && i < |Path(n)|
    ensures WellBuilt(Path(n)[i]) && Path(n)[i].height == i && Path(Path(n)[i]) == Path(n)[..i + 1]
    ensures Path(n)[i].parent == if i == 0 then None else Some(Path(n)[i - 1])
    decreases n
  {
    PathLength(n);
    if i < n.height {
      PathAt(n.parent.value, i);
      assert Path(n)[..i + 1] == Path(n.parent.value)[..i + 1];
    } else {
      assert Path(n)[..i + 1] == Path(n);
    }
  }

  /** On a well-built node, position in the parent path is height. */
  lemma PathFacts(n: BlockNode)
    requires WellBuilt(n)
    ensures |Path(n)| == n.height + 1
    ensures forall i :: 0 <= i <= n.height ==>
      WellBuilt(Path(n)[i]) && Path(n)[i].height == i && Path(Path(n)[i]) == Path(n)[..i + 1]
    ensures forall i :: 0 < i <= n.height ==> Path(n)[i].parent == Some(Path(n)[i - 1])
    ensures Path(n)[0].parent == None
  {
    hide Path, WellBuilt;
    PathLength(n);
    PathAt(n, 0);
    forall i | 0 <= i <= n.height
      ensures WellBuilt(Path(n)[i]) && Path(n)[i].height == i && Path(Path(n)[i]) == Path(n)[..i + 1]
      ensures Path(n)[i].parent == if i == 0 then None else Some(Path(n)[i - 1])
    {
      PathAt(n, i);
    }
  }

  lemma {:induction false} WalkBackIsPath(n: BlockNode, height: nat)
    requires WellBuilt(n) && height <= n.height
    ensures height < |Path(n)| && WalkBack(n, height) == Path(n)[height]
    decreases n
  {
    PathFacts(n);
    if height < n.height {
      WalkBackIsPath(n.parent.value, height);
    }
  }

  /** `m` is `n` or one of its ancestors. */
  ghost predicate OnPath(m: BlockNode, n: BlockNode)
  {
    m in Path(n)
  }

  lemma OnPathByHeight(m: BlockNode, n: BlockNode)
    requires WellBuilt(n)
    ensures OnPath(m, n) <==> m.height <= n.height && m.height < |Path(n)| && Path(n)[m.height] == m
  {
    PathFacts(n);
  }

  lemma ParentInPath(n: BlockNode)
    requires n.parent.Some?
    ensures n.parent.value in Path(n) && n in Path(n)
  {
    assert Path(n.parent.value)[|Path(n.parent.value)| - 1] == n.parent.value;
  }

  lemma OnPathTransitive(a: BlockNode, b: BlockNode, c: BlockNode)
    requires WellBuilt(c) && OnPath(a, b) && OnPath(b, c)
    ensures OnPath(a, c)
  {
    PathFacts(c);
    OnPathByHeight(b, c);
    assert Path(b) == Path(c)[..b.height + 1];
  }

  /** Two ancestors of one node are ancestors of one another. */
  lemma OnPathLinear(a: BlockNode, b: BlockNode, c: BlockNode)
    requires WellBuilt(c) && OnPath(a, c) && OnPath(b, c) && a.height <= b.height
    ensures OnPath(a, b)
  {
    PathFacts(c);
    OnPathByHeight(a, c);
    OnPathByHeight(b, c);
    assert Path(b)[a.height] == a;
  }

  /** A node's cumulative work is at least that of each of its ancestors. */
  lemma {:induction false} WorkMonotone(m: BlockNode, n: BlockNode)
    requires WellBuilt(n) && OnPath(m, n)
    ensures m.work <= n.work
    decreases n
  {
    if m != n {
      WorkMonotone(m, n.parent.value);
    }
  }
}
