/** Runs on which a documented promise fails: they show that the conditions on the main results are needed. */
module ChainExamples {
  import opened Base
  import opened BlockNodes
  import opened Ledger
  import opened ChainModel
  import opened ChainInvariants
  import opened ChainSelect
  import opened ChainAccept
  import opened ChainControl
  import opened ChainRuns
  import opened HeaviestChain

  // Blocks with a coinbase of their own and no other transaction.
  const GENESIS := Mined(1, ZERO_HASH, 1)
  const MAIN := Mined(2, 1, 5)
  const SIDE := Mined(3, 1, 1)
  const HEAVY := Mined(4, 3, 10)
  const CHILD := Mined(5, 2, 5)
  const NEPHEW := Mined(6, 2, 1)
  const NIECE := Mined(7, 2, 1)

  const SUBSIDY := 5_000_000_000

  function Mined(hash: Hash, prev: Hash, work: nat): Block
  {
    Block(hash, prev, 0, work, [Tx(hash, [OutPoint(ZERO_HASH, 0xFFFF_FFFF)], [TxOut(SUBSIDY, [], true)])])
  }

  predicate IsMined(b: Block)
  {
    b == Mined(b.hash, b.prev, b.work)
  }

  predicate AllMined(s: ChainState)
  {
    forall m :: m in s.status ==> IsMined(m.block)
  }

  function AlwaysFine(): Verdicts
  {
    (n: BlockNode) => Fine
  }

  /** A prefix check that refuses one block. */
  function Refuses(hash: Hash): Verdicts
  {
    (n: BlockNode) => if n.block.hash == hash then RuleError else Fine
  }

  function AcceptFine(s: ChainState, block: Block): ChainState
  {
    AcceptBlock(s, block, Fine, false, AlwaysFine(), AlwaysFine()).0
  }

  // ---------------------------------------------------------------------------
  // The coins of such blocks

  /** The block creates the output of its coinbase and spends nothing. */
  lemma MinedEvents(n: BlockNode)
    requires IsMined(n.block)
    ensures NodeEvents(n) == [Create(OutPoint(n.block.hash, 0), Coin(SUBSIDY, [], n.height, true))]
    ensures CountSpentOutputs(n.block.txs, 0) == 0
  {
    var txs := n.block.txs;
    assert |txs| == 1 && |txs[0].outputs| == 1;
    assert OutputEvents(txs[0], 1, n.height, true) == [];
    assert BlockEvents(txs, 1, n.height) == [];
    assert CountSpentOutputs(txs, 1) == 0;
  }

  lemma MinedFits(u: Utxo, n: BlockNode)
    requires IsMined(n.block)
    ensures InputsPresent(u, NodeEvents(n)) && SpentCoins(u, NodeEvents(n)) == []
    ensures Apply(u, NodeEvents(n)) == u[OutPoint(n.block.hash, 0) := Coin(SUBSIDY, [], n.height, true)]
    ensures OutPoint(n.block.hash, 0) !in u ==> Connectable(u, n)
  {
    hide NodeEvents, IsMined;
    MinedEvents(n);
    var evs := NodeEvents(n);
    assert evs[1..] == [];
    forall op | op in u && op != OutPoint(n.block.hash, 0) ensures FirstTouch(evs, op).None?
    {
      assert FirstTouch(evs[1..], op).None?;
    }
  }

  /** Every unspent output is the coinbase of a block on the way. */
  lemma {:induction false} MinedCoins(n: BlockNode, op: OutPoint) returns (m: BlockNode)
    requires op in Replay(n) && forall x :: x in Path(n) ==> IsMined(x.block)
    ensures m in Path(n) && m.block.hash == op.txid
    decreases n
  {
    hide NodeEvents, IsMined, Apply;
    assert Path(n)[|Path(n)| - 1] == n;
    var p := n.parent.value;
    MinedFits(Replay(p), n);
    if op != OutPoint(n.block.hash, 0) {
      assert forall x :: x in Path(p) ==> x in Path(n);
      m := MinedCoins(p, op);
    } else {
      m := n;
    }
  }

  /** Every block of such an index fits the chain below it. */
  lemma MinedConnectable(s: ChainState, n: BlockNode)
    requires TreeOk(s) && AllMined(s) && n in s.status && n.parent.Some?
    ensures Connectable(Replay(n.parent.value), n)
  {
    hide TreeOk, Path, Replay, Connectable, IsMined, WellBuilt;
    var p, op := n.parent.value, OutPoint(n.block.hash, 0);
    ParentKnown(s, n);
    PathKnown(s, p);
    if op in Replay(p) {
      var m := MinedCoins(p, op);
      SameHashSameNode(s, m, n);
      TallerThanPath(n, m);
    }
    MinedFits(Replay(p), n);
  }

  lemma MinedExtends(s: ChainState, n: BlockNode)
    requires Newcomer(s, n) && n.parent == Some(s.tip) && AllMined(s)
    ensures ConnectBest(s, n, false, AlwaysFine(), AlwaysFine()).2 == Fine
  {
    hide Path, Flush, Restatus, Steady, BestClean, NodeEvents, Connectable, InputsPresent, CountSpentOutputs;
    hide SpentCoins, Apply, IsMined, Replay;
    TipFacts(s);
    PrevIsParent(s, n);
    MinedConnectable(s, n);
    MinedFits(s.utxo, n);
    MinedEvents(n);
    FlushFields(Restatus(s, {n}, {Valid}, {}));
    RestatusSameChain(s, {n}, {Valid}, {});
  }

  // ---------------------------------------------------------------------------
  // Single steps

  /** A block on the tip becomes the tip. */
  lemma Extending(s: ChainState, block: Block)
    requires Inv(s) && AllMined(s) && IsMined(block)
    requires block.hash !in s.index && block.prev in s.index && s.index[block.prev] == s.tip
    ensures var n := NodeFor(s, block); var s' := AcceptFine(s, block);
            && Inv(s') && AllMined(s') && s'.tip == n && s'.index == s.index[block.hash := n]
            && n.work == s.tip.work + block.work && n.parent == Some(s.tip) && n.block == block
  {
    hide Inv, Path, ConnectBest, WithNode, Connectable, IsMined;
    InvFacts(s);
    CleanTipIndexed(s, block.prev);
    AdmittedNewcomer(s, block, Fine);
    var n := NodeFor(s, block);
    var s1 := WithNode(s, n);
    MinedExtends(s1, n);
    ConnectExtends(s1, n, false, AlwaysFine(), AlwaysFine());
  }

  lemma CleanTipIndexed(s: ChainState, h: Hash)
    requires BestClean(s) && h in s.index && s.index[h] in Path(s.tip)
    ensures !KnownInvalid(StatusOf(s, s.index[h]))
  {
    hide Path;
    assert s.index[h] in Best(s);
  }

  /** A block beside the tip, with no more work, is only added to the index. */
  lemma Beside(s: ChainState, block: Block)
    requires Inv(s) && AllMined(s) && IsMined(block)
    requires block.hash !in s.index && block.prev in s.index && s.index[block.prev] in Path(s.tip)
    requires s.index[block.prev] != s.tip && s.index[block.prev].work + block.work <= s.tip.work
    ensures var n := NodeFor(s, block); var s' := AcceptFine(s, block);
            && Inv(s') && AllMined(s') && s'.tip == s.tip && s'.index == s.index[block.hash := n]
            && s'.status == s.status[n := {DataStored}]
            && n !in s.status && n.parent == Some(s.index[block.prev]) && n.block == block
            && n.work == s.index[block.prev].work + block.work
  {
    hide Inv, Path, WithNode, ConnectBest, IsMined;
    InvFacts(s);
    CleanTipIndexed(s, block.prev);
    AdmittedNewcomer(s, block, Fine);
    var n := NodeFor(s, block);
    var s1 := WithNode(s, n);
    NewcomerInv(s1, n);
    LighterConnects(s1, n);
  }

  lemma LighterConnects(s: ChainState, n: BlockNode)
    requires TreeOk(s) && n in s.status && n.parent.Some? && n.parent != Some(s.tip) && n.work <= s.tip.work
    ensures ConnectBest(s, n, false, AlwaysFine(), AlwaysFine()) == (s, false, Fine)
  {
    hide TreeOk, Path, Reorganize, ReorganizeNodes;
    PrevIsParent(s, n);
  }

  lemma NewcomerInv(s: ChainState, n: BlockNode)
    requires Newcomer(s, n)
    ensures Inv(s) && TreeOk(s) && n in s.status && n.parent.Some?
  {
    hide Path;
  }

  /** A fork off genesis: the main block is the tip, the side block is lighter. */
  lemma Forked() returns (s: ChainState, g: BlockNode, a: BlockNode, b: BlockNode)
    ensures s == After(InitialState(GENESIS), [FineAccept(MAIN), FineAccept(SIDE)])
    ensures IsRun(InitialState(GENESIS), [FineAccept(MAIN), FineAccept(SIDE)])
    ensures Inv(s) && AllMined(s)
    ensures s.tip == a && a.parent == Some(g) && b.parent == Some(g) && g.parent == None && a != b
    ensures a.work == 6 && b.work == 2 && g.work == 1 && b.block == SIDE && a.block == MAIN && g.block == GENESIS
    ensures s.status.Keys == {g, a, b} && s.status[b] == {DataStored}
    ensures s.index == map[1 := g, 2 := a, 3 := b]
  {
    hide Inv, AcceptBlock;
    var s0 := InitialState(GENESIS);
    InitialInv(GENESIS);
    g := s0.tip;
    assert Path(g) == [g];
    Extending(s0, MAIN);
    a := NodeFor(s0, MAIN);
    var s1 := AcceptFine(s0, MAIN);
    assert s1.index[1] == g;
    assert Path(a) == [g, a];
    Beside(s1, SIDE);
    b := NodeFor(s1, SIDE);
    s := AcceptFine(s1, SIDE);
    ThreeKeys(s, g, a, b);
    TwoSteps(s0, MAIN, SIDE);
  }

  function FineAccept(block: Block): Op
  {
    Accept(block, Fine, false, AlwaysFine(), AlwaysFine())
  }

  lemma OneStep(s: ChainState, x: Block, rest: seq<Op>)
    ensures IsRun(AcceptFine(s, x), rest) ==> IsRun(s, [FineAccept(x)] + rest)
    ensures After(s, [FineAccept(x)] + rest) == After(AcceptFine(s, x), rest)
  {
    hide AcceptBlock;
    var ops := [FineAccept(x)] + rest;
    assert ops[0] == FineAccept(x) && ops[1..] == rest;
  }

  lemma TwoSteps(s: ChainState, x: Block, y: Block)
    ensures IsRun(s, [FineAccept(x), FineAccept(y)])
    ensures After(s, [FineAccept(x), FineAccept(y)]) == AcceptFine(AcceptFine(s, x), y)
  {
    hide AcceptBlock;
    assert [FineAccept(x), FineAccept(y)] == [FineAccept(x)] + ([FineAccept(y)] + []);
    OneStep(s, x, [FineAccept(y)] + []);
    OneStep(AcceptFine(s, x), y, []);
  }

  lemma KeysByIndex(s: ChainState)
    requires Inv(s)
    ensures forall n :: n in s.status <==> n.block.hash in s.index && s.index[n.block.hash] == n
  {
    hide Path, WellBuilt;
  }

  lemma ThreeKeys(s: ChainState, g: BlockNode, a: BlockNode, b: BlockNode)
    requires Inv(s) && s.index == map[1 := g, 2 := a, 3 := b]
    ensures s.status.Keys == {g, a, b}
  {
    hide Inv;
    KeysByIndex(s);
    assert s.index[1] == g && s.index[2] == a && s.index[3] == b;
    IndexedAt(s, 1);
    IndexedAt(s, 2);
    IndexedAt(s, 3);
  }

  lemma FiveKeys(s: ChainState, g: BlockNode, n: BlockNode, c: BlockNode, d: BlockNode, e: BlockNode)
    requires Inv(s) && s.index == map[1 := g, 2 := n, 5 := c, 6 := d, 7 := e]
    ensures s.status.Keys == {g, n, c, d, e}
  {
    hide Inv;
    KeysByIndex(s);
    IndexedAt(s, 1);
    IndexedAt(s, 2);
    IndexedAt(s, 5);
    IndexedAt(s, 6);
    IndexedAt(s, 7);
  }

  lemma IndexedAt(s: ChainState, h: Hash)
    requires Inv(s) && h in s.index
    ensures s.index[h] in s.status
  {
    hide Inv;
    InvFacts(s);
    IndexedKnown(s, h);
  }

  // ---------------------------------------------------------------------------
  // The best chain can lose work

  /**
    The side branch gets a heavy block whose prefix check fails once the main block has been detached:
    the chain ends on the light side block although the main block is valid and heavier.
  */
  lemma WorkCanBeLost() returns (s: ChainState, last: Op)
    ensures IsRun(InitialState(GENESIS), [FineAccept(MAIN), FineAccept(SIDE)])
    ensures s == After(InitialState(GENESIS), [FineAccept(MAIN), FineAccept(SIDE)]) && Inv(s)
    ensures last.Accept? && Enabled(s, last)
    ensures AcceptBlock(s, last.block, last.context, last.fast, last.check, last.reap).2 == RuleError
    ensures Strands(s, last.block, last.context, last.check, last.reap)
    ensures Do(s, last).tip.work < s.tip.work && !Optimal(Do(s, last))
  {
    hide Inv, ConnectBest, WithNode, Optimal, Takeover, TakeoverTip, IsRun, After, AllMined, Path, Branch;
    var g, a, b;
    s, g, a, b := Forked();
    last := Accept(HEAVY, Fine, false, AlwaysFine(), Refuses(4));
    HeavyIndexed(s, g, a, b);
    var n := NodeFor(s, HEAVY);
    var s1 := WithNode(s, n);
    HeavyTakesOver(s1, g, a, b, n);
    HeavyStops(s1, g, a, b, n);
    HeavyRefused(s1, g, a, b, n);
    StrandedLoses(s, HEAVY, Fine, false, AlwaysFine(), Refuses(4));
  }

  /** The fork, and a heavy block on its side branch that has just been indexed. */
  ghost predicate HeavySide(s: ChainState, g: BlockNode, a: BlockNode, b: BlockNode, n: BlockNode)
  {
    && Newcomer(s, n) && AllMined(s) && s.tip == a && a.parent == Some(g) && b.parent == Some(g) && g.parent == None
    && a != b && n.parent == Some(b) && b in s.status && s.status[b] == {DataStored}
    && a.work == 6 && b.work == 2 && n.work == 12 && b.block.hash == 3 && n.block.hash == 4
  }

  lemma HeavyIndexed(s: ChainState, g: BlockNode, a: BlockNode, b: BlockNode)
    requires Inv(s) && AllMined(s)
    requires s.tip == a && a.parent == Some(g) && b.parent == Some(g) && g.parent == None && a != b
    requires a.work == 6 && b.work == 2 && b.block == SIDE && s.index == map[1 := g, 2 := a, 3 := b]
    requires b in s.status && s.status[b] == {DataStored}
    ensures Admitted(s, HEAVY, Fine) && HeavySide(WithNode(s, NodeFor(s, HEAVY)), g, a, b, NodeFor(s, HEAVY))
  {
    hide Inv, WithNode, Newcomer;
    AdmittedNewcomer(s, HEAVY, Fine);
  }

  /** The branch passes verification. */
  lemma HeavyTakesOver(s: ChainState, g: BlockNode, a: BlockNode, b: BlockNode, n: BlockNode)
    requires HeavySide(s, g, a, b, n)
    ensures Branch(s, n) == [b, n] && Takeover(s, n, AlwaysFine())
  {
    hide Inv, Path, ForkLength, Branch, Connectable, Replay, IsMined;
    NewcomerInv(s, n);
    ForkShape(s, g, a, b, n);
    MinedConnectable(s, b);
    MinedConnectable(s, n);
  }

  /** Its attachment stops below the heavy block. */
  lemma HeavyStops(s: ChainState, g: BlockNode, a: BlockNode, b: BlockNode, n: BlockNode)
    requires HeavySide(s, g, a, b, n)
    ensures Branch(s, n) == [b, n] && FirstRefused([b, n], Refuses(4)) == 1 && TakeoverTip(s, n, Refuses(4)) == b
  {
    hide Inv, Path, ForkLength, Branch, ForkNode, AllMined;
    ForkShape(s, g, a, b, n);
    assert [b, n][1..] == [n] && [b, n][..1] == [b];
  }

  lemma HeavyRefused(s: ChainState, g: BlockNode, a: BlockNode, b: BlockNode, n: BlockNode)
    requires HeavySide(s, g, a, b, n)
    ensures ConnectBest(s, n, false, AlwaysFine(), Refuses(4)).2 == RuleError
  {
    hide Inv, Path, ForkLength, Branch, Takeover, TakeoverTip, ConnectBest, AllMined, FirstRefused;
    HeavyTakesOver(s, g, a, b, n);
    HeavyStops(s, g, a, b, n);
    TakeoverOutcome(s, n, false, AlwaysFine(), Refuses(4));
  }

  lemma ForkShape(s: ChainState, g: BlockNode, a: BlockNode, b: BlockNode, n: BlockNode)
    requires s.tip == a && a.parent == Some(g) && b.parent == Some(g) && g.parent == None && a != b &&
      n.parent == Some(b)
    ensures ForkLength(s, n) == 1 && Branch(s, n) == [b, n]
  {
    assert Path(g) == [g];
    assert Path(a) == [g, a];
    assert Path(b) == [g, b];
    assert Path(n) == [g, b, n];
    assert Path(a)[1..] == [a] && Path(n)[1..] == [b, n];
  }

  // ---------------------------------------------------------------------------
  // A heavier block can be overlooked

  /** A check that never comes to a verdict. */
  function NoVerdict(): Verdicts
  {
    (n: BlockNode) => OtherError
  }

  /** The first block on genesis gets no verdict: it stays in the index, heavier than the tip and not known invalid. */
  lemma BlockCanBeOverlooked() returns (s: ChainState, last: Op)
    ensures s == InitialState(GENESIS) && Inv(s) && Optimal(s)
    ensures last.Accept? && Enabled(s, last)
    ensures Interrupted(s, last.block, last.context, last.fast, last.check, last.reap)
    ensures !Strands(s, last.block, last.context, last.check, last.reap) && !Optimal(Do(s, last))
  {
    hide Inv, AcceptBlock, WithNode, Path, ForkLength, Branch, BranchClean, Connectable, TakeoverTip;
    s := InitialState(GENESIS);
    last := Accept(MAIN, Fine, false, NoVerdict(), AlwaysFine());
    InitialInv(GENESIS);
    AdmittedNewcomer(s, MAIN, Fine);
    InterruptedLoses(s, MAIN, Fine, false, NoVerdict(), AlwaysFine());
  }

  // ---------------------------------------------------------------------------
  // Invalidating can miss descendants

  lemma MainAndChild() returns (s: ChainState, g: BlockNode, n: BlockNode, c: BlockNode)
    ensures s == AcceptFine(AcceptFine(InitialState(GENESIS), MAIN), CHILD) && Inv(s) && AllMined(s)
    ensures s.tip == c && g.parent == None && n.parent == Some(g) && c.parent == Some(n)
    ensures g.block == GENESIS && n.block == MAIN && c.block == CHILD && g.work == 1 && n.work == 6 && c.work == 11
    ensures s.index == map[1 := g, 2 := n, 5 := c]
  {
    hide Inv, AcceptBlock, IsMined;
    var s0 := InitialState(GENESIS);
    InitialInv(GENESIS);
    g := s0.tip;
    MinedExamples();
    Extending(s0, MAIN);
    n := NodeFor(s0, MAIN);
    var s1 := AcceptFine(s0, MAIN);
    Extending(s1, CHILD);
    c := NodeFor(s1, CHILD);
    s := AcceptFine(s1, CHILD);
  }

  /** The main block has a child on the best chain and two lighter ones beside it. */
  lemma ThreeChildren() returns (s: ChainState, g: BlockNode, n: BlockNode, c: BlockNode, d: BlockNode, e: BlockNode)
    ensures s == AcceptFine(AcceptFine(AcceptFine(AcceptFine(InitialState(GENESIS), MAIN), CHILD), NEPHEW), NIECE)
    ensures Inv(s) && s.tip == c && Family(g, n, c, d, e) && s.index == map[1 := g, 2 := n, 5 := c, 6 := d, 7 := e]
    ensures s.status.Keys == {g, n, c, d, e} && s.status[d] == s.status[e] == {DataStored}
    ensures g.work == 1 && d.work == 7 && e.work == 7
  {
    hide Inv, AcceptFine, IsMined, InitialState, NodeFor, Path;
    var s2;
    s2, g, n, c := MainAndChild();
    MinedExamples();
    ParentInPath(c);
    Beside(s2, NEPHEW);
    d := NodeFor(s2, NEPHEW);
    var s3 := AcceptFine(s2, NEPHEW);
    assert s3.index[2] == n;
    Beside(s3, NIECE);
    e := NodeFor(s3, NIECE);
    s := AcceptFine(s3, NIECE);
    FiveKeys(s, g, n, c, d, e);
  }

  /** Parents and hashes of the example. */
  predicate Family(g: BlockNode, n: BlockNode, c: BlockNode, d: BlockNode, e: BlockNode)
  {
    && g.parent == None && n.parent == Some(g) && c.parent == Some(n) && d.parent == Some(n) && e.parent == Some(n)
    && n.block.hash == 2 && c.block.hash == 5 && d.block.hash == 6 && e.block.hash == 7
  }

  lemma MinedExamples()
    ensures IsMined(GENESIS) && IsMined(MAIN) && IsMined(SIDE) && IsMined(CHILD) && IsMined(NEPHEW) && IsMined(NIECE)
  {
  }

  lemma FourSteps(s: ChainState, w: Block, x: Block, y: Block, z: Block)
    ensures IsRun(s, [FineAccept(w), FineAccept(x), FineAccept(y), FineAccept(z)])
    ensures After(s, [FineAccept(w), FineAccept(x), FineAccept(y), FineAccept(z)]) ==
            AcceptFine(AcceptFine(AcceptFine(AcceptFine(s, w), x), y), z)
  {
    hide AcceptBlock;
    var s1 := AcceptFine(s, w);
    TwoSteps(AcceptFine(s1, x), y, z);
    assert [FineAccept(x), FineAccept(y), FineAccept(z)] == [FineAccept(x)] + [FineAccept(y), FineAccept(z)];
    OneStep(s1, x, [FineAccept(y), FineAccept(z)]);
    assert [FineAccept(w), FineAccept(x), FineAccept(y), FineAccept(z)] ==
           [FineAccept(w)] + [FineAccept(x), FineAccept(y), FineAccept(z)];
    OneStep(s, w, [FineAccept(x), FineAccept(y), FineAccept(z)]);
  }

  lemma FamilyPaths(g: BlockNode, n: BlockNode, c: BlockNode, d: BlockNode, e: BlockNode)
    requires Family(g, n, c, d, e)
    ensures Path(g) == [g] && Path(n) == [g, n] && Path(c) == [g, n, c] && Path(d) == [g, n, d] && Path(e) == [g, n, e]
  {
    assert Path(g) == [g];
    assert Path(n) == Path(g) + [n];
  }

  /** No block is above both side children. */
  lemma NotAboveBoth(s: ChainState, d: BlockNode, e: BlockNode, t: BlockNode)
    requires TreeOk(s) && t in s.status && d != e && d.height == e.height
    ensures d !in Path(t) || e !in Path(t)
  {
    hide TreeOk, Path, WellBuilt;
    ParentKnown(s, t);
    OnPathByHeight(d, t);
    OnPathByHeight(e, t);
  }

  lemma SiblingHeights(s: ChainState, d: BlockNode, e: BlockNode)
    requires TreeOk(s) && d in s.status && e in s.status && d.parent.Some? && d.parent == e.parent
    ensures d.height == e.height > 0
  {
    hide TreeOk, Path;
    ParentKnown(s, d);
    ParentKnown(s, e);
    ChildTaller(d);
    ChildTaller(e);
  }

  lemma FamilyShape(s: ChainState, g: BlockNode, n: BlockNode, c: BlockNode, d: BlockNode, e: BlockNode)
    requires Inv(s) && s.tip == c && Family(g, n, c, d, e) && s.status.Keys == {g, n, c, d, e}
    ensures n in Best(s) && n.height > 0 && d in Descendants(s, n) && e in Descendants(s, n)
    ensures d !in Best(s) && e !in Best(s) && d != e && d.height == e.height
  {
    hide Inv, Path, WellBuilt, TreeOk;
    InvFacts(s);
    FamilyPaths(g, n, c, d, e);
    SiblingHeights(s, d, e);
    ParentKnown(s, n);
    ChildTaller(n);
  }

  /** The example once the main block is detached. */
  ghost predicate Detached(s: ChainState, g: BlockNode, n: BlockNode, c: BlockNode, d: BlockNode, e: BlockNode)
  {
    && TreeOk(s) && s.tip == g && Family(g, n, c, d, e) && s.status.Keys == {g, n, c, d, e}
    && KnownInvalid(s.status[n]) && KnownInvalid(s.status[c]) && !KnownInvalid(s.status[d])
    && g.work == 1 && d.work == 7 && e.work == 7
  }

  lemma MainDetached(s: ChainState, g: BlockNode, n: BlockNode, c: BlockNode, d: BlockNode, e: BlockNode,
                     check: Verdicts, reap: Verdicts)
    requires Inv(s) && s.tip == c && Family(g, n, c, d, e) && n.height > 0 && n in Best(s)
    requires s.status.Keys == {g, n, c, d, e} && s.status[d] == {DataStored}
    requires g.work == 1 && d.work == 7 && e.work == 7
    ensures Detached(InvalidateDetach(s, n, check, reap).0, g, n, c, d, e)
  {
    hide Inv, InvalidateDetach, Path, MarkedAbove, WellBuilt, TreeOk;
    FamilyPaths(g, n, c, d, e);
    InvalidateDetaches(s, n, check, reap);
    StillKnown(s, n, check, reap);
    InvFacts(InvalidateDetach(s, n, check, reap).0);
    DetachMarksExactly(s, n, check, reap, n);
    DetachMarksExactly(s, n, check, reap, c);
    DetachMarksExactly(s, n, check, reap, d);
  }

  /** Then either side child is a tip the selection can end with. */
  lemma SideChildIsCandidate(s: ChainState, g: BlockNode, n: BlockNode, c: BlockNode, d: BlockNode, e: BlockNode)
    requires Detached(s, g, n, c, d, e)
    ensures BestCandidate(s, d)
  {
    hide Path, TreeOk, KnownInvalid;
    FamilyPaths(g, n, c, d, e);
    forall m | m in s.status ensures OnBest(s, m) <==> m == g
    {
      OnBestIsOnPath(s, m);
    }
    assert OffBest(s) == {n, c, d, e};
    assert d in InactiveTips(s) && n !in InactiveTips(s);
  }

  /** One of the side children is not above the tip chosen next, and stays as it was. */
  lemma MissesOne(s: ChainState, n: BlockNode, d: BlockNode, e: BlockNode, t: BlockNode,
                  check: Verdicts, reap: Verdicts)
    requires Inv(s) && MAIN.hash in s.index && s.index[MAIN.hash] == n && n in Best(s) && n.height > 0
    requires d in Descendants(s, n) && e in Descendants(s, n) && d !in Best(s) && e !in Best(s)
    requires d != e && d.height == e.height && s.status[d] == s.status[e] == {DataStored}
    requires BestCandidate(InvalidateDetach(s, n, check, reap).0, t)
    ensures var s' := InvalidateBlock(s, MAIN.hash, t, check, reap).0;
            !KnownInvalid(StatusOf(s', d)) || !KnownInvalid(StatusOf(s', e))
  {
    hide Inv, InvalidateDetach, Path, BestCandidate, InvalidateBlock, ClearUpTo, TreeOk;
    InvFacts(s);
    CandidateKnown(s, n, check, reap, t);
    NotAboveBoth(s, d, e, t);
    InvalidateMarksExactly(s, MAIN.hash, t, check, reap, d);
    InvalidateMarksExactly(s, MAIN.hash, t, check, reap, e);
    NotOnPathNotClear(s, t, d);
    NotOnPathNotClear(s, t, e);
  }

  lemma CandidateKnown(s: ChainState, n: BlockNode, check: Verdicts, reap: Verdicts, t: BlockNode)
    requires Inv(s) && n in Best(s) && n.height > 0 && BestCandidate(InvalidateDetach(s, n, check, reap).0, t)
    ensures t in s.status
  {
    hide Inv, InvalidateDetach, Path, MarkedAbove, WellBuilt;
    InvalidateDetaches(s, n, check, reap);
    StillKnown(s, n, check, reap);
    InvFacts(InvalidateDetach(s, n, check, reap).0);
  }

  /**
    Invalidating the main block leaves one of the side children not known invalid, whichever tip is chosen
    next and whatever the verdicts; and there is a tip to choose.
  */
  lemma DescendantCanBeMissed() returns (s: ChainState, n: BlockNode, d: BlockNode, e: BlockNode)
    ensures IsRun(InitialState(GENESIS), [FineAccept(MAIN), FineAccept(CHILD), FineAccept(NEPHEW), FineAccept(NIECE)])
    ensures s == After(InitialState(GENESIS),
                       [FineAccept(MAIN), FineAccept(CHILD), FineAccept(NEPHEW), FineAccept(NIECE)])
    ensures MAIN.hash in s.index && n == s.index[MAIN.hash] && n in Best(s)
    ensures d in Descendants(s, n) && e in Descendants(s, n)
    ensures forall check, reap :: BestCandidate(InvalidateDetach(s, n, check, reap).0, d)
    ensures forall t, check, reap :: BestCandidate(InvalidateDetach(s, n, check, reap).0, t) ==>
      var s' := InvalidateBlock(s, MAIN.hash, t, check, reap).0;
      !KnownInvalid(StatusOf(s', d)) || !KnownInvalid(StatusOf(s', e))
  {
    hide Inv, InvalidateDetach, Path, WellBuilt, BestCandidate, InvalidateBlock, IsRun, After, AcceptFine, TreeOk;
    hide InitialState, FineAccept;
    var g, c;
    s, g, n, c, d, e := ThreeChildren();
    FourSteps(InitialState(GENESIS), MAIN, CHILD, NEPHEW, NIECE);
    assert s.index[MAIN.hash] == n;
    FamilyShape(s, g, n, c, d, e);
    forall check, reap ensures BestCandidate(InvalidateDetach(s, n, check, reap).0, d)
    {
      MainDetached(s, g, n, c, d, e, check, reap);
      SideChildIsCandidate(InvalidateDetach(s, n, check, reap).0, g, n, c, d, e);
    }
    forall t, check, reap | BestCandidate(InvalidateDetach(s, n, check, reap).0, t)
      ensures !KnownInvalid(StatusOf(InvalidateBlock(s, MAIN.hash, t, check, reap).0, d)) ||
        !KnownInvalid(StatusOf(InvalidateBlock(s, MAIN.hash, t, check, reap).0, e))
    {
      MissesOne(s, n, d, e, t, check, reap);
    }
  }
}
