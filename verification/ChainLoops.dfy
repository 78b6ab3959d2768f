/** What the loops of the chain object compute and keep. */
module ChainLoops {
  import opened Base
  import opened BlockNodes
  import opened Ledger
  import opened ChainModel
  import opened ChainInvariants
  import opened ChainReorg
  import opened ChainSelect
  import opened ChainControl
  import opened ChainRuns
  import opened IndexStore
  import MedianTime

  /** Write the rows of a set of nodes, in any order. */
  method StoreRows(rows: map<BlockNode, Status>, status: map<BlockNode, Status>, dirty: set<BlockNode>)
    returns (r: map<BlockNode, Status>)
    requires dirty <= status.Keys
    ensures r == rows + map n | n in dirty :: status[n]
  {
    r := rows;
    var pending := dirty;
    while pending != {}
      invariant pending <= dirty
      invariant r.Keys == rows.Keys + (dirty - pending)
      invariant forall n :: n in r ==> r[n] == if n in dirty - pending then status[n] else rows[n]
    {
      var n :| n in pending;
      r := r[n := status[n]];
      pending := pending - {n};
    }
  }

  /** Two views that agree at a height agree below it. */
  lemma AgreeBelow(a: BlockNode, b: BlockNode, h: nat)
    requires WellBuilt(a) && WellBuilt(b) && h < |Path(a)| && h < |Path(b)| && Path(a)[h] == Path(b)[h]
    ensures forall i :: 0 <= i <= h ==> Path(a)[i] == Path(b)[i]
  {
    hide Path, WellBuilt;
    PathAt(a, h);
    PathAt(b, h);
    forall i | 0 <= i <= h ensures Path(a)[i] == Path(b)[i]
    {
      assert Path(a)[..h + 1][i] == Path(b)[..h + 1][i];
    }
  }

  /** The first `count` slots of a view, as `setTip` resizes it: unused slots are empty. */
  function Slots(view: seq<BlockNode>, count: nat): (r: seq<Option<BlockNode>>)
    ensures |r| == count
    ensures forall i :: 0 <= i < count ==> r[i] == if i < |view| then Some(view[i]) else None
  {
    seq(count, i requires 0 <= i => if i < |view| then Some(view[i]) else None)
  }

  /** `setTip`: fill the view downward from the new tip, stopping at the first node already in place. */
  method SwitchView(view: seq<BlockNode>, ghost oldTip: BlockNode, node: BlockNode) returns (r: seq<BlockNode>)
    requires view == [] || (WellBuilt(oldTip) && view == Path(oldTip))
    requires WellBuilt(node)
    ensures r == Path(node)
  {
    hide WellBuilt, Path;
    PathLength(node);
    var slots := Slots(view, node.height + 1);
    var n: Option<BlockNode> := Some(node);
    PathAt(node, node.height);
    while n.Some? && slots[n.value.height] != n
      invariant |slots| == |Path(node)|
      invariant n.Some? ==> n.value.height < |slots| && Path(node)[n.value.height] == n.value
      invariant forall i :: 0 <= i < |slots| && (n.None? || i > n.value.height) ==> slots[i] == Some(Path(node)[i])
      invariant n.Some? ==> forall i :: 0 <= i <= n.value.height ==>
        slots[i] == if i < |view| then Some(view[i]) else None
      decreases if n.Some? then n.value.height + 1 else 0
    {
      PathAt(node, n.value.height);
      slots := slots[n.value.height := n];
      n := n.value.parent;
      if n.Some? {
        PathAt(node, n.value.height);
      }
    }
    if n.Some? {
      AgreeBelow(oldTip, node, n.value.height);
    }
    r := seq(|slots|, i requires 0 <= i < |slots| && slots[i].Some? => slots[i].value);
  }

  lemma RestatusOne(s: ChainState, n: BlockNode, add: Status, remove: Status)
    requires n in s.status
    ensures Restatus(s, {n}, add, remove) ==
            s.(status := s.status[n := s.status[n] + add - remove], dirty := s.dirty + {n})
  {
  }

  /** The nodes of a list that `InactiveTips` keeps: off the best chain, by hash. */
  method CollectOrphans(index: map<Hash, BlockNode>, view: seq<BlockNode>)
    returns (orphans: map<Hash, BlockNode>, orphanParent: set<Hash>)
    requires forall h :: h in index && !Shown(view, index[h]) ==> index[h].parent.Some?
    ensures forall h :: h in orphans <==> h in index && !Shown(view, index[h])
    ensures forall h :: h in orphans ==> orphans[h] == index[h]
    ensures forall h :: h in orphanParent <==> exists c :: c in orphans && ParentHash(orphans[c]) == Some(h)
  {
    orphans, orphanParent := map[], {};
    var pending := index.Keys;
    while pending != {}
      invariant pending <= index.Keys
      invariant forall h :: h in orphans <==> h in index && h !in pending && !Shown(view, index[h])
      invariant forall h :: h in orphans ==> orphans[h] == index[h]
      invariant forall h :: h in orphanParent <==> exists c :: c in orphans && ParentHash(orphans[c]) == Some(h)
    {
      var h :| h in pending;
      pending := pending - {h};
      var node := index[h];
      if !Shown(view, node) {
        ghost var before := orphans;
        orphans := orphans[h := node];
        assert h !in before && forall c :: c in before ==> c in orphans && orphans[c] == before[c];
        orphanParent := orphanParent + {node.parent.value.block.hash};
        assert ParentHash(orphans[h]) == Some(node.parent.value.block.hash);
      }
    }
  }

  /** `chainView.contains`. */
  predicate Shown(view: seq<BlockNode>, n: BlockNode)
  {
    n.height < |view| && view[n.height] == n
  }

  function ParentHash(n: BlockNode): Option<Hash>
  {
    if n.parent.Some? then Some(n.parent.value.block.hash) else None
  }

  /** Keep the orphans that no orphan points to. */
  method KeepChildless(orphans: map<Hash, BlockNode>, orphanParent: set<Hash>) returns (tips: seq<BlockNode>)
    ensures forall t :: t in tips <==> exists h :: h in orphans && h !in orphanParent && orphans[h] == t
  {
    tips := [];
    var pointedAt := orphanParent;
    var pending := orphans.Keys;
    while pending != {}
      invariant pending <= orphans.Keys
      invariant forall h :: h in pending ==> (h in pointedAt <==> h in orphanParent)
      invariant forall t :: t in tips <==>
        exists h :: h in orphans && h !in pending && h !in orphanParent && orphans[h] == t
    {
      var h :| h in pending;
      pending := pending - {h};
      if h !in pointedAt {
        tips := tips + [orphans[h]];
      }
      pointedAt := pointedAt - {h};
    }
  }

  /** The selection loop of `InvalidateBlock`: the first of the heaviest tips that are not known invalid. */
  method SelectBest(tips: seq<BlockNode>, status: map<BlockNode, Status>)
    returns (best: Option<BlockNode>, ghost at: nat)
    requires forall t :: t in tips ==> t in status
    ensures best.None? ==> forall t :: t in tips ==> KnownInvalid(status[t])
    ensures best.Some? ==> at < |tips| && tips[at] == best.value && !KnownInvalid(status[best.value])
    ensures best.Some? ==> forall t :: t in tips && !KnownInvalid(status[t]) ==> t.work <= best.value.work
    ensures best.Some? ==> forall j :: 0 <= j < at && !KnownInvalid(status[tips[j]]) ==> tips[j].work < best.value.work
  {
    best, at := None, 0;
    for i := 0 to |tips|
      invariant best.None? ==> forall j :: 0 <= j < i ==> KnownInvalid(status[tips[j]])
      invariant best.Some? ==> at < i && tips[at] == best.value && !KnownInvalid(status[best.value])
      invariant best.Some? ==> forall j :: 0 <= j < i && !KnownInvalid(status[tips[j]]) ==>
        tips[j].work <= best.value.work
      invariant best.Some? ==> forall j :: 0 <= j < at && !KnownInvalid(status[tips[j]]) ==>
        tips[j].work < best.value.work
    {
      var tip := tips[i];
      if KnownInvalid(status[tip]) {
        continue;
      }
      if best.None? || tip.work > best.value.work {
        best, at := Some(tip), i;
      }
    }
  }

  lemma IndexedOffBest(s: ChainState, view: seq<BlockNode>)
    requires TreeOk(s) && view == Best(s)
    ensures forall h :: h in s.index ==> s.index[h] in s.status && (Shown(view, s.index[h]) <==> OnBest(s, s.index[h]))
    ensures forall h :: h in s.index && !Shown(view, s.index[h]) ==> s.index[h].parent.Some?
  {
    hide Path, WellBuilt, TreeOk;
    forall h | h in s.index
      ensures s.index[h] in s.status && (!Shown(view, s.index[h]) ==> s.index[h].parent.Some?)
    {
      IndexedKnown(s, h);
      var n := s.index[h];
      ParentKnown(s, n);
      TreeTip(s);
      PathKnown(s, s.tip);
      ParentKnown(s, s.genesis);
      OnBestIsOnPath(s, n);
    }
  }

  /** Pointing at hashes is the same as pointing at nodes, because the index is a tree found by hash. */
  lemma OrphanTips(s: ChainState, orphans: map<Hash, BlockNode>, orphanParent: set<Hash>, tips: seq<BlockNode>)
    requires TreeOk(s)
    requires forall h :: h in orphans <==> h in s.index && !OnBest(s, s.index[h])
    requires forall h :: h in orphans ==> orphans[h] == s.index[h]
    requires forall h :: h in orphanParent <==> exists c :: c in orphans && ParentHash(orphans[c]) == Some(h)
    requires forall t :: t in tips <==> exists h :: h in orphans && h !in orphanParent && orphans[h] == t
    ensures forall t :: t in tips <==> t in ChainModel.InactiveTips(s)
  {
    hide Path, WellBuilt, TreeOk, OnBest;
    forall t ensures t in tips <==> t in ChainModel.InactiveTips(s)
    {
      if t in tips {
        var h :| h in orphans && h !in orphanParent && orphans[h] == t;
        IndexedKnown(s, h);
        forall c | c in OffBest(s) ensures c.parent != Some(t)
        {
          FoundByHash(s, c);
          assert c.block.hash in orphans && orphans[c.block.hash] == c;
        }
      }
      if t in ChainModel.InactiveTips(s) {
        FoundByHash(s, t);
        var h := t.block.hash;
        forall c | c in orphans ensures ParentHash(orphans[c]) != Some(h)
        {
          IndexedKnown(s, c);
          var m := orphans[c];
          assert m in OffBest(s);
          ParentKnown(s, m);
          if m.parent.Some? {
            FoundByHash(s, m.parent.value);
          }
        }
      }
    }
  }

  lemma RestatusTwice(s: ChainState, n: BlockNode, add: Flag, remove: Flag)
    requires n in s.status && add != remove
    ensures Restatus(Restatus(s, {n}, {add}, {}), {n}, {}, {remove}) == Restatus(s, {n}, {add}, {remove})
  {
    var a, b := Restatus(Restatus(s, {n}, {add}, {}), {n}, {}, {remove}), Restatus(s, {n}, {add}, {remove});
    forall m | m in s.status ensures a.status[m] == b.status[m]
    {
      assert s.status[m] + {add} - {} + {} - {remove} == s.status[m] + {add} - {remove};
    }
    assert a.status == b.status;
    assert a.dirty == b.dirty;
  }

  lemma RestatusNothing(s: ChainState, add: Status, remove: Status)
    ensures Restatus(s, {}, add, remove) == s
  {
    assert Restatus(s, {}, add, remove).status == s.status;
  }

  lemma NothingMarked(s: ChainState)
    ensures Restatus(s, NotInvalid(s, {}), {InvalidAncestor}, {ChainModel.Valid}) == s
  {
    assert NotInvalid(s, {}) == {};
    RestatusNothing(s, {InvalidAncestor}, {ChainModel.Valid});
  }

  /** The nodes of a branch above a height. */
  ghost function Between(tip: BlockNode, n: BlockNode): set<BlockNode>
  {
    set m | m in Path(tip) && m.height > n.height
  }

  lemma BetweenStart(s: ChainState, tip: BlockNode)
    requires TreeOk(s) && tip in s.status
    ensures Between(tip, tip) == {} && OnPath(tip, tip)
    ensures forall m :: OnPath(m, tip) ==> m.height <= tip.height
  {
    hide Path, WellBuilt, TreeOk;
    ParentKnown(s, tip);
    ParentInPathSelf(tip);
    forall m | OnPath(m, tip) ensures m.height <= tip.height { OnPathByHeight(m, tip); }
  }

  lemma BetweenStep(s: ChainState, tip: BlockNode, node: BlockNode, n: BlockNode)
    requires TreeOk(s) && tip in s.status && OnPath(node, tip) && OnPath(n, tip) && n != node && n.height >= node.height
    ensures n in s.status && n.parent.Some? && OnPath(n.parent.value, tip)
    ensures n.parent.value.height == n.height - 1 && n.parent.value.height >= node.height
    ensures Between(tip, n.parent.value) == Between(tip, n) + {n}
  {
    hide Path, WellBuilt, TreeOk;
    PathKnown(s, tip);
    ParentKnown(s, tip);
    OnPathByHeight(n, tip);
    OnPathByHeight(node, tip);
    PathAt(tip, n.height);
    PathAt(tip, n.height - 1);
    forall m | m in Path(tip) ensures m.height == n.height ==> m == n { OnPathByHeight(m, tip); }
  }

  /** Marking a node if it is not invalid yet keeps count of the nodes visited. */
  lemma MarkOnce(s: ChainState, seen: set<BlockNode>, n: BlockNode)
    requires n in s.status
    ensures var cur := Restatus(s, NotInvalid(s, seen), {InvalidAncestor}, {ChainModel.Valid});
            var next := Restatus(s, NotInvalid(s, seen + {n}), {InvalidAncestor}, {ChainModel.Valid});
            && n in cur.status
            && (KnownInvalid(cur.status[n]) ==> next == cur)
            && (!KnownInvalid(cur.status[n]) ==> next == Restatus(cur, {n}, {InvalidAncestor}, {ChainModel.Valid}))
  {
    hide Restatus;
    RestatusAt(s, NotInvalid(s, seen), {InvalidAncestor}, {ChainModel.Valid}, n);
    var cur := Restatus(s, NotInvalid(s, seen), {InvalidAncestor}, {ChainModel.Valid});
    if KnownInvalid(cur.status[n]) {
      assert NotInvalid(s, seen + {n}) == NotInvalid(s, seen);
    } else {
      assert NotInvalid(s, seen + {n}) == NotInvalid(s, seen) + {n};
      RestatusMore(s, NotInvalid(s, seen), n, {InvalidAncestor}, {ChainModel.Valid});
    }
  }

  /** The nodes visited are proper descendants, and include the branches of the tips handled so far. */
  ghost predicate Covered(s: ChainState, node: BlockNode, tips: seq<BlockNode>, seen: set<BlockNode>)
  {
    && seen <= Descendants(s, node)
    && forall t :: t in tips && OnPath(node, t) ==> Between(t, node) <= seen
  }

  lemma CoveredStep(s: ChainState, node: BlockNode, tips: seq<BlockNode>, i: nat, seen: set<BlockNode>)
    requires TreeOk(s) && i < |tips| && tips[i] in s.status && Covered(s, node, tips[..i], seen)
    ensures OnPath(node, tips[i]) ==> Covered(s, node, tips[..i + 1], seen + Between(tips[i], node))
    ensures !OnPath(node, tips[i]) || tips[i] == node ==> Covered(s, node, tips[..i + 1], seen)
  {
    hide Path, WellBuilt, TreeOk;
    var t := tips[i];
    ParentKnown(s, t);
    PathKnown(s, t);
    assert tips[..i + 1] == tips[..i] + [t];
    if OnPath(node, t) {
      forall m | m in Between(t, node) ensures m in Descendants(s, node)
      {
        OnPathLinear(node, m, t);
      }
      if t == node {
        BetweenStart(s, t);
      }
    }
  }

  lemma CoveredAll(s: ChainState, node: BlockNode, tips: seq<BlockNode>, seen: set<BlockNode>)
    requires TreeOk(s) && node in s.status && node !in Best(s) && Covered(s, node, tips, seen)
    requires forall t :: t in ChainModel.InactiveTips(s) ==> t in tips
    ensures seen == Descendants(s, node)
  {
    hide Path, WellBuilt, TreeOk, ChainModel.InactiveTips, Best;
    forall m | m in Descendants(s, node) ensures m in seen
    {
      DescendantsOffBest(s, node, m);
      var t := TipAbove(s, m);
      InactiveTipKnown(s, t);
      ParentKnown(s, m);
      AncestorLower(node, m);
      OnPathTransitive(node, m, t);
      assert m in Between(t, node);
    }
  }

  lemma AncestorLower(node: BlockNode, m: BlockNode)
    requires WellBuilt(m) && OnPath(node, m) && node != m
    ensures node.height < m.height
  {
    hide Path, WellBuilt;
    OnPathByHeight(node, m);
    ParentInPathSelf(m);
    OnPathByHeight(m, m);
  }

  lemma InactiveTipKnown(s: ChainState, t: BlockNode)
    requires TreeOk(s) && t in ChainModel.InactiveTips(s)
    ensures t in s.status && WellBuilt(t)
  {
    hide Path, WellBuilt, TreeOk, ChainModel.InactiveTips;
    InactiveTipsOffBest(s, t);
    ParentKnown(s, t);
  }

  lemma AnyTipKnown(s: ChainState, inactive: seq<BlockNode>, t: BlockNode)
    requires TreeOk(s) && (t in inactive || t == s.tip) && forall m :: m in inactive <==>
      m in ChainModel.InactiveTips(s)
    ensures t in s.status && WellBuilt(t)
  {
    hide Path, WellBuilt, TreeOk, ChainModel.InactiveTips;
    TreeTip(s);
    if t in inactive { InactiveTipKnown(s, t); }
  }

  lemma CandidateFrom(s: ChainState, node: BlockNode, inactive: seq<BlockNode>, t: BlockNode)
    requires (t in inactive || t == s.tip) && forall m :: m in inactive <==> m in ChainModel.InactiveTips(s)
    ensures OnPath(node, t) ==> ReconsiderCandidate(s, node, t)
  {
    hide Path, ChainModel.InactiveTips;
  }

  lemma TipOnBest(s: ChainState)
    ensures s.tip in Best(s)
  {
    hide Path;
    ParentInPathSelf(s.tip);
  }

  lemma SkipEmpty(s: ChainState)
    ensures SkipInvalid(s, []) == []
  {
  }

  lemma AboveStep(s: ChainState, n: BlockNode, node: BlockNode)
    requires TreeOk(s) && n in Best(s) && node in Best(s) && n != node && n.height >= node.height
    ensures n in s.status && n.parent.Some? && n.parent.value in Best(s)
    ensures n.parent.value.height == n.height - 1 && n.parent.value.height >= node.height
    ensures SkipInvalid(s, DownTo(n, node.height + 1)) ==
            (if KnownInvalid(StatusOf(s, n)) then [] else [n]) + SkipInvalid(s, DownTo(n.parent.value, node.height + 1))
  {
    hide Path, WellBuilt, TreeOk, DownTo, KnownInvalid;
    TreeTip(s);
    PathKnown(s, s.tip);
    DetachStep(s, n, node);
    assert DownTo(n, node.height + 1)[1..] == DownTo(n.parent.value, node.height + 1);
  }

  lemma SelectedIsBest(s: ChainState, inactive: seq<BlockNode>, t: BlockNode, at: nat)
    requires TreeOk(s) && forall m :: m in inactive <==> m in ChainModel.InactiveTips(s)
    requires var tips := inactive + [s.tip];
             && at < |tips| && tips[at] == t && !KnownInvalid(StatusOf(s, t))
             && (forall m :: m in tips && !KnownInvalid(StatusOf(s, m)) ==> m.work <= t.work)
             && (forall j :: 0 <= j < at && !KnownInvalid(StatusOf(s, tips[j])) ==> tips[j].work < t.work)
    requires t == s.tip ==> at == |inactive|
    ensures BestCandidate(s, t)
  {
    hide Path, WellBuilt, TreeOk, ChainModel.InactiveTips, KnownInvalid;
    var tips := inactive + [s.tip];
    assert tips[|inactive|] == s.tip;
    forall m | m in ChainModel.InactiveTips(s)
      ensures m in tips && (t == s.tip && !KnownInvalid(StatusOf(s, m)) ==> m.work < t.work)
    {
      assert m in inactive;
      var j :| 0 <= j < |inactive| && inactive[j] == m;
      assert tips[j] == m;
    }
  }

  lemma FirstMark(s: ChainState, n: BlockNode)
    requires TreeOk(s) && n in s.status
    ensures var s1 := Restatus(s, {n}, {ValidateFailed}, {ChainModel.Valid});
            TreeOk(s1) && SameChain(s, s1) && n in s1.status && Best(s1) == Best(s)
  {
    hide Path, WellBuilt, TreeOk, Restatus;
    RestatusSameChain(s, {n}, {ValidateFailed}, {ChainModel.Valid});
    TreeRestatus(s, Restatus(s, {n}, {ValidateFailed}, {ChainModel.Valid}));
  }

  lemma AboveTree(s: ChainState, above: seq<BlockNode>)
    requires TreeOk(s)
    ensures TreeOk(Restatus(s, Nodes(above), {InvalidAncestor}, {ChainModel.Valid}))
    ensures SameChain(s, Restatus(s, Nodes(above), {InvalidAncestor}, {ChainModel.Valid}))
  {
    hide Path, WellBuilt, TreeOk, Restatus;
    RestatusSameChain(s, Nodes(above), {InvalidAncestor}, {ChainModel.Valid});
    TreeRestatus(s, Restatus(s, Nodes(above), {InvalidAncestor}, {ChainModel.Valid}));
  }

  lemma CandidateIsTip(s: ChainState, t: BlockNode)
    requires BestCandidate(s, t)
    ensures t == s.tip || t in ChainModel.InactiveTips(s)
  {
    hide ChainModel.InactiveTips;
  }

  lemma ClearFirst(s: ChainState, n: BlockNode)
    requires Inv(s) && n in s.status && !KnownValid(s.status[n])
    ensures Restatus(Restatus(s, {n}, {}, {InvalidAncestor}), {n}, {}, {ValidateFailed}) ==
            Restatus(s, {n}, {}, {InvalidAncestor, ValidateFailed})
    ensures n in Restatus(s, {n}, {}, {InvalidAncestor}).status
    ensures var s1 := Restatus(s, {n}, {}, {InvalidAncestor, ValidateFailed});
            && TreeOk(s1) && n in s1.status && n !in Best(s1) && Descendants(s1, n) == Descendants(s, n)
            && (forall t :: ReconsiderCandidate(s1, n, t) ==> ReconsiderCandidate(ClearMarks(s, n), n, t))
  {
    hide Path, WellBuilt, TreeOk, Steady, BestClean, Restatus, ChainModel.InactiveTips;
    ClearMarksKeepsInv(s, n);
    TipFacts(s);
    UnsetTwice(s, n);
    var s1 := Restatus(s, {n}, {}, {InvalidAncestor, ValidateFailed});
    RestatusSameChain(s, {n}, {}, {InvalidAncestor, ValidateFailed});
    RestatusSameChain(s, {n}, {}, {InvalidAncestor});
    TreeRestatus(s, s1);
    SameDescendants(s, s1, n);
    RestatusSameChain(s1, Descendants(s, n), {}, {InvalidAncestor});
    SameTips(s1, ClearMarks(s, n));
  }

  lemma UnsetTwice(s: ChainState, n: BlockNode)
    ensures Restatus(Restatus(s, {n}, {}, {InvalidAncestor}), {n}, {}, {ValidateFailed}) ==
            Restatus(s, {n}, {}, {InvalidAncestor, ValidateFailed})
  {
    var a := Restatus(Restatus(s, {n}, {}, {InvalidAncestor}), {n}, {}, {ValidateFailed});
    var b := Restatus(s, {n}, {}, {InvalidAncestor, ValidateFailed});
    forall m | m in s.status ensures a.status[m] == b.status[m]
    {
      assert s.status[m] + {} - {InvalidAncestor} + {} - {ValidateFailed} == s.status[m] +
        {} - {InvalidAncestor, ValidateFailed};
    }
    assert a.status == b.status;
    assert a.dirty == b.dirty;
  }

  lemma SameTips(s: ChainState, s': ChainState)
    requires SameChain(s, s')
    ensures ChainModel.InactiveTips(s') == ChainModel.InactiveTips(s)
  {
    hide Path;
    assert OffBest(s') == OffBest(s);
  }

  lemma ReconsiderTipFacts(s: ChainState, n: BlockNode, t: BlockNode)
    requires Inv(s) && n in s.status && !KnownValid(s.status[n]) && ReconsiderCandidate(ClearMarks(s, n), n, t)
    ensures var s1 := ClearMarks(s, n);
            Inv(s1) && TreeOk(s1) && s1.tip == s.tip && t in s1.status && t.parent.Some?
  {
    hide Path, WellBuilt, TreeOk, ClearMarks, Steady, BestClean;
    ClearMarksKeepsInv(s, n);
    TipFacts(ClearMarks(s, n));
    CandidateOffBest(ClearMarks(s, n), n, t);
  }

  lemma VerifyTree(s: ChainState, detach: seq<BlockNode>, attach: seq<BlockNode>, check: Verdicts)
    requires TreeOk(s)
    ensures var s' := Flush(Verify(s, detach, attach, check).0); TreeOk(s') && s'.status.Keys == s.status.Keys
  {
    hide Path, WellBuilt, TreeOk, Verify;
    VerifyTouchesStatus(s, detach, attach, check);
    var s1 := Verify(s, detach, attach, check).0;
    TreeRestatus(s, s1);
    TreeTip(s1);
    TreeMoves(s1, Flush(s1));
  }

  lemma ValidatedTree(s: ChainState, n: BlockNode)
    requires TreeOk(s)
    ensures TreeOk(Restatus(s, {n}, {ChainModel.Valid}, {})) && TreeOk(Flush(Restatus(s, {n}, {ChainModel.Valid}, {})))
    ensures n in s.status ==> n in Flush(Restatus(s, {n}, {ChainModel.Valid}, {})).status
  {
    hide Path, WellBuilt, TreeOk;
    var s1 := Restatus(s, {n}, {ChainModel.Valid}, {});
    TreeRestatus(s, s1);
    TreeTip(s1);
    TreeMoves(s1, Flush(s1));
  }

  /** The lists handed out hold indexed nodes, and the tree stays a tree. */
  lemma ReorganizeListsKnown(s: ChainState, n: BlockNode)
    requires Inv(s) && n in s.status && n.parent.Some?
    ensures TreeOk(ReorganizeNodes(s, n).0) && ReorganizeNodes(s, n).0.tip == s.tip
    ensures Known(ReorganizeNodes(s, n).0, ReorganizeNodes(s, n).1) &&
      Known(ReorganizeNodes(s, n).0, ReorganizeNodes(s, n).2)
  {
    hide Path, WellBuilt, TreeOk, LedgerOk, ValidSound, StoreOk, Steady, BestClean, ReorganizeNodes, DownTo;
    hide ForkLength, BranchClean;
    TipFacts(s);
    ReorganizeNodesOutcome(s, n);
    BranchFacts(s, n);
    if BranchClean(s, n) {
      ParentInPathSelf(s.tip);
      PathKnown(s, s.tip);
      DownToMembers(s, s.tip, ForkLength(s, n));
    } else {
      TipFacts(ReorganizeNodes(s, n).0);
    }
  }

  lemma DisconnectTree(s: ChainState, n: BlockNode, view: Utxo)
    requires TreeOk(s) && n in s.status
    ensures TreeOk(ChainModel.DisconnectBlock(s, n, view).0) && SameIndex(s, ChainModel.DisconnectBlock(s, n, view).0)
  {
    hide Path, WellBuilt, TreeOk, Flush, MedianTime.PastMedian;
    FlushFields(s);
    ParentKnown(s, n);
    if n.block.hash == s.tip.block.hash && n.parent.Some? {
      TreeMoves(s, ChainModel.DisconnectBlock(s, n, view).0);
    }
  }

  lemma ConnectTree(s: ChainState, n: BlockNode, u: Utxo, coins: seq<Coin>)
    requires TreeOk(s) && n in s.status
    ensures TreeOk(ChainModel.ConnectBlock(s, n, u, coins).0) && SameIndex(s, ChainModel.ConnectBlock(s, n, u, coins).0)
  {
    hide Path, WellBuilt, TreeOk, ChainModel.ConnectBlock;
    ConnectShape(s, n, u, coins);
    TreeTip(s);
    TreeMoves(s, ChainModel.ConnectBlock(s, n, u, coins).0);
  }

  lemma ConnectShape(s: ChainState, n: BlockNode, u: Utxo, coins: seq<Coin>)
    ensures var s' := ChainModel.ConnectBlock(s, n, u, coins).0; SameIndex(s, s') && (s'.tip == s.tip || s'.tip == n)
  {
    hide Path, CountSpentOutputs, SnapshotOf;
  }

  /** The nodes on the way from the tip down to `n`, itself excluded, that lack the valid flag. */
  ghost function Above(s: ChainState, n: Option<BlockNode>): set<BlockNode>
  {
    set m | m in Path(s.tip) && !KnownValid(StatusOf(s, m)) && (n.Some? ==> m.height > n.value.height)
  }

  lemma AboveStart(s: ChainState)
    requires WellBuilt(s.tip)
    ensures Above(s, Some(s.tip)) == {}
  {
    hide Path, WellBuilt;
    forall m | m in Path(s.tip) ensures m.height <= s.tip.height { OnPathByHeight(m, s.tip); }
  }

  lemma AboveNext(s: ChainState, n: BlockNode)
    requires WellBuilt(s.tip) && OnPath(n, s.tip) && forall m :: m in Path(s.tip) ==> m in s.status
    ensures n in s.status && n !in Above(s, Some(n))
    ensures Above(s, n.parent) == if KnownValid(s.status[n]) then Above(s, Some(n)) else Above(s, Some(n)) + {n}
    ensures n.parent.Some? ==> OnPath(n.parent.value, s.tip) && n.parent.value.height == n.height - 1
  {
    hide Path, WellBuilt;
    OnPathByHeight(n, s.tip);
    PathAt(s.tip, n.height);
    if n.height > 0 {
      PathAt(s.tip, n.height - 1);
    }
    forall m | m in Path(s.tip) ensures m.height == n.height ==> m == n { OnPathByHeight(m, s.tip); }
  }

  lemma AboveAll(s: ChainState)
    ensures Above(s, None) == Unvalidated(s)
  {
    hide Path;
  }

  /** The node at a lower height, found on the view or by search. */
  lemma StepDown(s: ChainState, end: BlockNode, n: BlockNode, h: nat)
    requires TreeOk(s) && WellBuilt(end) && OnPath(n, end) && h <= n.height
    ensures h < |Path(end)| && WellBuilt(Path(end)[h]) && Path(end)[h].height == h && OnPath(Path(end)[h], end)
    ensures OnBest(s, n) ==> h < |Best(s)| && Best(s)[h] == Path(end)[h]
    ensures h < |Path(n)| && Path(n)[h] == Path(end)[h]
  {
    hide Path, WellBuilt, TreeOk;
    OnPathByHeight(n, end);
    PathAt(end, n.height);
    PathAt(end, h);
    assert Path(n) == Path(end)[..n.height + 1];
    if OnBest(s, n) {
      TreeTip(s);
      PathAt(s.tip, n.height);
      assert Path(n) == Best(s)[..n.height + 1];
      assert Best(s)[h] == Path(n)[h];
    }
  }

  lemma ConnectIgnoresUtxo(s: ChainState, n: BlockNode, u: Utxo, coins: seq<Coin>)
    ensures ChainModel.ConnectBlock(s.(utxo := u), n, u, coins) == ChainModel.ConnectBlock(s, n, u, coins)
  {
    hide CountSpentOutputs, MedianTime.PastMedian;
    assert Flush(s.(utxo := u)).rows == Flush(s).rows;
  }

  lemma NodeEventsAre(n: BlockNode)
    ensures NodeEvents(n) == BlockEvents(n.block.txs, 0, n.height)
  {
  }

  lemma JudgedPresent(view: Utxo, n: BlockNode, check: Verdicts)
    requires Judge(view, n, check) == Fine
    ensures InputsPresent(view, NodeEvents(n))
  {
  }

  lemma HeightBelowTip(s: ChainState, n: BlockNode)
    requires TreeOk(s) && n in Best(s)
    ensures n.height <= s.tip.height
  {
    hide TreeOk, WellBuilt, Path;
    TreeTip(s);
    OnPathByHeight(n, s.tip);
  }

  lemma WalkKnown(s: ChainState, node: BlockNode, n: BlockNode, attach: seq<BlockNode>)
    requires TreeOk(s) && node in s.status && WalkingDown(s, node, n, attach)
    ensures n in s.status
  {
    hide TreeOk, WellBuilt, Path;
    PathKnown(s, node);
  }

  lemma DetachStep(s: ChainState, n: BlockNode, fork: BlockNode)
    requires TreeOk(s) && n in Best(s) && fork in Best(s) && n != fork && n.height >= fork.height
    ensures n.parent.Some? && n.parent.value in Best(s) && fork.height <= n.parent.value.height == n.height - 1
    ensures DownTo(n, fork.height + 1) == [n] + DownTo(n.parent.value, fork.height + 1)
  {
    hide TreeOk, WellBuilt, Path, DownTo;
    BestBelow(s, n);
    BestBelow(s, fork);
    DownToSplit(n, fork.height + 1);
  }

  lemma DownToEmpty(n: BlockNode, k: nat)
    requires n.height < k
    ensures DownTo(n, k) == []
  {
  }

  lemma RestatusMore(s: ChainState, ns: set<BlockNode>, n: BlockNode, add: Status, remove: Status)
    ensures Restatus(Restatus(s, ns, add, remove), {n}, add, remove) == Restatus(s, ns + {n}, add, remove)
  {
    var a, b := Restatus(Restatus(s, ns, add, remove), {n}, add, remove), Restatus(s, ns + {n}, add, remove);
    forall m | m in s.status ensures a.status[m] == b.status[m]
    {
      assert m == n ==> m in ns + {n};
    }
    assert a.status == b.status;
    assert a.dirty == b.dirty;
  }

  /** The walk from `node` has collected the clean nodes above `n`. */
  ghost predicate WalkingDown(s: ChainState, node: BlockNode, n: BlockNode, attach: seq<BlockNode>)
  {
    && OnPath(n, node) && n.height < |Path(node)| && attach == Path(node)[n.height + 1..]
    && forall m :: m in attach ==> !KnownInvalid(StatusOf(s, m))
  }

  lemma WalkStarts(s: ChainState, node: BlockNode)
    requires WellBuilt(node)
    ensures WalkingDown(s, node, node, [])
  {
    hide Path, WellBuilt;
    PathLength(node);
    ParentInPathSelf(node);
  }

  lemma WalkStep(s: ChainState, node: BlockNode, n: BlockNode, attach: seq<BlockNode>)
    requires TreeOk(s) && node in s.status && WalkingDown(s, node, n, attach) && !KnownInvalid(StatusOf(s, n))
    requires n.height > ForkNode(s, node).height || (n.height == ForkNode(s, node).height && n != ForkNode(s, node))
    ensures n.parent.Some? && n.height > ForkNode(s, node).height && n.parent.value.height == n.height - 1
    ensures WalkingDown(s, node, n.parent.value, [n] + attach)
  {
    hide Path, WellBuilt, TreeOk, ForkNode, Linked, KnownInvalid;
    ParentKnown(s, node);
    BranchLinked(s, node);
    OnPathByHeight(n, node);
    OnPathByHeight(ForkNode(s, node), node);
    PathAt(node, n.height);
    PathAt(node, n.height - 1);
    assert Path(node)[n.height - 1] == n.parent.value && OnPath(n.parent.value, node);
    assert [n] + attach == Path(node)[n.height..];
  }

  lemma {:induction false} CleanSuffixIs(s: ChainState, ns: seq<BlockNode>, j: nat)
    requires j <= |ns| && (j > 0 ==> KnownInvalid(StatusOf(s, ns[j - 1])))
    requires forall m :: m in ns[j..] ==> !KnownInvalid(StatusOf(s, m))
    ensures CleanSuffix(s, ns) == ns[j..]
    decreases |ns|
  {
    if j < |ns| {
      var last := ns[|ns| - 1];
      assert last == ns[j..][|ns| - j - 1];
      assert ns[..|ns| - 1][j..] + [last] == ns[j..];
      forall m | m in ns[..|ns| - 1][j..] ensures m in ns[j..] { assert m in ns[..|ns| - 1][j..] + [last]; }
      CleanSuffixIs(s, ns[..|ns| - 1], j);
    }
  }

  /** What the walk collected is the clean end of the branch; it is the whole branch unless an invalid node was met. */
  lemma WalkEnds(s: ChainState, node: BlockNode, n: BlockNode, attach: seq<BlockNode>, invalidChain: bool)
    requires TreeOk(s) && node in s.status && WalkingDown(s, node, n, attach) && n.height >= ForkNode(s, node).height
    requires if invalidChain then n != ForkNode(s, node) && KnownInvalid(StatusOf(s, n)) else n == ForkNode(s, node)
    ensures attach == CleanSuffix(s, Branch(s, node)) && Known(s, attach)
    ensures invalidChain <==> |attach| < |Branch(s, node)|
  {
    hide Path, WellBuilt, TreeOk, ForkNode, CleanSuffix, Branch, ForkLength;
    WalkIndex(s, node, n, attach);
    PathKnown(s, node);
    CleanSuffixIs(s, Branch(s, node), n.height - ForkNode(s, node).height);
  }

  /** Where the walk stands on the branch. */
  lemma WalkIndex(s: ChainState, node: BlockNode, n: BlockNode, attach: seq<BlockNode>)
    requires TreeOk(s) && node in s.status && WalkingDown(s, node, n, attach) && n.height >= ForkNode(s, node).height
    ensures var branch, j := Branch(s, node), n.height - ForkNode(s, node).height;
            && j <= |branch| && branch[j..] == attach
            && (j == 0 <==> n == ForkNode(s, node)) && (j > 0 ==> branch[j - 1] == n)
  {
    hide Path, WellBuilt, TreeOk, ForkNode, Linked, CommonLength;
    ParentKnown(s, node);
    BranchLinked(s, node);
    ForkHeight(s, node);
    OnPathByHeight(n, node);
    OnPathByHeight(ForkNode(s, node), node);
    BelowIndex(Path(node), ForkLength(s, node), n.height);
  }

  lemma BelowIndex(path: seq<BlockNode>, k: nat, h: nat)
    requires k <= h + 1 <= |path|
    ensures path[k..][h + 1 - k..] == path[h + 1..] && (h >= k ==> path[k..][h - k] == path[h])
  {
  }

  lemma ForkHeight(s: ChainState, node: BlockNode)
    requires TreeOk(s) && node in s.status
    ensures ForkLength(s, node) >= 1 && ForkNode(s, node).height + 1 == ForkLength(s, node)
    ensures ForkNode(s, node).height < |Best(s)| && ForkNode(s, node).height <= node.height
  {
    hide TreeOk, WellBuilt, Path, CommonLength;
    BranchLinked(s, node);
    TreeTip(s);
    PathAt(s.tip, ForkLength(s, node) - 1);
    ParentKnown(s, node);
    OnPathByHeight(ForkNode(s, node), node);
  }

  lemma NotForkYet(s: ChainState, node: BlockNode, n: BlockNode)
    requires TreeOk(s) && node in s.status && OnPath(n, node) && n.height >= ForkNode(s, node).height && !OnBest(s, n)
    ensures n.parent.Some? && OnPath(n.parent.value, node)
    ensures n.parent.value.height == n.height - 1 && n.parent.value.height >= ForkNode(s, node).height
  {
    hide TreeOk, WellBuilt, Path, ForkLength;
    ParentKnown(s, node);
    BranchLinked(s, node);
    OnPathByHeight(n, node);
    OnPathByHeight(ForkNode(s, node), node);
    OnBestIsOnPath(s, ForkNode(s, node));
    assert n.height > ForkNode(s, node).height;
    PathAt(node, n.height);
    PathAt(node, n.height - 1);
  }

  lemma AtFork(s: ChainState, node: BlockNode, n: BlockNode)
    requires TreeOk(s) && node in s.status && OnPath(n, node) && n.height >= ForkNode(s, node).height && OnBest(s, n)
    ensures n == ForkNode(s, node)
  {
    hide TreeOk, WellBuilt, Path, ForkNode;
    ParentKnown(s, node);
    BranchLinked(s, node);
    BranchMembers(s, node, n);
    OnBestIsOnPath(s, n);
    OnPathByHeight(n, node);
    ForkHeight(s, node);
    if n.height <= ForkNode(s, node).height {
      OnPathByHeight(ForkNode(s, node), node);
    }
  }
}
