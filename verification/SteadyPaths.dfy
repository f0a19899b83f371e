/** Conditions on documents and paths under which shared values do not lead removals and replacements astray. */
module SteadyPaths {
  import opened Strings
  import opened Trees
  import opened Graph
  import opened Removals
  import opened SharedRemoving
  import opened SharedDocuments
  import opened Scans
  import opened Marking
  import opened Striking
  import opened Layouts

  // ----- the conditions, on trees

  /** No tree on the way to the places of the path is one of the trees; the places may be. */
  ghost predicate ParentsClear(t: Tree, path: seq<Move>, shared: set<Tree>)
    requires path != []
    decreases |path|
  {
    Found(t, path) ==>
      && t !in shared
      && (|path| > 1 ==>
            forall i :: 0 <= i < |t.children| && Selects(t.kind, Values(t.children), path[0], i) ==>
              ParentsClear(t.children[i], path[1..], shared))
  }

  /** A value as deep as the places of a path, and whether it is a place that meets the condition. */
  datatype Sight = Sight(tree: Tree, chosen: bool)

  /** All values as deep as the places of the path, in document order. */
  ghost function Sights(t: Tree, path: seq<Move>, on: bool, cond: Tree -> bool): seq<Sight>
    requires path != []
    decreases |path|, |t.children| + 1
  {
    SightsFrom(t, path, on, cond, 0)
  }

  ghost function SightsFrom(t: Tree, path: seq<Move>, on: bool, cond: Tree -> bool, i: nat): seq<Sight>
    requires path != [] && i <= |t.children|
    decreases |path|, |t.children| - i
  {
    if i == |t.children| then [] else SightsAt(t, path, on, cond, i) + SightsFrom(t, path, on, cond, i + 1)
  }

  ghost function SightsAt(t: Tree, path: seq<Move>, on: bool, cond: Tree -> bool, i: nat): seq<Sight>
    requires path != [] && i < |t.children|
    decreases |path|, 0
  {
    var selected := on && Selects(t.kind, Values(t.children), path[0], i);
    if |path| > 1 then Sights(t.children[i], path[1..], selected, cond)
    else if ValueAt(t.kind, i) then [Sight(t.children[i], selected && cond(t.children[i]))]
    else []
  }

  /** Of the values that stand for the same shared tree the chosen ones come first. */
  ghost predicate FirstChosen(sights: seq<Sight>, shared: set<Tree>) {
    forall j, k ::
      0 <= j < k < |sights| && sights[k].chosen && sights[k].tree in shared && sights[j].tree == sights[k].tree ==>
      sights[j].chosen
  }

  /** No list the path leads to holds a chosen shared tree twice. */
  ghost predicate OncePerList(t: Tree, path: seq<Move>, cond: Tree -> bool, shared: set<Tree>)
    requires path != []
    decreases |path|
  {
    if |path| > 1 then
      forall i :: 0 <= i < |t.children| && Selects(t.kind, Values(t.children), path[0], i) ==>
        OncePerList(t.children[i], path[1..], cond, shared)
    else
      t.kind == SequenceNode ==>
        forall i: nat, j: nat :: i != j && j < |t.children| && ChosenAt(t, path[0], cond, i) ==>
          t.children[i] in shared ==> t.children[j] != t.children[i]
  }

  ghost predicate ChosenAt(t: Tree, move: Move, cond: Tree -> bool, i: nat) {
    i < |t.children| && Selects(t.kind, Values(t.children), move, i) && cond(t.children[i])
  }

  /** The replacements of the path take the places they are meant to take. */
  ghost predicate SteadyPut(t: Tree, path: seq<Move>, cond: Tree -> bool, shared: set<Tree>)
    requires path != []
  {
    ParentsClear(t, path, shared) && FirstChosen(Sights(t, path, true, cond), shared)
  }

  /** The removals of the path take the places they are meant to take. */
  ghost predicate Steady(t: Tree, path: seq<Move>, cond: Tree -> bool, shared: set<Tree>)
    requires path != []
  {
    SteadyPut(t, path, cond, shared) && OncePerList(t, path, cond, shared)
  }

  /** Without shared trees all paths are steady. */
  lemma {:induction false} SteadyOfNothing(t: Tree, path: seq<Move>, cond: Tree -> bool)
    requires path != []
    ensures ParentsClear(t, path, {}) && OncePerList(t, path, cond, {}) && Steady(t, path, cond, {})
    decreases |path|
  {
    if |path| > 1 {
      forall i | 0 <= i < |t.children|
        ensures ParentsClear(t.children[i], path[1..], {}) && OncePerList(t.children[i], path[1..], cond, {})
      {
        SteadyOfNothing(t.children[i], path[1..], cond);
      }
    }
  }

  // ----- sights and marks

  ghost predicate SeenAs<T>(g: Heap<T>, marks: seq<Mark<T>>, sights: seq<Sight>) {
    && |marks| == |sights|
    && forall k :: 0 <= k < |marks| ==> Repr(g, marks[k].node, sights[k].tree) && marks[k].chosen == sights[k].chosen
  }

  lemma {:induction false} SeenConcat<T>(g: Heap<T>, a: seq<Mark<T>>, b: seq<Mark<T>>, x: seq<Sight>, y: seq<Sight>)
    requires SeenAs(g, a, x) && SeenAs(g, b, y)
    ensures SeenAs(g, a + b, x + y)
  {
    forall k | 0 <= k < |a + b|
      ensures Repr(g, (a + b)[k].node, (x + y)[k].tree) && (a + b)[k].chosen == (x + y)[k].chosen
    {
      if k >= |a| {
        assert (a + b)[k] == b[k - |a|] && (x + y)[k] == y[k - |a|];
      }
    }
  }

  lemma {:induction false} MarksSeen<T>(g: Heap<T>, n: T, t: Tree, path: seq<Move>, on: bool, cond: Tree -> bool,
                                        whole: bool)
    requires Repr(g, n, t) && path != []
    ensures SeenAs(g, Marks(g, n, t, path, on, cond, whole), Sights(t, path, on, cond))
    decreases |path|, |t.children| + 1
  {
    MarksSeenFrom(g, n, t, path, on, cond, 0, whole);
  }

  lemma {:induction false} MarksSeenFrom<T>(g: Heap<T>, n: T, t: Tree, path: seq<Move>, on: bool, cond: Tree -> bool,
                                            i: nat, whole: bool)
    requires Repr(g, n, t) && path != [] && i <= |t.children|
    ensures SeenAs(g, MarksFrom(g, n, t, path, on, cond, i, whole), SightsFrom(t, path, on, cond, i))
    decreases |path|, |t.children| - i
  {
    if i < |t.children| {
      MarksSeenFrom(g, n, t, path, on, cond, i + 1, whole);
      if |path| > 1 {
        MarksSeen(g, g[n].content[i], t.children[i], path[1..], on && Selects(t.kind, Values(t.children), path[0], i),
            cond, whole);
      }
      SeenConcat(g, MarksAt(g, n, t, path, on, cond, i, whole), MarksFrom(g, n, t, path, on, cond, i + 1, whole),
          SightsAt(t, path, on, cond, i), SightsFrom(t, path, on, cond, i + 1));
    }
  }

  // ----- where marks are

  lemma {:induction false} MarkMember<T>(g: Heap<T>, n: T, t: Tree, path: seq<Move>, on: bool, cond: Tree -> bool,
                                         i: nat, whole: bool, m: Mark<T>) returns (k: nat)
    requires Repr(g, n, t) && path != [] && i <= |t.children| && m in MarksFrom(g, n, t, path, on, cond, i, whole)
    ensures i <= k < |t.children| && m in MarksAt(g, n, t, path, on, cond, k, whole)
    decreases |t.children| - i
  {
    if m in MarksAt(g, n, t, path, on, cond, i, whole) {
      k := i;
    } else {
      k := MarkMember(g, n, t, path, on, cond, i + 1, whole, m);
    }
  }

  /** Marks speak of nodes of the document; chosen ones show that the path leads somewhere. */
  lemma {:induction false} MarkWithin<T>(g: Heap<T>, n: T, t: Tree, path: seq<Move>, on: bool, cond: Tree -> bool,
                                         whole: bool, m: Mark<T>)
    requires Repr(g, n, t) && path != [] && m in Marks(g, n, t, path, on, cond, whole)
    ensures m.holder in Reach(g, n, t) && (m.chosen ==> on && Found(t, path))
    decreases |path|
  {
    var k := MarkMember(g, n, t, path, on, cond, 0, whole, m);
    if |path| > 1 {
      MarksAtIs(g, n, t, path, on, cond, k, whole);
      ReachChild(g, n, t, k);
      hide Marks, MarksAt, MarksFrom, Reach;
      MarkWithin(g, g[n].content[k], t.children[k], path[1..],
          on && Selects(t.kind, Values(t.children), path[0], k), cond, whole, m);
    } else {
      assert path[1..] == [];
    }
  }

  lemma {:induction false} ParentsBelow(t: Tree, path: seq<Move>, shared: set<Tree>, i: nat)
    requires |path| > 1 && ParentsClear(t, path, shared) && i < |t.children|
    requires Selects(t.kind, Values(t.children), path[0], i)
    ensures ParentsClear(t.children[i], path[1..], shared)
  {
  }

  lemma {:induction false} ParentClear(t: Tree, path: seq<Move>, shared: set<Tree>)
    requires path != [] && ParentsClear(t, path, shared) && Found(t, path)
    ensures t !in shared
  {
  }

  /** Of two nodes that both lead to the holder of a chosen place one leads to the other. */
  lemma {:induction false} MarkRelated<T>(g: Heap<T>, nodes: set<T>, rank: map<T, nat>, shared: set<Tree>, a: T,
                                          ta: Tree, path: seq<Move>, on: bool, cond: Tree -> bool, whole: bool,
                                          m: Mark<T>, b: T, tb: Tree)
    requires Laid(g, nodes, rank, shared) && a in nodes && Repr(g, a, ta) && path != []
    requires ParentsClear(ta, path, shared) && m in Marks(g, a, ta, path, on, cond, whole) && m.chosen
    requires b in nodes && Repr(g, b, tb) && m.holder in Reach(g, b, tb)
    ensures a in Reach(g, b, tb) || b in Reach(g, a, ta)
    ensures tb in shared ==> a in Reach(g, b, tb) && a != b
    decreases |path|
  {
    MarkWithin(g, a, ta, path, on, cond, whole, m);
    ParentClear(ta, path, shared);
    ReachInHeap(g, a, ta);
    if a == b {
      OneTree(g, a, ta, tb);
    } else {
      var k := MarkMember(g, a, ta, path, on, cond, 0, whole, m);
      if |path| > 1 {
        MarksAtIs(g, a, ta, path, on, cond, k, whole);
        var c, tc := g[a].content[k], ta.children[k];
        var selected := on && Selects(ta.kind, Values(ta.children), path[0], k);
        ChildRanked(g, nodes, rank, a, ta, k);
        ReachChild(g, a, ta, k);
        MarkWithin(g, c, tc, path[1..], selected, cond, whole, m);
        ParentsBelow(ta, path, shared, k);
        hide ParentsClear, Found, Marks, MarksAt, Ranked, Laid;
        MarkRelated(g, nodes, rank, shared, c, tc, path[1..], selected, cond, whole, m, b, tb);
        ParentClear(tc, path[1..], shared);
        if c in Reach(g, b, tb) {
          OneUp(g, nodes, rank, shared, a, ta, k, b, tb);
          ReachInHeap(g, c, tc);
        }
      }
    }
  }

  // ----- no two positions go together

  /** A position of one list and one of the other do not go together, if one of them was chosen. */
  ghost predicate Unrelated<T>(a: seq<Mark<T>>, b: seq<Mark<T>>) {
    forall m, o :: m in a && o in b && (m.chosen || o.chosen) ==> UnitOf(m) != UnitOf(o)
  }

  lemma {:induction false} SinglyConcat<T>(a: seq<Mark<T>>, b: seq<Mark<T>>)
    requires Singly(a) && Singly(b) && Unrelated(a, b)
    ensures Singly(a + b)
  {
    var all := a + b;
    forall j: nat, k: nat | j < |all| && k < |all| && j != k && all[k].chosen
      ensures UnitOf(all[j]) != UnitOf(all[k])
    {
      assert all[j] == (if j < |a| then a[j] else b[j - |a|]) && all[k] == (if k < |a| then a[k] else b[k - |a|]);
      if j < |a| <= k {
        assert a[j] in a && b[k - |a|] in b;
      } else if k < |a| <= j {
        assert a[k] in a && b[j - |a|] in b;
      }
    }
  }

  /** What the marks below one node need. */
  ghost predicate Settled<T>(g: Heap<T>, nodes: set<T>, rank: map<T, nat>, shared: set<Tree>, n: T, t: Tree,
                             path: seq<Move>, on: bool, cond: Tree -> bool, whole: bool) {
    && Laid(g, nodes, rank, shared) && n in nodes && Repr(g, n, t) && path != []
    && (on ==> ParentsClear(t, path, shared) && (whole ==> OncePerList(t, path, cond, shared)))
  }

  /** Positions below different children. */
  lemma {:induction false} AcrossApart<T>(g: Heap<T>, nodes: set<T>, rank: map<T, nat>, shared: set<Tree>, n: T,
                                          t: Tree, path: seq<Move>, on: bool, cond: Tree -> bool, whole: bool, i: nat,
                                          j: nat, m: Mark<T>, o: Mark<T>)
    requires Settled(g, nodes, rank, shared, n, t, path, on, cond, whole) && |path| > 1
    requires i < |t.children| && j < |t.children| && i != j && m.chosen
    requires m in MarksAt(g, n, t, path, on, cond, i, whole) && o in MarksAt(g, n, t, path, on, cond, j, whole)
    ensures UnitOf(m) != UnitOf(o)
  {
    MarksAtIs(g, n, t, path, on, cond, i, whole);
    MarksAtIs(g, n, t, path, on, cond, j, whole);
    var a, ta, b, tb := g[n].content[i], t.children[i], g[n].content[j], t.children[j];
    ChildRanked(g, nodes, rank, n, t, i);
    ChildRanked(g, nodes, rank, n, t, j);
    var selected := on && Selects(t.kind, Values(t.children), path[0], i);
    hide Marks, MarksAt, ParentsClear, OncePerList, Laid, Ranked, Reach;
    MarkWithin(g, a, ta, path[1..], selected, cond, whole, m);
    MarkWithin(g, b, tb, path[1..], on && Selects(t.kind, Values(t.children), path[0], j), cond, whole, o);
    assert Found(t, path);
    ParentsBelow(t, path, shared, i);
    ParentClear(ta, path[1..], shared);
    Siblings(g, nodes, rank, shared, n, t, i, j);
    if m.holder == o.holder {
      MarkRelated(g, nodes, rank, shared, a, ta, path[1..], selected, cond, whole, m, b, tb);
    }
  }

  /** Positions of one node. */
  lemma {:induction false} RowApart<T>(g: Heap<T>, nodes: set<T>, rank: map<T, nat>, shared: set<Tree>, n: T, t: Tree,
                                       path: seq<Move>, on: bool, cond: Tree -> bool, whole: bool, i: nat, j: nat,
                                       m: Mark<T>, o: Mark<T>)
    requires Settled(g, nodes, rank, shared, n, t, path, on, cond, whole) && |path| == 1
    requires i < |t.children| && j < |t.children| && i != j && m.chosen
    requires m in MarksAt(g, n, t, path, on, cond, i, whole) && o in MarksAt(g, n, t, path, on, cond, j, whole)
    ensures UnitOf(m) != UnitOf(o)
  {
    if UnitOf(m) == UnitOf(o) {
      assert m.index == i && o.index == j && m.node == o.node;
      OneTree(g, m.node, t.children[i], t.children[j]);
      assert ChosenAt(t, path[0], cond, i);
      assert Entry(g, nodes, n, i) && Entry(g, nodes, n, j);
      if t.children[i] !in shared {
        SameEntry(g, nodes, shared, n, i, n, j, t.children[i]);
      }
    }
  }

  lemma {:induction false} MarksApart<T>(g: Heap<T>, nodes: set<T>, rank: map<T, nat>, shared: set<Tree>, n: T, t: Tree,
                                         path: seq<Move>, on: bool, cond: Tree -> bool, whole: bool, i: nat)
    requires Settled(g, nodes, rank, shared, n, t, path, on, cond, whole) && Repr(g, n, t) && path != []
    requires i < |t.children|
    ensures Unrelated(MarksAt(g, n, t, path, on, cond, i, whole), MarksFrom(g, n, t, path, on, cond, i + 1, whole))
  {
    var here, rest := MarksAt(g, n, t, path, on, cond, i, whole), MarksFrom(g, n, t, path, on, cond, i + 1, whole);
    hide Settled, MarksAt, MarksFrom;
    forall m, o | m in here && o in rest && (m.chosen || o.chosen)
      ensures UnitOf(m) != UnitOf(o)
    {
      var j := MarkMember(g, n, t, path, on, cond, i + 1, whole, o);
      if |path| > 1 {
        if m.chosen {
          AcrossApart(g, nodes, rank, shared, n, t, path, on, cond, whole, i, j, m, o);
        } else {
          AcrossApart(g, nodes, rank, shared, n, t, path, on, cond, whole, j, i, o, m);
        }
      } else {
        if m.chosen {
          RowApart(g, nodes, rank, shared, n, t, path, on, cond, whole, i, j, m, o);
        } else {
          RowApart(g, nodes, rank, shared, n, t, path, on, cond, whole, j, i, o, m);
        }
      }
    }
  }

  lemma {:induction false} SettledChild<T>(g: Heap<T>, nodes: set<T>, rank: map<T, nat>, shared: set<Tree>, n: T,
                                           t: Tree, path: seq<Move>, on: bool, cond: Tree -> bool, whole: bool, i: nat)
    requires Settled(g, nodes, rank, shared, n, t, path, on, cond, whole) && Repr(g, n, t) && |path| > 1
    requires i < |t.children|
    ensures Settled(g, nodes, rank, shared, g[n].content[i], t.children[i], path[1..],
                on && Selects(t.kind, Values(t.children), path[0], i), cond, whole)
  {
    ChildRanked(g, nodes, rank, n, t, i);
    if on && Selects(t.kind, Values(t.children), path[0], i) {
      ParentsBelow(t, path, shared, i);
    }
  }

  lemma {:induction false} RowSingle<T>(g: Heap<T>, n: T, t: Tree, path: seq<Move>, on: bool, cond: Tree -> bool,
                                        i: nat, whole: bool)
    requires Repr(g, n, t) && |path| == 1 && i < |t.children|
    ensures Singly(MarksAt(g, n, t, path, on, cond, i, whole))
  {
  }

  lemma {:induction false} SettledSingly<T>(g: Heap<T>, nodes: set<T>, rank: map<T, nat>, shared: set<Tree>, n: T,
                                            t: Tree, path: seq<Move>, on: bool, cond: Tree -> bool, whole: bool)
    requires Settled(g, nodes, rank, shared, n, t, path, on, cond, whole) && Repr(g, n, t) && path != []
    ensures Singly(Marks(g, n, t, path, on, cond, whole))
    decreases |path|, |t.children| + 1
  {
    SettledSinglyFrom(g, nodes, rank, shared, n, t, path, on, cond, whole, 0);
  }

  lemma {:induction false} SettledSinglyFrom<T>(g: Heap<T>, nodes: set<T>, rank: map<T, nat>, shared: set<Tree>, n: T,
                                                t: Tree, path: seq<Move>, on: bool, cond: Tree -> bool, whole: bool,
                                                i: nat)
    requires Settled(g, nodes, rank, shared, n, t, path, on, cond, whole) && Repr(g, n, t) && path != []
    requires i <= |t.children|
    ensures Singly(MarksFrom(g, n, t, path, on, cond, i, whole))
    decreases |path|, |t.children| - i
  {
    if i < |t.children| {
      SettledSinglyFrom(g, nodes, rank, shared, n, t, path, on, cond, whole, i + 1);
      MarksApart(g, nodes, rank, shared, n, t, path, on, cond, whole, i);
      if |path| > 1 {
        SettledChild(g, nodes, rank, shared, n, t, path, on, cond, whole, i);
        MarksAtIs(g, n, t, path, on, cond, i, whole);
        SettledSingly(g, nodes, rank, shared, g[n].content[i], t.children[i], path[1..],
            on && Selects(t.kind, Values(t.children), path[0], i), cond, whole);
      } else {
        RowSingle(g, n, t, path, on, cond, i, whole);
      }
      hide Settled, Singly, Unrelated, Marks, MarksAt;
      SinglyConcat(MarksAt(g, n, t, path, on, cond, i, whole), MarksFrom(g, n, t, path, on, cond, i + 1, whole));
    }
  }

  // ----- the chosen positions come first

  /** Two positions that do not go together are different entries. */
  lemma {:induction false} SettledForemost<T>(g: Heap<T>, nodes: set<T>, rank: map<T, nat>, shared: set<Tree>, n: T,
                                              t: Tree, path: seq<Move>, cond: Tree -> bool, whole: bool)
    requires Settled(g, nodes, rank, shared, n, t, path, true, cond, whole) && Repr(g, n, t) && path != []
    requires FirstChosen(Sights(t, path, true, cond), shared)
    ensures Foremost(Marks(g, n, t, path, true, cond, whole))
  {
    var marks, sights := Marks(g, n, t, path, true, cond, whole), Sights(t, path, true, cond);
    SettledSingly(g, nodes, rank, shared, n, t, path, true, cond, whole);
    MarksSeen(g, n, t, path, true, cond, whole);
    assert n in rank;
    MarksAre(g, nodes, rank, rank[n] + |path|, n, t, path, true, cond, whole);
    hide Marks, Sights, Ranked, HeldOnceOr, Repr, ParentsClear, OncePerList;
    forall j: nat, k: nat | j < k < |marks| && marks[k].chosen && marks[j].node == marks[k].node
      ensures marks[j].chosen
    {
      assert marks[j] in marks && marks[k] in marks;
      OneTree(g, marks[k].node, sights[j].tree, sights[k].tree);
      DifferentShared(g, nodes, rank, shared, rank[n] + |path|, whole, marks[j], marks[k], sights[k].tree);
      assert sights[k].chosen;
    }
  }

  lemma {:induction false} DifferentShared<T>(g: Heap<T>, nodes: set<T>, rank: map<T, nat>, shared: set<Tree>, d: nat,
                                              whole: bool, m: Mark<T>, o: Mark<T>, s: Tree)
    requires Laid(g, nodes, rank, shared) && MarkOf(g, nodes, rank, d, m, whole) && MarkOf(g, nodes, rank, d, o, whole)
    requires m.node == o.node && UnitOf(m) != UnitOf(o) && Repr(g, o.node, s)
    ensures s in shared
  {
    assert Entry(g, nodes, m.holder, m.index) && Entry(g, nodes, o.holder, o.index);
    if s !in shared {
      SameEntry(g, nodes, shared, m.holder, m.index, o.holder, o.index, s);
    }
  }

  /** In a laid out document steady removals take exactly the chosen positions. */
  lemma {:induction false} SteadyMarks<T>(g: Heap<T>, n: T, t: Tree, path: seq<Move>, cond: Tree -> bool,
                                          rank: map<T, nat>, shared: set<Tree>, whole: bool)
    requires LaidDoc(g, n, t, rank, shared) && path != [] && SteadyPut(t, path, cond, shared)
    requires whole ==> OncePerList(t, path, cond, shared)
    ensures var marks := Marks(g, n, t, path, true, cond, whole); Foremost(marks) && Singly(marks)
  {
    ReachInHeap(g, n, t);
    hide ParentsClear, OncePerList, Repr, Reach, Laid, Foremost, Singly;
    SettledSingly(g, Reach(g, n, t), rank, shared, n, t, path, true, cond, whole);
    SettledForemost(g, Reach(g, n, t), rank, shared, n, t, path, cond, whole);
  }

  // ----- paths that keep clear of the shared trees

  lemma {:induction false} SightsStart(t: Tree, path: seq<Move>, on: bool, cond: Tree -> bool)
    requires path != []
    ensures Sights(t, path, on, cond) == SightsFrom(t, path, on, cond, 0)
  {
  }

  /** Chosen sights are places of the path that meet the condition. */
  lemma {:induction false} SightChosen(t: Tree, path: seq<Move>, on: bool, cond: Tree -> bool, i: nat, s: Sight,
                                       shared: set<Tree>)
    requires path != [] && i <= |t.children| && s in SightsFrom(t, path, on, cond, i) && s.chosen
    requires Clear(t, path, shared)
    ensures s.tree !in shared && Found(t, path)
    decreases |path|, |t.children| - i
  {
    if s in SightsAt(t, path, on, cond, i) {
      if |path| > 1 {
        if Selects(t.kind, Values(t.children), path[0], i) {
          SightChosenBelow(t, path, on, cond, i, s, shared);
        } else {
          SightsStart(t.children[i], path[1..], false, cond);
          OffSights(t.children[i], path[1..], cond, 0, s);
        }
      } else {
        assert path[1..] == [] && Found(t.children[i], path[1..]);
      }
    } else {
      SightChosen(t, path, on, cond, i + 1, s, shared);
    }
  }

  lemma {:induction false} SightChosenBelow(t: Tree, path: seq<Move>, on: bool, cond: Tree -> bool, i: nat, s: Sight,
                                            shared: set<Tree>)
    requires |path| > 1 && i < |t.children| && s in SightsAt(t, path, on, cond, i) && s.chosen
    requires Clear(t, path, shared) && Selects(t.kind, Values(t.children), path[0], i)
    ensures s.tree !in shared && Found(t, path)
    decreases |path|, 0
  {
    ClearBelow(t, path, shared, i);
    SightsStart(t.children[i], path[1..], on, cond);
    SightChosen(t.children[i], path[1..], on, cond, 0, s, shared);
  }

  lemma {:induction false} OffSights(t: Tree, path: seq<Move>, cond: Tree -> bool, i: nat, s: Sight)
    requires path != [] && i <= |t.children| && s in SightsFrom(t, path, false, cond, i)
    ensures !s.chosen
    decreases |path|, |t.children| - i
  {
    if s in SightsAt(t, path, false, cond, i) {
      if |path| > 1 {
        SightsStart(t.children[i], path[1..], false, cond);
        OffSights(t.children[i], path[1..], cond, 0, s);
      }
    } else {
      OffSights(t, path, cond, i + 1, s);
    }
  }

  lemma {:induction false} ClearParents(t: Tree, path: seq<Move>, cond: Tree -> bool, shared: set<Tree>)
    requires path != [] && Clear(t, path, shared)
    ensures ParentsClear(t, path, shared) && OncePerList(t, path, cond, shared)
    decreases |path|
  {
    if |path| > 1 {
      forall i | 0 <= i < |t.children| && Selects(t.kind, Values(t.children), path[0], i)
        ensures ParentsClear(t.children[i], path[1..], shared) && OncePerList(t.children[i], path[1..], cond, shared)
      {
        ClearBelow(t, path, shared, i);
        ClearParents(t.children[i], path[1..], cond, shared);
      }
    } else {
      forall i: nat | ChosenAt(t, path[0], cond, i)
        ensures t.children[i] !in shared
      {
        assert path[1..] == [] && Found(t.children[i], path[1..]) && Found(t, path);
        ClearBelow(t, path, shared, i);
      }
    }
  }

  /** A path on which nothing is one of the shared trees is steady. */
  lemma {:induction false} ClearSteady(t: Tree, path: seq<Move>, cond: Tree -> bool, shared: set<Tree>)
    requires path != [] && Clear(t, path, shared)
    ensures Steady(t, path, cond, shared)
  {
    ClearParents(t, path, cond, shared);
    var sights := Sights(t, path, true, cond);
    hide Sights, Clear, ParentsClear, OncePerList;
    forall k | 0 <= k < |sights| && sights[k].chosen
      ensures sights[k].tree !in shared
    {
      assert sights[k] in sights;
      SightsStart(t, path, true, cond);
      SightChosen(t, path, true, cond, 0, sights[k], shared);
    }
  }
}
