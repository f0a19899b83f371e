/** When replacements in a document with shared nodes are the rewrite they are meant to be. */
module PlacedTrees {
  import opened Strings
  import opened Trees
  import opened Graph
  import opened Holders
  import opened Removals
  import opened SharedRemoving
  import opened SharedDocuments
  import opened Scans
  import opened Marking
  import opened Striking
  import opened StruckTrees
  import opened Patches
  import opened Placing

  // ----- documents with a value at some positions

  /** The heap with w at the positions. */
  ghost function PutHeap<T>(g: Heap<T>, units: set<Unit<T>>, w: T): Heap<T> {
    map p | p in g :: g[p].(content := PutRow(g, p, units, w))
  }

  ghost function PutRow<T>(g: Heap<T>, p: T, units: set<Unit<T>>, w: T): seq<T>
    requires p in g
  {
    seq(|g[p].content|,
        i requires 0 <= i < |g[p].content| => if UnitAt(g, p, i, false) in units then w else g[p].content[i])
  }

  ghost function PutTree<T>(g: Heap<T>, n: T, t: Tree, units: set<Unit<T>>, wt: Tree): Tree
    requires Repr(g, n, t)
    decreases t
  {
    t.(children := seq(|t.children|, i requires 0 <= i < |t.children| =>
        if UnitAt(g, n, i, false) in units then wt else PutTree(g, g[n].content[i], t.children[i], units, wt)))
  }

  lemma {:induction false} PutRepr<T>(g: Heap<T>, n: T, t: Tree, units: set<Unit<T>>, w: T, wt: Tree)
    requires Repr(g, n, t) && Repr(PutHeap(g, units, w), w, wt)
    ensures Repr(PutHeap(g, units, w), n, PutTree(g, n, t, units, wt))
    decreases t
  {
    forall i | 0 <= i < |t.children|
      ensures Repr(PutHeap(g, units, w), PutHeap(g, units, w)[n].content[i], PutTree(g, n, t, units, wt).children[i])
    {
      if UnitAt(g, n, i, false) !in units {
        PutRepr(g, g[n].content[i], t.children[i], units, w, wt);
      }
    }
  }

  /** Positions of values one step above depth d. */
  ghost predicate Sowable<T>(g: Heap<T>, nodes: set<T>, rank: map<T, nat>, d: nat, units: set<Unit<T>>) {
    && nodes <= g.Keys && nodes <= rank.Keys
    && forall u :: u in units ==> u.holder in nodes && rank[u.holder] + 1 == d
                                  && u.index < |g[u.holder].content| && ValueAt(g[u.holder].kind, u.index)
  }

  lemma {:induction false} RowSame<T>(g: Heap<T>, nodes: set<T>, rank: map<T, nat>, d: nat, units: set<Unit<T>>, w: T,
                                      p: T)
    requires Sowable(g, nodes, rank, d, units) && p in g && (p in nodes ==> rank[p] + 1 != d)
    ensures PutHeap(g, units, w)[p] == g[p]
  {
    assert PutRow(g, p, units, w) == g[p].content;
  }

  // ----- the document and the value

  /** A document in which every node has one depth, and a value outside of it that is as deep as the places. */
  ghost predicate Field<T>(g: Heap<T>, nodes: set<T>, all: set<T>, rank: map<T, nat>, d: nat, n: T, t: Tree, w: T,
                           wt: Tree) {
    && Beside(g, n, t, w, wt) && nodes == Reach(g, n, t) && all == nodes + Reach(g, w, wt)
    && Ranked(g, nodes, rank) && Ranked(g, all, rank) && rank[w] == d
  }

  lemma {:induction false} FieldParts<T>(g: Heap<T>, nodes: set<T>, all: set<T>, rank: map<T, nat>, d: nat, n: T,
                                         t: Tree, w: T, wt: Tree)
    requires Field(g, nodes, all, rank, d, n, t, w, wt)
    ensures Repr(g, n, t) && Repr(g, w, wt) && n in nodes && w in all && w !in nodes && nodes <= all <= g.Keys
    ensures nodes <= rank.Keys && Ranked(g, nodes, rank)
  {
    ReachInHeap(g, n, t);
    ReachInHeap(g, w, wt);
  }

  lemma {:induction false} SownRanked<T>(g: Heap<T>, nodes: set<T>, all: set<T>, rank: map<T, nat>, d: nat, n: T,
                                         t: Tree, w: T, wt: Tree, units: set<Unit<T>>)
    requires Field(g, nodes, all, rank, d, n, t, w, wt) && Sowable(g, nodes, rank, d, units)
    ensures Ranked(PutHeap(g, units, w), all, rank)
  {
    FieldParts(g, nodes, all, rank, d, n, t, w, wt);
    var h := PutHeap(g, units, w);
    forall p, c | p in all && c in h[p].content
      ensures c in all && rank[c] == rank[p] + 1
    {
      var i :| 0 <= i < |h[p].content| && h[p].content[i] == c;
      assert g[p].content[i] in g[p].content;
    }
  }

  /** The value is not changed. */
  lemma {:induction false} SownValue<T>(g: Heap<T>, nodes: set<T>, all: set<T>, rank: map<T, nat>, d: nat, n: T,
                                        t: Tree, w: T, wt: Tree, units: set<Unit<T>>)
    requires Field(g, nodes, all, rank, d, n, t, w, wt) && Sowable(g, nodes, rank, d, units)
    ensures Repr(PutHeap(g, units, w), w, wt) && Repr(g, n, t)
    ensures Repr(PutHeap(g, units, w), n, PutTree(g, n, t, units, wt))
  {
    var h := PutHeap(g, units, w);
    ReachInHeap(g, w, wt);
    forall x | x in Reach(g, w, wt)
      ensures x in h && h[x] == g[x]
    {
      RowSame(g, nodes, rank, d, units, w, x);
    }
    ReprFrame(g, h, w, wt);
    PutRepr(g, n, t, units, w, wt);
  }

  /** Nodes at depth d stand for what they stood for. */
  lemma {:induction false} SownSame<T>(g: Heap<T>, nodes: set<T>, all: set<T>, rank: map<T, nat>, d: nat, n: T, t: Tree,
                                       w: T, wt: Tree, units: set<Unit<T>>, x: T)
    requires Field(g, nodes, all, rank, d, n, t, w, wt) && Sowable(g, nodes, rank, d, units)
    requires x in nodes && rank[x] == d && Stands(g, x)
    ensures Stands(PutHeap(g, units, w), x) && TreeOf(PutHeap(g, units, w), x) == TreeOf(g, x)
  {
    var h, s := PutHeap(g, units, w), TreeOf(g, x);
    forall y | y in Reach(g, x, s)
      ensures y in g && y in h && h[y] == g[y]
    {
      ReachInHeap(g, x, s);
      ReachRanked(g, nodes, rank, x, s, y);
      RowSame(g, nodes, rank, d, units, w, y);
    }
    ReprFrame(g, h, x, s);
    StandsFor(h, x, s);
  }

  // ----- one replacement

  lemma {:induction false} SownLeftIn<T>(g: Heap<T>, nodes: set<T>, rank: map<T, nat>, d: nat, units: set<Unit<T>>,
                                         w: T, x: T)
    requires Sowable(g, nodes, rank, d, units) && x != w
    ensures LeftIn(g, PutHeap(g, units, w), nodes, rank, d, units, x, false)
  {
    var h := PutHeap(g, units, w);
    forall p | p in nodes
      ensures p in h
      ensures if rank[p] + 1 == d then (x in h[p].content <==> StillAt(g, p, units, x, false)) else h[p] == g[p]
    {
      if rank[p] + 1 == d {
        if x in h[p].content {
          var i :| 0 <= i < |h[p].content| && h[p].content[i] == x;
          assert g[p].content[i] == x && UnitAt(g, p, i, false) !in units;
        }
        if StillAt(g, p, units, x, false) {
          var i :| 0 <= i < |g[p].content| && g[p].content[i] == x && UnitAt(g, p, i, false) !in units;
          assert h[p].content[i] == x;
        }
      } else {
        RowSame(g, nodes, rank, d, units, w, p);
      }
    }
  }

  /** The first position left of x in its holder takes w. */
  lemma {:induction false} FirstPut<T>(g: Heap<T>, nodes: set<T>, units: set<Unit<T>>, w: T, x: T, m: Mark<T>)
    requires nodes <= g.Keys && FirstOfRow(g, nodes, units, x, m, false) && x != w
    ensures m.holder in PutHeap(g, units, w) && x in PutHeap(g, units, w)[m.holder].content
    ensures PutAt(PutHeap(g, units, w), m.holder, x, w) == PutHeap(g, units + {UnitOf(m)}, w)
  {
    var p, k, h, next := m.holder, m.index, PutHeap(g, units, w), PutHeap(g, units + {UnitOf(m)}, w);
    var row := h[p].content;
    assert row[k] == x && x !in row[..k];
    FirstIs(row, k, x);
    assert next[p].content == Spliced(row, k, [w]);
    forall q | q in g && q != p
      ensures next[q] == h[q]
    {
      assert PutRow(g, q, units + {UnitOf(m)}, w) == PutRow(g, q, units, w);
    }
    hide PutRow, FirstOfRow;
    assert WithContent(h, p, Spliced(row, k, [w])) == next;
  }

  lemma {:induction false} OneSown<T>(g: Heap<T>, nodes: set<T>, all: set<T>, rank: map<T, nat>, d: nat, n: T, t: Tree,
                                      w: T, wt: Tree, units: set<Unit<T>>, path: seq<Move>, cond: Tree -> bool, x: T)
    requires Field(g, nodes, all, rank, d, n, t, w, wt) && Sowable(g, nodes, rank, d, units) && Repr(g, n, t)
    requires path != [] && n in rank && rank[n] + |path| == d && x in nodes && rank[x] == d && NeverKey(g, nodes, x)
    requires Stands(PutHeap(g, units, w), n)
    ensures var m := FirstLeft(Marks(g, n, t, path, true, cond, false), units, x);
      var now := if m.None? then units else units + {UnitOf(m.value)};
      PutIn(PutHeap(g, units, w), n, x, w) == PutHeap(g, now, w) && Sowable(g, nodes, rank, d, now)
  {
    var m, h := FirstLeft(Marks(g, n, t, path, true, cond, false), units, x), PutHeap(g, units, w);
    FieldParts(g, nodes, all, rank, d, n, t, w, wt);
    SownRanked(g, nodes, all, rank, d, n, t, w, wt, units);
    SownLeftIn(g, nodes, rank, d, units, w, x);
    hide Marks, Repr, Reach, Ranked, Sowable, PutHeap, LeftIn, NeverKey, Beside, PutAt, Holder, FirstOfRow;
    assert Searching(g, h, nodes, all, rank, d, units, n, t, TreeOf(h, n), path, x, false);
    HolderIsFirst(g, h, nodes, all, rank, d, units, n, t, TreeOf(h, n), path, true, cond, x, false);
    if m.Some? {
      FirstInRow(g, nodes, rank, d, n, t, path, true, cond, units, x, false);
      FirstPut(g, nodes, units, w, x, m.value);
      SowableGrows(g, nodes, rank, d, n, t, path, cond, units, x);
    }
  }

  lemma {:induction false} SowableGrows<T>(g: Heap<T>, nodes: set<T>, rank: map<T, nat>, d: nat, n: T, t: Tree,
                                           path: seq<Move>, cond: Tree -> bool, units: set<Unit<T>>, x: T)
    requires Repr(g, n, t) && Ranked(g, nodes, rank) && n in nodes && path != [] && rank[n] + |path| == d
    requires Sowable(g, nodes, rank, d, units)
    ensures var m := FirstLeft(Marks(g, n, t, path, true, cond, false), units, x);
      m.Some? ==> Sowable(g, nodes, rank, d, units + {UnitOf(m.value)})
  {
    var marks := Marks(g, n, t, path, true, cond, false);
    MarksAre(g, nodes, rank, d, n, t, path, true, cond, false);
    hide Marks, Ranked;
    FirstLeftIs(marks, units, x);
  }

  // ----- all replacements of a patch

  ghost predicate Sowing<T>(g: Heap<T>, nodes: set<T>, all: set<T>, rank: map<T, nat>, d: nat, n: T, t: Tree, w: T,
                            wt: Tree, units: set<Unit<T>>, path: seq<Move>, matches: seq<T>) {
    && Field(g, nodes, all, rank, d, n, t, w, wt) && Sowable(g, nodes, rank, d, units) && path != []
    && n in rank && rank[n] + |path| == d && AllStand(g, matches)
    && forall x :: x in matches ==> x in nodes && rank[x] == d && NeverKey(g, nodes, x)
  }

  lemma {:induction false} SowingNext<T>(g: Heap<T>, nodes: set<T>, all: set<T>, rank: map<T, nat>, d: nat, n: T,
                                         t: Tree, w: T, wt: Tree, units: set<Unit<T>>, path: seq<Move>, matches: seq<T>,
                                         cond: Tree -> bool)
    requires Sowing(g, nodes, all, rank, d, n, t, w, wt, units, path, matches) && matches != [] && Repr(g, n, t)
    requires Stands(PutHeap(g, units, w), n) && Stands(PutHeap(g, units, w), matches[0])
    ensures Sowing(g, nodes, all, rank, d, n, t, w, wt, units, path, matches[1..])
    ensures Stands(g, matches[0]) && TreeOf(PutHeap(g, units, w), matches[0]) == TreeOf(g, matches[0])
    ensures AllStand(g, matches) && AllStand(g, matches[1..])
    ensures var m := FirstLeft(Marks(g, n, t, path, true, cond, false), units, matches[0]);
      var now := if m.None? then units else units + {UnitOf(m.value)};
      && PutIn(PutHeap(g, units, w), n, matches[0], w) == PutHeap(g, now, w)
      && Sowing(g, nodes, all, rank, d, n, t, w, wt, now, path, matches[1..])
  {
    assert matches[0] in matches;
    hide Field, Sowable, Marks, PutHeap, PutIn, NeverKey;
    SownSame(g, nodes, all, rank, d, n, t, w, wt, units, matches[0]);
    OneSown(g, nodes, all, rank, d, n, t, w, wt, units, path, cond, matches[0]);
  }

  lemma {:induction false} PutSown<T>(g: Heap<T>, nodes: set<T>, all: set<T>, rank: map<T, nat>, d: nat, n: T, t: Tree,
                                      w: T, wt: Tree, units: set<Unit<T>>, path: seq<Move>, matches: seq<T>,
                                      cond: Tree -> bool, marks: seq<Mark<T>>)
    requires Sowing(g, nodes, all, rank, d, n, t, w, wt, units, path, matches) && Repr(g, n, t) && path != []
    requires marks == Marks(g, n, t, path, true, cond, false) && AllStand(g, matches)
    requires var h := PutHeap(g, units, w); Stands(h, n) && AllStand(h, matches) && Foreign(h, w, matches)
    ensures var s := Sown(marks, units, Picked(g, matches, cond));
      PutFrom(PutHeap(g, units, w), n, matches, cond, w) == PutHeap(g, s, w) && Sowable(g, nodes, rank, d, s)
    decreases |matches|
  {
    hide Sowing, Marks, PutHeap, PutIn, Sowable, Foreign, AllStand, Picked, PutFrom, Sown, Repr, Field;
    var h := PutHeap(g, units, w);
    if matches == [] {
      PutNothing(g, nodes, all, rank, d, n, t, w, wt, units, path, matches, cond, marks);
    } else {
      var x, rest := matches[0], matches[1..];
      assert matches[0..] == matches;
      PutStep(h, n, matches, 0, cond, w);
      SowingNext(g, nodes, all, rank, d, n, t, w, wt, units, path, matches, cond);
      PickedStep(g, matches, cond);
      if cond(TreeOf(g, x)) {
        var m := FirstLeft(marks, units, x);
        var now := if m.None? then units else units + {UnitOf(m.value)};
        SownStep(marks, units, x, Picked(g, rest, cond));
        PutSown(g, nodes, all, rank, d, n, t, w, wt, now, path, rest, cond, marks);
      } else {
        assert [] + Picked(g, rest, cond) == Picked(g, rest, cond);
        PutSown(g, nodes, all, rank, d, n, t, w, wt, units, path, rest, cond, marks);
      }
    }
  }

  lemma {:induction false} SownStep<T>(marks: seq<Mark<T>>, units: set<Unit<T>>, x: T, rest: seq<T>)
    ensures var m := FirstLeft(marks, units, x);
      Sown(marks, units, [x] + rest) == Sown(marks, if m.None? then units else units + {UnitOf(m.value)}, rest)
  {
    assert ([x] + rest)[1..] == rest;
  }

  lemma {:induction false} PutNothing<T>(g: Heap<T>, nodes: set<T>, all: set<T>, rank: map<T, nat>, d: nat, n: T,
                                         t: Tree, w: T, wt: Tree, units: set<Unit<T>>, path: seq<Move>, matches: seq<T>,
                                         cond: Tree -> bool, marks: seq<Mark<T>>)
    requires Sowing(g, nodes, all, rank, d, n, t, w, wt, units, path, matches) && matches == []
    requires AllStand(g, matches)
    requires var h := PutHeap(g, units, w); Stands(h, n) && AllStand(h, matches) && Foreign(h, w, matches)
    ensures Sown(marks, units, Picked(g, matches, cond)) == units && Sowable(g, nodes, rank, d, units)
    ensures PutFrom(PutHeap(g, units, w), n, matches, cond, w) == PutHeap(g, units, w)
  {
    hide Field, Sowable, PutHeap;
  }

  // ----- when the result is the rewrite

  /** What the rewrite makes of a part of the document, if the path has led to it. */
  ghost function Wanted1(t: Tree, path: seq<Move>, on: bool, cond: Tree -> bool, wt: Tree): Tree {
    if on then Rewrite(t, path, Given(cond, wt)) else t
  }

  /** Every position takes the value exactly if it was chosen, unless it stands for the value anyway. */
  ghost predicate AsMeant<T>(g: Heap<T>, marks: seq<Mark<T>>, units: set<Unit<T>>, wt: Tree) {
    forall m :: m in marks ==> Repr(g, m.node, wt) || (Taken(m, units) <==> m.chosen)
  }

  lemma {:induction false} PutBelow<T>(g: Heap<T>, nodes: set<T>, rank: map<T, nat>, d: nat, units: set<Unit<T>>, n: T,
                                       t: Tree, wt: Tree)
    requires Repr(g, n, t) && Ranked(g, nodes, rank) && Sowable(g, nodes, rank, d, units) && n in nodes && rank[n] >= d
    ensures PutTree(g, n, t, units, wt) == t
    decreases t
  {
    forall i | 0 <= i < |t.children|
      ensures PutTree(g, n, t, units, wt).children[i] == t.children[i]
    {
      ChildRanked(g, nodes, rank, n, t, i);
      PutBelow(g, nodes, rank, d, units, g[n].content[i], t.children[i], wt);
    }
    assert PutTree(g, n, t, units, wt).children == t.children;
  }

  lemma {:induction false} LastPutTree<T>(g: Heap<T>, nodes: set<T>, rank: map<T, nat>, d: nat, units: set<Unit<T>>,
                                          n: T, t: Tree, path: seq<Move>, on: bool, cond: Tree -> bool, wt: Tree)
    requires Repr(g, n, t) && Ranked(g, nodes, rank) && Sowable(g, nodes, rank, d, units) && n in nodes
    requires |path| == 1 && rank[n] + 1 == d
    ensures var r, s, want := PutTree(g, n, t, units, wt), Wanted1(t, path, on, cond, wt),
        WantMask(t, path[0], on, cond);
      && |r.children| == |s.children| == |t.children| && (r == s <==> r.children == s.children)
      && forall i :: 0 <= i < |t.children| ==>
           && r.children[i] == (if UnitAt(g, n, i, false) in units then wt else t.children[i])
           && s.children[i] == (if want[i] then wt else t.children[i])
  {
    assert path[1..] == [];
    forall i | 0 <= i < |t.children|
      ensures PutTree(g, g[n].content[i], t.children[i], units, wt) == t.children[i]
    {
      ChildRanked(g, nodes, rank, n, t, i);
      PutBelow(g, nodes, rank, d, units, g[n].content[i], t.children[i], wt);
    }
    forall i | 0 <= i < |t.children|
      ensures Wanted1(t, path, on, cond, wt).children[i]
           == if WantMask(t, path[0], on, cond)[i] then wt else t.children[i]
    {
      assert Rewrite(t.children[i], path[1..], Given(cond, wt)) == Given(cond, wt)(t.children[i]);
    }
  }

  lemma {:induction false} RowAsMeant<T>(g: Heap<T>, nodes: set<T>, rank: map<T, nat>, d: nat, units: set<Unit<T>>,
                                         n: T, t: Tree, path: seq<Move>, on: bool, cond: Tree -> bool, wt: Tree)
    requires Repr(g, n, t) && Ranked(g, nodes, rank) && Sowable(g, nodes, rank, d, units) && n in nodes
    requires |path| == 1 && rank[n] + 1 == d
    ensures PutTree(g, n, t, units, wt) == Wanted1(t, path, on, cond, wt)
        <==> AsMeant(g, Marks(g, n, t, path, on, cond, false), units, wt)
  {
    var marks, want := Marks(g, n, t, path, on, cond, false), WantMask(t, path[0], on, cond);
    var r, s := PutTree(g, n, t, units, wt), Wanted1(t, path, on, cond, wt);
    LastPutTree(g, nodes, rank, d, units, n, t, path, on, cond, wt);
    RowMarks(g, n, t, path, on, cond, 0, false);
    hide PutTree, Wanted1, Marks, MarksFrom, Ranked;
    if r == s {
      forall m | m in marks
        ensures Repr(g, m.node, wt) || (Taken(m, units) <==> m.chosen)
      {
        assert r.children[m.index] == s.children[m.index] && Repr(g, m.node, t.children[m.index]);
      }
    }
    if AsMeant(g, marks, units, wt) {
      forall i | 0 <= i < |t.children|
        ensures r.children[i] == s.children[i]
      {
        WantValue(t, path[0], on, cond, i);
        if ValueAt(t.kind, i) {
          var m := Mark(n, i, g[n].content[i], false, want[i]);
          assert m in marks && UnitOf(m) == UnitAt(g, n, i, false);
          if Repr(g, m.node, wt) {
            OneTree(g, m.node, wt, t.children[i]);
          }
        }
      }
    }
  }

  lemma {:induction false} AboveAsMeant<T>(g: Heap<T>, nodes: set<T>, rank: map<T, nat>, d: nat, units: set<Unit<T>>,
                                           n: T, t: Tree, path: seq<Move>, on: bool, cond: Tree -> bool, wt: Tree)
    requires Repr(g, n, t) && Sowable(g, nodes, rank, d, units) && n in nodes && |path| > 1 && rank[n] + 1 != d
    ensures var r, s := PutTree(g, n, t, units, wt), Wanted1(t, path, on, cond, wt);
      && |r.children| == |s.children| == |t.children| && (r == s <==> r.children == s.children)
      && forall i :: 0 <= i < |t.children| ==>
           && r.children[i] == PutTree(g, g[n].content[i], t.children[i], units, wt)
           && s.children[i]
              == Wanted1(t.children[i], path[1..], on && Selects(t.kind, Values(t.children), path[0], i), cond, wt)
  {
  }

  lemma {:induction false} MeantSplit<T>(g: Heap<T>, n: T, t: Tree, path: seq<Move>, on: bool, cond: Tree -> bool,
                                         units: set<Unit<T>>, wt: Tree, i: nat)
    requires Repr(g, n, t) && path != [] && i <= |t.children|
    ensures AsMeant(g, MarksFrom(g, n, t, path, on, cond, i, false), units, wt)
        <==> forall j :: i <= j < |t.children| ==> AsMeant(g, MarksAt(g, n, t, path, on, cond, j, false), units, wt)
    decreases |t.children| - i
  {
    if i < |t.children| {
      MeantSplit(g, n, t, path, on, cond, units, wt, i + 1);
      MarksFromIs(g, n, t, path, on, cond, i, false);
      hide MarksFrom, MarksAt, AsMeant;
      MeantConcat(g, MarksAt(g, n, t, path, on, cond, i, false), MarksFrom(g, n, t, path, on, cond, i + 1, false),
          units, wt);
    }
  }

  lemma {:induction false} MeantConcat<T>(g: Heap<T>, a: seq<Mark<T>>, b: seq<Mark<T>>, units: set<Unit<T>>, wt: Tree)
    ensures AsMeant(g, a + b, units, wt) <==> AsMeant(g, a, units, wt) && AsMeant(g, b, units, wt)
  {
    assert forall m :: m in a + b <==> m in a || m in b;
  }

  /** The tree is the rewrite exactly if every position is as meant. */
  lemma {:induction false} PutExactly<T>(g: Heap<T>, nodes: set<T>, rank: map<T, nat>, d: nat, units: set<Unit<T>>,
                                         n: T, t: Tree, path: seq<Move>, on: bool, cond: Tree -> bool, wt: Tree)
    requires Repr(g, n, t) && Ranked(g, nodes, rank) && Sowable(g, nodes, rank, d, units) && n in nodes
    requires path != [] && rank[n] + |path| == d
    ensures PutTree(g, n, t, units, wt) == Wanted1(t, path, on, cond, wt)
        <==> AsMeant(g, Marks(g, n, t, path, on, cond, false), units, wt)
    decreases |path|
  {
    if |path| == 1 {
      RowAsMeant(g, nodes, rank, d, units, n, t, path, on, cond, wt);
    } else {
      AboveAsMeant(g, nodes, rank, d, units, n, t, path, on, cond, wt);
      var r, s := PutTree(g, n, t, units, wt), Wanted1(t, path, on, cond, wt);
      hide PutTree, Wanted1, AsMeant, MarksAt, MarksFrom, Ranked, Sowable;
      MeantSplit(g, n, t, path, on, cond, units, wt, 0);
      if r.children == s.children {
        forall j: nat | j < |t.children|
          ensures AsMeant(g, MarksAt(g, n, t, path, on, cond, j, false), units, wt)
        {
          PutExactlyAt(g, nodes, rank, d, units, n, t, path, on, cond, wt, j);
          assert r.children[j] == s.children[j];
        }
      }
      if AsMeant(g, MarksFrom(g, n, t, path, on, cond, 0, false), units, wt) {
        forall j: nat | j < |t.children|
          ensures r.children[j] == s.children[j]
        {
          PutExactlyAt(g, nodes, rank, d, units, n, t, path, on, cond, wt, j);
          assert AsMeant(g, MarksAt(g, n, t, path, on, cond, j, false), units, wt);
        }
        assert r.children == s.children;
      }
    }
  }

  lemma {:induction false} PutExactlyAt<T>(g: Heap<T>, nodes: set<T>, rank: map<T, nat>, d: nat, units: set<Unit<T>>,
                                           n: T, t: Tree, path: seq<Move>, on: bool, cond: Tree -> bool, wt: Tree,
                                           i: nat)
    requires Repr(g, n, t) && Ranked(g, nodes, rank) && Sowable(g, nodes, rank, d, units) && n in nodes
    requires |path| > 1 && rank[n] + |path| == d && i < |t.children|
    ensures PutTree(g, g[n].content[i], t.children[i], units, wt)
         == Wanted1(t.children[i], path[1..], on && Selects(t.kind, Values(t.children), path[0], i), cond, wt)
        <==> AsMeant(g, MarksAt(g, n, t, path, on, cond, i, false), units, wt)
    decreases |path|, 0
  {
    ChildRanked(g, nodes, rank, n, t, i);
    MarksAtIs(g, n, t, path, on, cond, i, false);
    hide MarksAt, Marks, AsMeant, Ranked, Sowable, PutTree, Wanted1;
    PutExactly(g, nodes, rank, d, units, g[n].content[i], t.children[i], path[1..],
        on && Selects(t.kind, Values(t.children), path[0], i), cond, wt);
  }

  // ----- the exact condition

  /** The value becomes as deep as the places. */
  lemma {:induction false} Deeper<T>(nodes: set<T>, rank: map<T, nat>, d: nat, w: T, part: set<T>, wrank: map<T, nat>)
    returns (deep: map<T, nat>)
    requires nodes <= rank.Keys && part <= wrank.Keys && w in part && forall x :: x in part ==> wrank[x] >= wrank[w]
    ensures deep.Keys == nodes + part && forall x :: x in nodes ==> deep[x] == rank[x]
    ensures forall x :: x in part && x !in nodes ==> deep[x] == d + wrank[x] - wrank[w]
  {
    deep := map x | x in nodes + part :: if x in nodes then rank[x] else d + wrank[x] - wrank[w];
  }

  lemma {:induction false} DeeperRanked<T>(g: Heap<T>, nodes: set<T>, rank: map<T, nat>, d: nat, w: T, part: set<T>,
                                           wrank: map<T, nat>, deep: map<T, nat>)
    requires Ranked(g, nodes, rank) && Ranked(g, part, wrank) && nodes !! part && w in part
    requires deep.Keys == nodes + part && forall x :: x in nodes ==> deep[x] == rank[x]
    requires forall x :: x in part && x !in nodes ==> deep[x] == d + wrank[x] - wrank[w]
    ensures Ranked(g, nodes, deep) && Ranked(g, nodes + part, deep)
  {
  }

  lemma {:induction false} FieldThere<T>(g: Heap<T>, n: T, t: Tree, rank: map<T, nat>, w: T, wt: Tree,
                                         wrank: map<T, nat>, path: seq<Move>) returns (deep: map<T, nat>)
    requires Beside(g, n, t, w, wt) && Ranked(g, Reach(g, n, t), rank) && Ranked(g, Reach(g, w, wt), wrank)
    ensures n in rank && n in deep && deep[n] == rank[n]
    ensures Field(g, Reach(g, n, t), Reach(g, n, t) + Reach(g, w, wt), deep, rank[n] + |path|, n, t, w, wt)
  {
    var nodes, part := Reach(g, n, t), Reach(g, w, wt);
    ReachInHeap(g, n, t);
    ReachInHeap(g, w, wt);
    forall x | x in part
      ensures wrank[x] >= wrank[w]
    {
      ReachRanked(g, part, wrank, w, wt, x);
    }
    hide Repr, Reach, Ranked;
    assert nodes <= rank.Keys && part <= wrank.Keys by { RankKeys(g, nodes, rank); RankKeys(g, part, wrank); }
    deep := Deeper(nodes, rank, rank[n] + |path|, w, part, wrank);
    DeeperRanked(g, nodes, rank, rank[n] + |path|, w, part, wrank, deep);
  }

  lemma {:induction false} RankKeys<T>(g: Heap<T>, nodes: set<T>, rank: map<T, nat>)
    requires Ranked(g, nodes, rank)
    ensures nodes <= rank.Keys
  {
  }

  /** The replacements of a patch take, for every match, the first position of its node that is left. */
  lemma {:induction false} PlacementSown<T>(g: Heap<T>, n: T, t: Tree, path: seq<Move>, cond: Tree -> bool, w: T,
                                            wt: Tree, rank: map<T, nat>, deep: map<T, nat>)
    requires Beside(g, n, t, w, wt) && path != [] && Even(g, Reach(g, n, t), rank) && n in rank && n in deep
    requires Field(g, Reach(g, n, t), Reach(g, n, t) + Reach(g, w, wt), deep, deep[n] + |path|, n, t, w, wt)
    ensures var marks := Marks(g, n, t, path, true, cond, false);
      var s := Sown(marks, {}, ChosenNodes(marks));
      Placement(g, n, t, path, cond, w, wt) == PutHeap(g, s, w)
          && Sowable(g, Reach(g, n, t), deep, deep[n] + |path|, s)
  {
    var nodes, all, d := Reach(g, n, t), Reach(g, n, t) + Reach(g, w, wt), deep[n] + |path|;
    var matches, marks := NodesAt(Spots(g, n, t, path)), Marks(g, n, t, path, true, cond, false);
    SpotsForeign(g, n, t, path, w, wt);
    PutNone(g, w);
    SowingStart(g, nodes, all, deep, d, n, t, w, wt, path);
    PickedAreChosen(g, n, t, path, true, cond, false);
    hide Sowing, Marks, PutHeap, Sowable, Foreign, AllStand, Picked, PutFrom, Sown, Repr, Field, Even, Reach, Spots,
         NodesAt, ChosenNodes;
    PutSown(g, nodes, all, deep, d, n, t, w, wt, {}, path, matches, cond, marks);
  }

  lemma {:induction false} PutNone<T>(g: Heap<T>, w: T)
    ensures PutHeap(g, {}, w) == g
  {
    assert forall p :: p in g ==> PutRow(g, p, {}, w) == g[p].content;
  }

  lemma {:induction false} SowingStart<T>(g: Heap<T>, nodes: set<T>, all: set<T>, rank: map<T, nat>, d: nat, n: T,
                                          t: Tree, w: T, wt: Tree, path: seq<Move>)
    requires Field(g, nodes, all, rank, d, n, t, w, wt) && ValuesAside(g, nodes) && path != [] && Repr(g, n, t)
    requires n in rank && rank[n] + |path| == d
    ensures Sowing(g, nodes, all, rank, d, n, t, w, wt, {}, path, NodesAt(Spots(g, n, t, path)))
  {
    var spots := Spots(g, n, t, path);
    FieldParts(g, nodes, all, rank, d, n, t, w, wt);
    SpotsAside(g, n, t, path);
    SpotsStand(g, n, t, path);
    forall x | x in NodesAt(spots)
      ensures x in nodes && rank[x] == d
    {
      var i :| 0 <= i < |spots| && NodesAt(spots)[i] == x;
      assert spots[i] in spots;
      SpotsRanked(g, nodes, rank, n, t, path, spots[i]);
    }
  }

  /**
   In a document in which every node has one depth the replacements of a patch are the rewrite of its places, if
   and only if the positions taken are the chosen ones, apart from positions that stand for the value anyway. Taken
   are, for every node, its first positions in document order, as many as the node was chosen.
   */
  lemma {:induction false} ReplacementIsRewrite<T>(g: Heap<T>, n: T, t: Tree, path: seq<Move>, cond: Tree -> bool, w: T,
                                                   wt: Tree, rank: map<T, nat>, wrank: map<T, nat>)
    requires Beside(g, n, t, w, wt) && path != [] && Even(g, Reach(g, n, t), rank)
    requires Ranked(g, Reach(g, w, wt), wrank)
    ensures var marks := Marks(g, n, t, path, true, cond, false);
      Repr(Placement(g, n, t, path, cond, w, wt), n, Rewrite(t, path, Given(cond, wt)))
      <==> forall m :: m in marks && !Repr(g, m.node, wt) ==> (Taken(m, Going(marks, m.node)) <==> m.chosen)
  {
    var marks, nodes := Marks(g, n, t, path, true, cond, false), Reach(g, n, t);
    var deep := FieldThere(g, n, t, rank, w, wt, wrank, path);
    var s := Sown(marks, {}, ChosenNodes(marks));
    PlacementSown(g, n, t, path, cond, w, wt, rank, deep);
    var d, h, all := deep[n] + |path|, PutHeap(g, s, w), nodes + Reach(g, w, wt);
    FieldParts(g, nodes, all, deep, d, n, t, w, wt);
    SownValue(g, nodes, all, deep, d, n, t, w, wt, s);
    hide Marks, PutHeap, Sowable, Placement, Sown, Repr, Field, Even, Reach, ChosenNodes, Going, Ranked, PutTree,
         Rewrite, Beside;
    PutExactly(g, nodes, deep, d, s, n, t, path, true, cond, wt);
    if Repr(h, n, Rewrite(t, path, Given(cond, wt))) {
      OneTree(h, n, Rewrite(t, path, Given(cond, wt)), PutTree(g, n, t, s, wt));
    }
    forall m | m in marks
      ensures Taken(m, s) <==> Taken(m, Going(marks, m.node))
    {
      SownIsGoing(marks, m);
    }
  }

  lemma {:induction false} SownIsGoing<T>(marks: seq<Mark<T>>, m: Mark<T>)
    ensures Taken(m, Sown(marks, {}, ChosenNodes(marks))) <==> Taken(m, Going(marks, m.node))
  {
    SownMeaning(marks, {}, ChosenNodes(marks), UnitOf(m));
    WantedTimes(marks, m.node);
  }
}
