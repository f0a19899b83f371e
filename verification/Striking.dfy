/** Removals from a document in which every node has one depth: which positions go. */
module Striking {
  import opened Strings
  import opened Trees
  import opened Graph
  import opened Removing
  import opened Holders
  import opened Removals
  import opened SharedRemoving
  import opened SharedDocuments
  import opened Scans
  import opened Marking

  // ----- marks and positions

  /** The mark speaks of a position one step above depth d. */
  ghost predicate MarkOf<T>(g: Heap<T>, nodes: set<T>, rank: map<T, nat>, d: nat, m: Mark<T>, whole: bool := true) {
    && m.holder in nodes && m.holder in g && m.holder in rank && rank[m.holder] + 1 == d
    && m.index < |g[m.holder].content| && m.node == g[m.holder].content[m.index]
    && ValueAt(g[m.holder].kind, m.index) && UnitOf(m) == UnitAt(g, m.holder, m.index, whole)
  }

  lemma {:induction false} MarksAre<T>(g: Heap<T>, nodes: set<T>, rank: map<T, nat>, d: nat, n: T, t: Tree,
                                       path: seq<Move>, on: bool, cond: Tree -> bool, whole: bool := true)
    requires Repr(g, n, t) && Ranked(g, nodes, rank) && n in nodes && path != [] && rank[n] + |path| == d
    ensures forall m :: m in Marks(g, n, t, path, on, cond, whole) ==> MarkOf(g, nodes, rank, d, m, whole)
    decreases |path|, |t.children| + 1
  {
    MarksAreFrom(g, nodes, rank, d, n, t, path, on, cond, 0, whole);
  }

  lemma {:induction false} MarksAreFrom<T>(g: Heap<T>, nodes: set<T>, rank: map<T, nat>, d: nat, n: T, t: Tree,
                                           path: seq<Move>, on: bool, cond: Tree -> bool, i: nat, whole: bool := true)
    requires Repr(g, n, t) && Ranked(g, nodes, rank) && n in nodes && path != [] && rank[n] + |path| == d
    requires i <= |t.children|
    ensures forall m :: m in MarksFrom(g, n, t, path, on, cond, i, whole) ==> MarkOf(g, nodes, rank, d, m, whole)
    decreases |path|, |t.children| - i
  {
    if i < |t.children| {
      MarksAreFrom(g, nodes, rank, d, n, t, path, on, cond, i + 1, whole);
      if |path| > 1 {
        ChildRanked(g, nodes, rank, n, t, i);
        hide Ranked;
        MarksAre(g, nodes, rank, d, g[n].content[i], t.children[i], path[1..],
            on && Selects(t.kind, Values(t.children), path[0], i), cond, whole);
      }
    }
  }

  /** The first position left of a node is the first one left in its holder. */
  lemma {:induction false} FirstInRow<T>(g: Heap<T>, nodes: set<T>, rank: map<T, nat>, d: nat, n: T, t: Tree,
                                         path: seq<Move>, on: bool, cond: Tree -> bool, units: set<Unit<T>>, x: T,
                                         whole: bool := true)
    requires Repr(g, n, t) && Ranked(g, nodes, rank) && n in nodes && path != [] && rank[n] + |path| == d
    requires NeverKey(g, nodes, x)
    ensures var m := FirstLeft(Marks(g, n, t, path, on, cond, whole), units, x); m.Some? ==>
        FirstOfRow(g, nodes, units, x, m.value, whole)
    decreases |path|, |t.children| + 1
  {
    FirstInRowFrom(g, nodes, rank, d, n, t, path, on, cond, units, x, 0, whole);
  }

  ghost predicate FirstOfRow<T>(g: Heap<T>, nodes: set<T>, units: set<Unit<T>>, x: T, m: Mark<T>, whole: bool := true) {
    && m.holder in nodes && m.holder in g && m.index < |g[m.holder].content| && g[m.holder].content[m.index] == x
    && UnitOf(m) == UnitAt(g, m.holder, m.index, whole) && UnitOf(m) !in units
    && forall j :: 0 <= j < m.index && g[m.holder].content[j] == x ==> UnitAt(g, m.holder, j, whole) in units
  }

  lemma {:induction false} FirstInRowFrom<T>(g: Heap<T>, nodes: set<T>, rank: map<T, nat>, d: nat, n: T, t: Tree,
                                             path: seq<Move>, on: bool, cond: Tree -> bool, units: set<Unit<T>>, x: T,
                                             i: nat, whole: bool := true)
    requires Repr(g, n, t) && Ranked(g, nodes, rank) && n in nodes && path != [] && rank[n] + |path| == d
    requires NeverKey(g, nodes, x) && i <= |t.children| && (|path| == 1 ==> i == 0)
    ensures var m := FirstLeft(MarksFrom(g, n, t, path, on, cond, i, whole), units, x);
      m.Some? ==> FirstOfRow(g, nodes, units, x, m.value, whole)
    decreases |path|, |t.children| - i
  {
    if |path| == 1 {
      assert t.kind == MappingNode ==> Aside(g[n].content, x);
      RowFirst(g, n, t, path, on, cond, units, x, 0, whole);
    } else if i < |t.children| {
      var selected := on && Selects(t.kind, Values(t.children), path[0], i);
      ChildRanked(g, nodes, rank, n, t, i);
      hide Ranked, NeverKey, FirstOfRow;
      FirstInRowFrom(g, nodes, rank, d, n, t, path, on, cond, units, x, i + 1, whole);
      FirstInRow(g, nodes, rank, d, g[n].content[i], t.children[i], path[1..], selected, cond, units, x, whole);
      MarksAtIs(g, n, t, path, on, cond, i, whole);
      FirstLeftConcat(MarksAt(g, n, t, path, on, cond, i, whole), MarksFrom(g, n, t, path, on, cond, i + 1, whole),
          units, x);
    }
  }

  // ----- one removal

  /** Nodes at depth d are held as values by mappings and lists only. */
  ghost predicate Loose<T>(g: Heap<T>, nodes: set<T>, x: T)
    requires nodes <= g.Keys
  {
    NeverKey(g, nodes, x)
    && forall p :: p in nodes && x in g[p].content ==> g[p].kind == MappingNode || g[p].kind == SequenceNode
  }

  lemma {:induction false} OneStruck<T>(g: Heap<T>, h: Heap<T>, nodes: set<T>, rank: map<T, nat>, d: nat,
                                        units: set<Unit<T>>, n: T, t: Tree, path: seq<Move>, on: bool,
                                        cond: Tree -> bool, x: T)
    requires Repr(g, n, t) && Ranked(g, nodes, rank) && Level(g, nodes, rank, d, units) && h == DelAt(g, units)
    requires n in nodes && path != [] && rank[n] + |path| == d && x in nodes && rank[x] == d && Loose(g, nodes, x)
    requires Stands(h, n)
    ensures var m := FirstLeft(Marks(g, n, t, path, on, cond), units, x);
      && TakenOut(h, n, x) == (if m.None? then None else Some(DelAt(g, units + {UnitOf(m.value)})))
      && (m.Some? ==> Level(g, nodes, rank, d, units + {UnitOf(m.value)}))
  {
    var m := FirstLeft(Marks(g, n, t, path, on, cond), units, x);
    DelAtThinner(g, units);
    ThinnerRanked(g, h, nodes, rank);
    DelLeftIn(g, nodes, rank, d, units, x);
    assert Searching(g, h, nodes, nodes, rank, d, units, n, t, TreeOf(h, n), path, x);
    HolderIsFirst(g, h, nodes, nodes, rank, d, units, n, t, TreeOf(h, n), path, on, cond, x);
    if m.Some? {
      FirstInRow(g, nodes, rank, d, n, t, path, on, cond, units, x);
      OneTaken(g, nodes, rank, d, units, x, m.value);
    }
    hide Searching, Marks, Ranked, Level, NeverKey, DelAt, Loose;
  }

  lemma {:induction false} OneTaken<T>(g: Heap<T>, nodes: set<T>, rank: map<T, nat>, d: nat, units: set<Unit<T>>, x: T,
                                       m: Mark<T>)
    requires Ranked(g, nodes, rank) && Level(g, nodes, rank, d, units) && x in nodes && rank[x] == d
    requires Loose(g, nodes, x) && FirstOfRow(g, nodes, units, x, m)
    ensures m.holder in DelAt(g, units) && x in DelAt(g, units)[m.holder].content
    ensures TakenFrom(DelAt(g, units), m.holder, x) == Some(DelAt(g, units + {UnitOf(m)}))
    ensures Level(g, nodes, rank, d, units + {UnitOf(m)})
  {
    var p := m.holder;
    assert x in g[p].content;
    assert g[p].kind == MappingNode ==> Aside(g[p].content, x);
    TakenAt(g, p, units, x, m.index);
    hide DelAt, TakenFrom;
    assert rank[p] + 1 == d;
    LevelGrows(g, nodes, rank, d, units, x, m);
  }

  lemma {:induction false} LevelGrows<T>(g: Heap<T>, nodes: set<T>, rank: map<T, nat>, d: nat, units: set<Unit<T>>,
                                         x: T, m: Mark<T>)
    requires Level(g, nodes, rank, d, units) && Loose(g, nodes, x) && FirstOfRow(g, nodes, units, x, m)
    requires rank[m.holder] + 1 == d
    ensures Level(g, nodes, rank, d, units + {UnitOf(m)})
  {
    var u := UnitOf(m);
    assert x in g[m.holder].content;
    forall p, i: nat | p in g && i < |g[p].content| && UnitAt(g, p, i) in units + {u}
      ensures (g[p].kind == MappingNode && Odd(i)) || g[p].kind == SequenceNode
    {
      if UnitAt(g, p, i) !in units {
        assert UnitAt(g, p, i) == u && p == m.holder && g[p].content[i] == x;
      }
    }
  }

  // ----- all removals of a patch

  /** The heap without the units, if there is a result. */
  ghost function Outcome<T>(g: Heap<T>, s: Option<set<Unit<T>>>): Option<Heap<T>> {
    if s.None? then None else Some(DelAt(g, s.value))
  }

  /** The loop over the matches, with the units gone so far. */
  ghost predicate Strikes<T>(g: Heap<T>, h: Heap<T>, nodes: set<T>, rank: map<T, nat>, d: nat, units: set<Unit<T>>,
                             n: T, t: Tree, path: seq<Move>, matches: seq<T>) {
    && Underway(g, h, nodes, rank, d, n, t, matches) && h == DelAt(g, units) && Level(g, nodes, rank, d, units)
    && n in nodes && path != [] && rank[n] + |path| == d && (forall x :: x in matches ==> Loose(g, nodes, x))
  }

  lemma {:induction false} StrikesSkip<T>(g: Heap<T>, h: Heap<T>, nodes: set<T>, rank: map<T, nat>, d: nat,
                                          units: set<Unit<T>>, n: T, t: Tree, path: seq<Move>, matches: seq<T>)
    requires Strikes(g, h, nodes, rank, d, units, n, t, path, matches) && matches != []
    ensures Strikes(g, h, nodes, rank, d, units, n, t, path, matches[1..])
    ensures Repr(g, n, t) && Stands(h, n) && AllStand(g, matches) && AllStand(h, matches)
    ensures AllStand(g, matches[1..]) && AllStand(h, matches[1..]) && matches[0] in matches
    ensures TreeOf(h, matches[0]) == TreeOf(g, matches[0])
  {
    UnderwayTail(g, h, nodes, rank, d, n, t, matches);
    hide Level, Loose;
  }

  lemma {:induction false} StrikesOne<T>(g: Heap<T>, h: Heap<T>, nodes: set<T>, rank: map<T, nat>, d: nat,
                                         units: set<Unit<T>>, n: T, t: Tree, path: seq<Move>, matches: seq<T>,
                                         cond: Tree -> bool)
    requires Strikes(g, h, nodes, rank, d, units, n, t, path, matches) && matches != []
    requires Repr(g, n, t) && Stands(h, n)
    ensures var m := FirstLeft(Marks(g, n, t, path, true, cond), units, matches[0]);
      && TakenOut(h, n, matches[0]) == (if m.None? then None else Some(DelAt(g, units + {UnitOf(m.value)})))
      && (m.Some? ==>
            var now := units + {UnitOf(m.value)};
            Strikes(g, DelAt(g, now), nodes, rank, d, now, n, t, path, matches[1..]))
  {
    var x := matches[0];
    UnderwayParts(g, h, nodes, rank, d, n, t, matches);
    OneStruck(g, h, nodes, rank, d, units, n, t, path, true, cond, x);
    var m := FirstLeft(Marks(g, n, t, path, true, cond), units, x);
    hide Level, Loose, Marks, Repr, Ranked, DelAt, TakenOut;
    if m.Some? {
      UnderwayNext(g, h, nodes, rank, d, n, t, matches, DelAt(g, units + {UnitOf(m.value)}));
    }
    hide Underway;
  }

  lemma {:induction false} RemovedStruck<T>(g: Heap<T>, h: Heap<T>, nodes: set<T>, rank: map<T, nat>, d: nat,
                                            units: set<Unit<T>>, n: T, t: Tree, path: seq<Move>, matches: seq<T>,
                                            cond: Tree -> bool, marks: seq<Mark<T>>)
    requires Strikes(g, h, nodes, rank, d, units, n, t, path, matches) && Repr(g, n, t) && path != []
    requires Stands(h, n) && AllStand(g, matches) && AllStand(h, matches) && marks == Marks(g, n, t, path, true, cond)
    ensures var s := Struck(marks, units, Picked(g, matches, cond));
      && RemovedFrom(h, n, matches, cond) == Outcome(g, s)
      && (s.Some? ==> Level(g, nodes, rank, d, s.value))
    decreases |matches|
  {
    hide Strikes, Level, Loose, Marks, Repr, Ranked, DelAt, TakenOut, RemovedFrom, AllStand, Picked, Struck;
    if matches == [] {
      StrikesNothing(g, h, nodes, rank, d, units, n, t, path, matches, cond, marks);
    } else {
      var x, rest := matches[0], matches[1..];
      StrikesSkip(g, h, nodes, rank, d, units, n, t, path, matches);
      assert matches[0..] == matches;
      RemovedStep(h, n, matches, 0, cond);
      PickedStep(g, matches, cond);
      if !cond(TreeOf(g, x)) {
        assert [] + Picked(g, rest, cond) == Picked(g, rest, cond);
        RemovedStruck(g, h, nodes, rank, d, units, n, t, path, rest, cond, marks);
      } else {
        StrikesOne(g, h, nodes, rank, d, units, n, t, path, matches, cond);
        var m := FirstLeft(marks, units, x);
        StruckStep(marks, units, x, Picked(g, rest, cond));
        if m.Some? {
          RemovedStruck(g, DelAt(g, units + {UnitOf(m.value)}), nodes, rank, d, units + {UnitOf(m.value)}, n, t, path,
              rest, cond, marks);
        }
      }
    }
  }

  lemma {:induction false} StrikesNothing<T>(g: Heap<T>, h: Heap<T>, nodes: set<T>, rank: map<T, nat>, d: nat,
                                             units: set<Unit<T>>, n: T, t: Tree, path: seq<Move>, matches: seq<T>,
                                             cond: Tree -> bool, marks: seq<Mark<T>>)
    requires Strikes(g, h, nodes, rank, d, units, n, t, path, matches) && matches == []
    requires Stands(h, n) && AllStand(g, matches) && AllStand(h, matches)
    ensures Struck(marks, units, Picked(g, matches, cond)) == Some(units)
    ensures RemovedFrom(h, n, matches, cond) == Some(DelAt(g, units)) && Level(g, nodes, rank, d, units)
  {
    hide Repr, Underway, Level;
  }

  lemma {:induction false} PickedStep<T>(g: Heap<T>, matches: seq<T>, cond: Tree -> bool)
    requires AllStand(g, matches) && matches != []
    ensures Stands(g, matches[0]) && AllStand(g, matches[1..])
    ensures Picked(g, matches, cond)
         == (if cond(TreeOf(g, matches[0])) then [matches[0]] else []) + Picked(g, matches[1..], cond)
  {
    assert matches[0] in matches;
  }

  lemma {:induction false} StruckStep<T>(marks: seq<Mark<T>>, units: set<Unit<T>>, x: T, rest: seq<T>)
    ensures var m := FirstLeft(marks, units, x);
      Struck(marks, units, [x] + rest)
      == if m.None? then None else Struck(marks, units + {UnitOf(m.value)}, rest)
  {
    assert ([x] + rest)[1..] == rest;
  }

  lemma {:induction false} UnderwayParts<T>(g: Heap<T>, h: Heap<T>, nodes: set<T>, rank: map<T, nat>, d: nat, n: T,
                                            t: Tree, matches: seq<T>)
    requires Underway(g, h, nodes, rank, d, n, t, matches) && matches != []
    ensures Repr(g, n, t) && Ranked(g, nodes, rank) && Stands(h, n) && nodes <= g.Keys
    ensures matches[0] in matches && matches[0] in nodes && matches[0] in rank && rank[matches[0]] == d
    ensures AllStand(g, matches) && AllStand(h, matches)
  {
  }

  /** Scalars have no children, and documents are at the top only. */
  predicate Nested(t: Tree) {
    (t.kind == ScalarNode ==> t.children == []) && forall c :: c in t.children ==> c.kind != DocumentNode && Nested(c)
  }

  /** Below the top only mappings and lists hold anything. */
  lemma {:induction false} NestedHolder<T>(g: Heap<T>, n: T, t: Tree, p: T)
    requires Repr(g, n, t) && Nested(t) && p in Reach(g, n, t) && p in g && g[p].content != []
    ensures p == n || g[p].kind == MappingNode || g[p].kind == SequenceNode
    ensures g[p].kind == DocumentNode ==> t.kind == DocumentNode && (p == n || n == p)
    ensures g[p].kind != ScalarNode
    decreases t
  {
    if p != n {
      var i :| 0 <= i < |t.children| && p in Reach(g, g[n].content[i], t.children[i]);
      assert t.children[i] in t.children;
      NestedHolder(g, g[n].content[i], t.children[i], p);
    }
  }

  /** A path that goes beyond the content of a document. */
  predicate Inside(t: Tree, path: seq<Move>) {
    path != [] && (t.kind == DocumentNode ==> |path| > 1)
  }

  lemma {:induction false} SpotsLoose<T>(g: Heap<T>, n: T, t: Tree, path: seq<Move>, rank: map<T, nat>, x: T)
    requires Repr(g, n, t) && Even(g, Reach(g, n, t), rank) && Nested(t) && Inside(t, path)
    requires x in NodesAt(Spots(g, n, t, path))
    ensures Reach(g, n, t) <= g.Keys && n in Reach(g, n, t) && x in Reach(g, n, t) && rank[x] == rank[n] + |path|
    ensures Loose(g, Reach(g, n, t), x)
  {
    var nodes, spots := Reach(g, n, t), Spots(g, n, t, path);
    ReachInHeap(g, n, t);
    SpotsAside(g, n, t, path);
    var i :| 0 <= i < |spots| && NodesAt(spots)[i] == x;
    assert spots[i] in spots;
    SpotsRanked(g, nodes, rank, n, t, path, spots[i]);
    forall p | p in nodes && x in g[p].content
      ensures g[p].kind == MappingNode || g[p].kind == SequenceNode
    {
      NestedHolder(g, n, t, p);
      assert rank[x] == rank[p] + 1;
    }
  }

  /** Nothing but mappings and lists holds the places of the path, and those as values. */
  ghost predicate LooseSpots<T>(g: Heap<T>, n: T, t: Tree, path: seq<Move>)
    requires Repr(g, n, t)
  {
    Reach(g, n, t) <= g.Keys && forall x :: x in NodesAt(Spots(g, n, t, path)) ==> Loose(g, Reach(g, n, t), x)
  }

  lemma {:induction false} NestedLoose<T>(g: Heap<T>, n: T, t: Tree, path: seq<Move>, rank: map<T, nat>)
    requires Repr(g, n, t) && Even(g, Reach(g, n, t), rank) && Nested(t) && Inside(t, path)
    ensures LooseSpots(g, n, t, path)
  {
    ReachInHeap(g, n, t);
    forall x | x in NodesAt(Spots(g, n, t, path))
      ensures Loose(g, Reach(g, n, t), x)
    {
      SpotsLoose(g, n, t, path, rank, x);
    }
  }

  lemma {:induction false} SpotDeep<T>(g: Heap<T>, n: T, t: Tree, path: seq<Move>, rank: map<T, nat>, x: T)
    requires Repr(g, n, t) && Even(g, Reach(g, n, t), rank) && x in NodesAt(Spots(g, n, t, path))
    ensures n in rank && x in Reach(g, n, t) && x in rank && rank[x] == rank[n] + |path|
  {
    ReachInHeap(g, n, t);
    var spots := Spots(g, n, t, path);
    var i :| 0 <= i < |spots| && NodesAt(spots)[i] == x;
    assert spots[i] in spots;
    SpotsRanked(g, Reach(g, n, t), rank, n, t, path, spots[i]);
  }

  lemma {:induction false} DelAtNothing<T>(g: Heap<T>)
    ensures DelAt(g, {}) == g
  {
    forall p | p in g
      ensures Drop(g[p].kind, g[p].content, MaskAt(g, p, {})) == g[p].content
    {
      DropNone(g[p].kind, g[p].content, MaskAt(g, p, {}));
    }
  }

  lemma {:induction false} UnderwayStart<T>(g: Heap<T>, n: T, t: Tree, path: seq<Move>, rank: map<T, nat>)
    requires Repr(g, n, t) && Even(g, Reach(g, n, t), rank) && path != [] && LooseSpots(g, n, t, path)
    ensures n in rank
    ensures Underway(g, g, Reach(g, n, t), rank, rank[n] + |path|, n, t, NodesAt(Spots(g, n, t, path)))
    ensures Level(g, Reach(g, n, t), rank, rank[n] + |path|, {})
  {
    ReachInHeap(g, n, t);
    SpotsStand(g, n, t, path);
    SpotsAside(g, n, t, path);
    ThinnerSelf(g);
    forall x | x in NodesAt(Spots(g, n, t, path))
      ensures x in Reach(g, n, t) && rank[x] == rank[n] + |path|
    {
      SpotDeep(g, n, t, path, rank, x);
    }
  }

  lemma {:induction false} StrikesStart<T>(g: Heap<T>, n: T, t: Tree, path: seq<Move>, rank: map<T, nat>)
    requires Repr(g, n, t) && Even(g, Reach(g, n, t), rank) && path != [] && LooseSpots(g, n, t, path)
    ensures n in rank && AllStand(g, NodesAt(Spots(g, n, t, path))) && Stands(g, n)
    ensures Strikes(g, g, Reach(g, n, t), rank, rank[n] + |path|, {}, n, t, path, NodesAt(Spots(g, n, t, path)))
  {
    ReachInHeap(g, n, t);
    DelAtNothing(g);
    UnderwayStart(g, n, t, path, rank);
    hide Level, Loose, DelAt, Even, Spots;
  }

  /** The removals of a patch take, for every match, the first position of its node that is left. */
  lemma {:induction false} RemovalStrikes<T>(g: Heap<T>, n: T, t: Tree, path: seq<Move>, cond: Tree -> bool,
                                             rank: map<T, nat>)
    requires Repr(g, n, t) && Even(g, Reach(g, n, t), rank) && path != [] && LooseSpots(g, n, t, path)
    ensures var marks := Marks(g, n, t, path, true, cond);
      var s := Struck(marks, {}, ChosenNodes(marks));
      && Removal(g, n, t, path, cond) == Outcome(g, s)
      && (s.Some? ==> n in rank && Level(g, Reach(g, n, t), rank, rank[n] + |path|, s.value))
  {
    hide Level, Loose, Marks, Even, Spots, NodesAt, DelAt, Struck, Picked, ChosenNodes, Strikes, Repr, Reach, Outcome,
         RemovedFrom, Stands, AllStand;
    var matches, marks := NodesAt(Spots(g, n, t, path)), Marks(g, n, t, path, true, cond);
    StrikesStart(g, n, t, path, rank);
    PickedAreChosen(g, n, t, path, true, cond);
    RemovedStruck(g, g, Reach(g, n, t), rank, rank[n] + |path|, {}, n, t, path, matches, cond, marks);
  }
}
