/** Steady removals and replacements: they make the tree what it is meant to be, and keep the document laid out. */
module SteadyEdits {
  import opened Strings
  import opened Trees
  import opened Graph
  import opened Removing
  import opened Holders
  import opened Removals
  import opened SharedRemoving
  import opened SharedDocuments
  import opened Scans
  import opened Marking
  import opened Striking
  import opened StruckTrees
  import opened Patches
  import opened Placing
  import opened PlacedTrees
  import opened Layouts
  import opened EditedLayouts
  import opened SteadyPaths

  // ----- who holds the places

  predicate Holding(kind: Kind) {
    kind == MappingNode || kind == SequenceNode
  }

  predicate EndsInGo(path: seq<Move>) {
    path != [] && path[|path| - 1].Go?
  }

  lemma {:induction false} SpotHeldBy<T>(g: Heap<T>, n: T, t: Tree, path: seq<Move>, s: Spot<T>) returns (p: T, i: nat)
    requires Repr(g, n, t) && EndsInGo(path) && s in Spots(g, n, t, path)
    ensures p in Reach(g, n, t) && ValueEntry(g, p, i) && g[p].content[i] == s.node && Holding(g[p].kind)
    decreases |path|
  {
    SpotsMembers(g, n, t, path, s);
    var a: nat :| SpotBelow(g, n, t, path, s, a);
    if |path| == 1 {
      assert path[1..] == [];
      p, i := n, a;
    } else {
      p, i := SpotHeldBy(g, g[n].content[a], t.children[a], path[1..], s);
      ReachChild(g, n, t, a);
    }
  }

  lemma {:induction false} LaidLoose<T>(g: Heap<T>, n: T, t: Tree, path: seq<Move>, rank: map<T, nat>,
                                        shared: set<Tree>)
    requires LaidDoc(g, n, t, rank, shared) && EndsInGo(path)
    ensures LooseSpots(g, n, t, path)
  {
    var nodes, spots := Reach(g, n, t), Spots(g, n, t, path);
    ReachInHeap(g, n, t);
    hide Repr, Reach, Ranked, Spots, HeldOnceOr, Loose;
    forall x | x in NodesAt(spots)
      ensures Loose(g, nodes, x)
    {
      var k :| 0 <= k < |spots| && NodesAt(spots)[k] == x;
      assert spots[k] in spots;
      var p, i := SpotHeldBy(g, n, t, path, spots[k]);
      OneLoose(g, nodes, shared, p, i, x);
    }
  }

  /** A node that a mapping or a list holds as a value is held so everywhere. */
  lemma {:induction false} OneLoose<T>(g: Heap<T>, nodes: set<T>, shared: set<Tree>, p: T, i: nat, x: T)
    requires HeldOnceOr(g, nodes, shared) && nodes <= g.Keys && p in nodes && ValueEntry(g, p, i)
    requires g[p].content[i] == x && Holding(g[p].kind)
    ensures Loose(g, nodes, x)
  {
    assert Entry(g, nodes, p, i);
    forall q, j: nat | q in nodes && j < |g[q].content| && g[q].content[j] == x
      ensures Holding(g[q].kind) && ValueEntry(g, q, j)
    {
      assert Entry(g, nodes, q, j);
    }
  }

  lemma {:induction false} ChosenHeldBy<T>(g: Heap<T>, n: T, t: Tree, path: seq<Move>, on: bool, cond: Tree -> bool,
                                           whole: bool, m: Mark<T>)
    requires Repr(g, n, t) && EndsInGo(path) && m in Marks(g, n, t, path, on, cond, whole) && m.chosen
    ensures m.holder in g && Holding(g[m.holder].kind)
    decreases |path|
  {
    var k := MarkMember(g, n, t, path, on, cond, 0, whole, m);
    if |path| > 1 {
      MarksAtIs(g, n, t, path, on, cond, k, whole);
      hide Marks, MarksAt, MarksFrom;
      ChosenHeldBy(g, g[n].content[k], t.children[k], path[1..], on && Selects(t.kind, Values(t.children), path[0], k),
          cond, whole, m);
    }
  }

  // ----- where the units come from

  lemma {:induction false} StruckFrom<T>(marks: seq<Mark<T>>, units: set<Unit<T>>, xs: seq<T>)
    requires Struck(marks, units, xs).Some?
    ensures forall u :: u in Struck(marks, units, xs).value ==> u in units || exists m :: m in marks && UnitOf(m) == u
    decreases |xs|
  {
    if xs != [] {
      var m := FirstLeft(marks, units, xs[0]);
      FirstLeftIs(marks, units, xs[0]);
      StruckFrom(marks, units + {UnitOf(m.value)}, xs[1..]);
    }
  }

  lemma {:induction false} SownFrom<T>(marks: seq<Mark<T>>, units: set<Unit<T>>, xs: seq<T>)
    ensures forall u :: u in Sown(marks, units, xs) ==> u in units || exists m :: m in marks && UnitOf(m) == u
    ensures |Sown(marks, units, xs)| <= |units| + |xs|
    decreases |xs|
  {
    if xs != [] {
      var m := FirstLeft(marks, units, xs[0]);
      FirstLeftIs(marks, units, xs[0]);
      SownFrom(marks, if m.None? then units else units + {UnitOf(m.value)}, xs[1..]);
    }
  }

  /** The units are those of chosen marks. */
  ghost predicate OfChosen<T>(marks: seq<Mark<T>>, units: set<Unit<T>>) {
    forall u :: u in units ==> exists m :: m in marks && m.chosen && UnitOf(m) == u
  }

  lemma {:induction false} FollowsChosen<T>(marks: seq<Mark<T>>, units: set<Unit<T>>)
    requires Follows(marks, units) && forall u :: u in units ==> exists m :: m in marks && UnitOf(m) == u
    ensures OfChosen(marks, units)
  {
    forall u | u in units
      ensures exists m :: m in marks && m.chosen && UnitOf(m) == u
    {
      var m :| m in marks && UnitOf(m) == u;
      assert Taken(m, units);
    }
  }

  /** No holder of a chosen place is met below a node that stands for a shared tree. */
  lemma {:induction false} UnitsBeside<T>(g: Heap<T>, n: T, t: Tree, path: seq<Move>, cond: Tree -> bool,
                                          rank: map<T, nat>, shared: set<Tree>, whole: bool, units: set<Unit<T>>, x: T,
                                          s: Tree)
    requires LaidDoc(g, n, t, rank, shared) && path != [] && ParentsClear(t, path, shared)
    requires OfChosen(Marks(g, n, t, path, true, cond, whole), units)
    requires x in Reach(g, n, t) && Repr(g, x, s) && s in shared
    ensures forall u :: u in units ==> u.holder !in Reach(g, x, s)
  {
    var nodes, marks := Reach(g, n, t), Marks(g, n, t, path, true, cond, whole);
    ReachInHeap(g, n, t);
    hide Marks, Laid, ParentsClear;
    forall u | u in units
      ensures u.holder !in Reach(g, x, s)
    {
      if u.holder in Reach(g, x, s) {
        var m :| m in marks && m.chosen && UnitOf(m) == u;
        MarkRelated(g, nodes, rank, shared, n, t, path, true, cond, whole, m, x, s);
        LaidRanked(g, nodes, rank, shared);
        ReachRanked(g, nodes, rank, x, s, n);
        ReachRanked(g, nodes, rank, n, t, x);
      }
    }
  }

  lemma {:induction false} LaidRanked<T>(g: Heap<T>, nodes: set<T>, rank: map<T, nat>, shared: set<Tree>)
    requires Laid(g, nodes, rank, shared)
    ensures Ranked(g, nodes, rank) && HeldOnceOr(g, nodes, shared)
  {
  }

  // ----- removals keep documents laid out

  /** Where an entry of a thinned content list was before. */
  ghost function Was<T>(g: Heap<T>, units: set<Unit<T>>, p: T): seq<nat>
    requires p in g
  {
    Kept(g[p].kind, MaskAt(g, p, units), |g[p].content|)
  }

  lemma {:induction false} WasAt<T>(g: Heap<T>, units: set<Unit<T>>, p: T, i: nat)
    requires p in g && i < |DelAt(g, units)[p].content|
    ensures i < |Was(g, units, p)| && Was(g, units, p)[i] < |g[p].content|
    ensures g[p].content[Was(g, units, p)[i]] == DelAt(g, units)[p].content[i]
    ensures g[p].kind == MappingNode ==> Odd(Was(g, units, p)[i]) == Odd(i)
    ensures Ascending(Was(g, units, p))
  {
    KeptOrdered(g[p].kind, MaskAt(g, p, units), |g[p].content|);
    KeptPairs(MaskAt(g, p, units), |g[p].content|);
  }

  lemma {:induction false} DelAtEntry<T>(g: Heap<T>, nodes: set<T>, shared: set<Tree>, units: set<Unit<T>>, p: T,
                                         i: nat)
    returns (a: nat)
    requires Entry(DelAt(g, units), nodes, p, i) && p in g && SharedKept(g, DelAt(g, units), nodes, shared)
    requires forall c :: c in g[p].content ==> c in nodes
    ensures Entry(g, nodes, p, a) && g[p].content[a] == DelAt(g, units)[p].content[i]
    ensures i < |Was(g, units, p)| && a == Was(g, units, p)[i] && Ascending(Was(g, units, p))
    ensures SharedEntry(g, p, a, shared) ==> SharedEntry(DelAt(g, units), p, i, shared)
  {
    WasAt(g, units, p, i);
    a := Was(g, units, p)[i];
    assert g[p].content[a] in g[p].content && DelAt(g, units)[p].kind == g[p].kind;
    hide DelAt, Was;
  }

  lemma {:induction false} DelAtHeld<T>(g: Heap<T>, nodes: set<T>, shared: set<Tree>, units: set<Unit<T>>)
    requires HeldOnceOr(g, nodes, shared) && nodes <= g.Keys && SharedKept(g, DelAt(g, units), nodes, shared)
    requires forall p, c :: p in nodes && c in g[p].content ==> c in nodes
    ensures HeldOnceOr(DelAt(g, units), nodes, shared)
  {
    var h := DelAt(g, units);
    hide DelAt, Was, SharedEntry, SharedKept;
    forall p, i: nat, q, j: nat |
      p in nodes && q in nodes && Entry(h, nodes, p, i) && Entry(h, nodes, q, j) && h[p].content[i] == h[q].content[j]
      ensures (p == q && i == j) || SharedEntry(h, p, i, shared)
    {
      var a := DelAtEntry(g, nodes, shared, units, p, i);
      var b := DelAtEntry(g, nodes, shared, units, q, j);
    }
  }

  lemma {:induction false} DelAtSame<T>(g: Heap<T>, units: set<Unit<T>>, x: T, s: Tree)
    requires Repr(g, x, s) && forall u :: u in units ==> u.holder !in Reach(g, x, s)
    ensures Stands(DelAt(g, units), x) && TreeOf(DelAt(g, units), x) == s
  {
    ReachInHeap(g, x, s);
    forall q | q in Reach(g, x, s)
      ensures q in DelAt(g, units) && DelAt(g, units)[q] == g[q]
    {
      DropNone(g[q].kind, g[q].content, MaskAt(g, q, units));
    }
    ReprFrame(g, DelAt(g, units), x, s);
    StandsFor(DelAt(g, units), x, s);
  }

  lemma {:induction false} DelAtShared<T>(g: Heap<T>, n: T, t: Tree, path: seq<Move>, cond: Tree -> bool,
                                          rank: map<T, nat>, shared: set<Tree>, units: set<Unit<T>>)
    requires LaidDoc(g, n, t, rank, shared) && path != [] && ParentsClear(t, path, shared)
    requires OfChosen(Marks(g, n, t, path, true, cond), units)
    ensures SharedKept(g, DelAt(g, units), Reach(g, n, t), shared)
  {
    hide ParentsClear, Marks, DelAt, OfChosen, Laid, Reach;
    forall x | x in Reach(g, n, t) && Stands(g, x) && TreeOf(g, x) in shared
      ensures Stands(DelAt(g, units), x) && TreeOf(DelAt(g, units), x) == TreeOf(g, x)
    {
      UnitsBeside(g, n, t, path, cond, rank, shared, true, units, x, TreeOf(g, x));
      DelAtSame(g, units, x, TreeOf(g, x));
    }
  }

  lemma {:induction false} DelAtLaid<T>(g: Heap<T>, n: T, t: Tree, path: seq<Move>, cond: Tree -> bool,
                                        rank: map<T, nat>, shared: set<Tree>, units: set<Unit<T>>)
    requires LaidDoc(g, n, t, rank, shared) && path != [] && ParentsClear(t, path, shared)
    requires OfChosen(Marks(g, n, t, path, true, cond), units)
    ensures LaidDoc(DelAt(g, units), n, AtOver(g, n, t, units), rank, shared)
  {
    var nodes, h, u := Reach(g, n, t), DelAt(g, units), AtOver(g, n, t, units);
    ContentWithin(g, n, t);
    ReachInHeap(g, n, t);
    AtRepr(g, n, t, units);
    hide ParentsClear, Marks, DelAt, AtOver, OfChosen, HeldOnceOr, Reach, Repr, Ranked, SharedKept, Thinner;
    DelAtShared(g, n, t, path, cond, rank, shared, units);
    DelAtThinner(g, units);
    ThinnerRanked(g, h, nodes, rank);
    DelAtHeld(g, nodes, shared, units);
    LaidWithin(h, nodes, rank, shared, n, u);
  }

  /** Steady removals run through, leave the tree without the chosen places, and keep the document laid out. */
  lemma {:induction false} SteadyRemoval<T>(g: Heap<T>, n: T, t: Tree, path: seq<Move>, cond: Tree -> bool,
                                            rank: map<T, nat>, shared: set<Tree>)
    requires LaidDoc(g, n, t, rank, shared) && EndsInGo(path) && Steady(t, path, cond, shared)
    ensures Removal(g, n, t, path, cond).Some?
    ensures LaidDoc(Removal(g, n, t, path, cond).value, n, Delete(t, path, cond), rank, shared)
  {
    var marks := Marks(g, n, t, path, true, cond);
    LaidLoose(g, n, t, path, rank, shared);
    LaidEven(g, Reach(g, n, t), rank, shared);
    SteadyMarks(g, n, t, path, cond, rank, shared, true);
    hide Marks, Foremost, Singly, Even, LooseSpots, ParentsClear, FirstChosen, OncePerList, Laid, Removal, Delete,
         DelAt, AtOver, Repr, Reach, Follows, Level;
    OrderlyRemoval(g, n, t, path, cond, rank);
    var s := Struck(marks, {}, ChosenNodes(marks));
    StruckFrom(marks, {}, ChosenNodes(marks));
    FollowsChosen(marks, s.value);
    DelAtLaid(g, n, t, path, cond, rank, shared, s.value);
  }

  // ----- the root

  /** A document keeps what it holds. */
  lemma {:induction false} RootStays<T>(g: Heap<T>, n: T, t: Tree, xs: seq<T>, cond: Tree -> bool)
    requires Repr(g, n, t) && t.kind == DocumentNode && AllStand(g, xs) && forall x :: x in xs ==> x in g[n].content
    ensures Stands(g, n) && RemovedFrom(g, n, xs, cond) == Some(g)
    decreases |xs|
  {
    StandsFor(g, n, t);
    if xs != [] {
      assert xs[0] in xs && xs[0..] == xs;
      assert TakenOut(g, n, xs[0]) == Some(g);
      hide TakenOut;
      RemovedStep(g, n, xs, 0, cond);
      RootStays(g, n, t, xs[1..], cond);
    }
  }

  lemma {:induction false} RootRemoval<T>(g: Heap<T>, n: T, t: Tree, cond: Tree -> bool)
    requires Repr(g, n, t) && t.kind == DocumentNode
    ensures Removal(g, n, t, [Unwrap], cond) == Some(g) && Delete(t, [Unwrap], cond) == t
  {
    SpotsStand(g, n, t, [Unwrap]);
    var spots := Spots(g, n, t, [Unwrap]);
    forall x | x in NodesAt(spots)
      ensures x in g[n].content
    {
      var k :| 0 <= k < |spots| && NodesAt(spots)[k] == x;
      assert spots[k] in spots;
      SpotsMembers(g, n, t, [Unwrap], spots[k]);
      assert [Unwrap][1..] == [];
    }
    RootStays(g, n, t, NodesAt(spots), cond);
    var mask := DeleteMask(t, Unwrap, cond);
    KeepsAll(t.kind, mask, |mask|);
    assert Drop(t.kind, t.children, mask) == t.children;
  }

  // ----- replacements keep documents laid out

  /** A value that was put in several places is one of the shared trees from then on. */
  ghost function Grown(t: Tree, path: seq<Move>, wt: Tree, shared: set<Tree>): set<Tree> {
    if |Lookup(t, path)| <= 1 then shared else shared + {wt}
  }

  lemma {:induction false} PickedFew<T>(g: Heap<T>, xs: seq<T>, cond: Tree -> bool)
    requires AllStand(g, xs)
    ensures |Picked(g, xs, cond)| <= |xs|
  {
    if xs != [] {
      assert xs[0] in xs;
      PickedFew(g, xs[1..], cond);
    }
  }

  /** There are at most as many units as places. */
  lemma {:induction false} UnitsFew<T>(g: Heap<T>, n: T, t: Tree, path: seq<Move>, cond: Tree -> bool)
    requires Repr(g, n, t) && path != []
    ensures var marks := Marks(g, n, t, path, true, cond, false);
      |Sown(marks, {}, ChosenNodes(marks))| <= |Lookup(t, path)|
  {
    var marks := Marks(g, n, t, path, true, cond, false);
    SownFrom(marks, {}, ChosenNodes(marks));
    SpotsLookup(g, n, t, path);
    SpotsStand(g, n, t, path);
    PickedAreChosen(g, n, t, path, true, cond, false);
    PickedFew(g, NodesAt(Spots(g, n, t, path)), cond);
  }

  /** Where the value sits: at the entry of the only unit, or at several entries. */
  ghost function SeatsOf<T>(units: set<Unit<T>>, many: bool): seq<Seat<T>> {
    if units == {} then []
    else
      var u :| u in units;
      [Seat(u.holder, if many then None else Some(u.index))]
  }

  ghost function RootsIf<T>(units: set<Unit<T>>, w: T): seq<T> {
    if units == {} then [] else [w]
  }

  ghost function TreesIf<T>(units: set<Unit<T>>, wt: Tree): seq<Tree> {
    if units == {} then [] else [wt]
  }

  /** A steady replacement, once it is known where it puts the value. */
  ghost predicate Putting<T>(g: Heap<T>, n: T, t: Tree, path: seq<Move>, cond: Tree -> bool, w: T, wt: Tree,
                             rank: map<T, nat>, shared: set<Tree>, units: set<Unit<T>>, many: bool) {
    && LaidDoc(g, n, t, rank, shared) && path != [] && n in rank && ParentsClear(t, path, shared)
    && Beside(g, n, t, w, wt)
    && Field(g, Reach(g, n, t), Reach(g, n, t) + Reach(g, w, wt), rank, rank[n] + |path|, n, t, w, wt)
    && TreeShaped(g, w, wt) && Sowable(g, Reach(g, n, t), rank, rank[n] + |path|, units)
    && OfChosen(Marks(g, n, t, path, true, cond, false), units) && (!many ==> |units| <= 1)
    && (many ==> EndsInGo(path))
  }

  lemma {:induction false} PutShared<T>(g: Heap<T>, n: T, t: Tree, path: seq<Move>, cond: Tree -> bool, w: T, wt: Tree,
                                        rank: map<T, nat>, shared: set<Tree>, units: set<Unit<T>>, many: bool)
    requires Putting(g, n, t, path, cond, w, wt, rank, shared, units, many) && Repr(g, n, t)
    ensures SharedKept(g, PutHeap(g, units, w), Reach(g, n, t), shared)
  {
    hide ParentsClear, Marks, PutHeap, OfChosen, Laid, Reach, Field, Sowable;
    forall x | x in Reach(g, n, t) && Stands(g, x) && TreeOf(g, x) in shared
      ensures Stands(PutHeap(g, units, w), x) && TreeOf(PutHeap(g, units, w), x) == TreeOf(g, x)
    {
      UnitsBeside(g, n, t, path, cond, rank, shared, false, units, x, TreeOf(g, x));
      PutSame(g, units, w, x, TreeOf(g, x));
    }
  }

  lemma {:induction false} PutSame<T>(g: Heap<T>, units: set<Unit<T>>, w: T, x: T, s: Tree)
    requires Repr(g, x, s) && forall u :: u in units ==> u.holder !in Reach(g, x, s)
    ensures Stands(PutHeap(g, units, w), x) && TreeOf(PutHeap(g, units, w), x) == s
  {
    ReachInHeap(g, x, s);
    forall q | q in Reach(g, x, s)
      ensures q in PutHeap(g, units, w) && PutHeap(g, units, w)[q] == g[q]
    {
      assert PutRow(g, q, units, w) == g[q].content;
    }
    ReprFrame(g, PutHeap(g, units, w), x, s);
    StandsFor(PutHeap(g, units, w), x, s);
  }

  /** The value is a part of its own. */
  lemma {:induction false} PutParts<T>(g: Heap<T>, n: T, t: Tree, path: seq<Move>, cond: Tree -> bool, w: T, wt: Tree,
                                       rank: map<T, nat>, shared: set<Tree>, units: set<Unit<T>>, many: bool)
    requires Putting(g, n, t, path, cond, w, wt, rank, shared, units, many) && Repr(g, n, t)
    ensures var h := PutHeap(g, units, w);
      && Repr(h, w, wt) && Reach(h, w, wt) !! Reach(g, n, t)
      && PartsMade(h, Reach(g, n, t), RootsIf(units, w), TreesIf(units, wt))
  {
    var h, nodes := PutHeap(g, units, w), Reach(g, n, t);
    ReachInHeap(g, w, wt);
    hide LaidDoc, ParentsClear, Marks, OfChosen, Ranked;
    forall x | x in Reach(g, w, wt)
      ensures x in h && h[x] == g[x]
    {
      RowSame(g, nodes, rank, rank[n] + |path|, units, w, x);
    }
    ReprFrame(g, h, w, wt);
    hide PutHeap, Sowable, Repr, Reach, TreeShaped;
    ValueMade(h, nodes, units, w, wt);
  }

  lemma {:induction false} ValueMade<T>(h: Heap<T>, nodes: set<T>, units: set<Unit<T>>, w: T, wt: Tree)
    requires Repr(h, w, wt) && TreeShaped(h, w, wt) && Reach(h, w, wt) !! nodes
    ensures PartsMade(h, nodes, RootsIf(units, w), TreesIf(units, wt))
  {
    hide Repr, Reach, TreeShaped;
    forall j: nat, x | x in nodes
      ensures !InPart(h, RootsIf(units, w), TreesIf(units, wt), j, x)
    {
    }
  }

  /** An entry that takes the value is where the seat says. */
  lemma {:induction false} PutSeat<T>(g: Heap<T>, n: T, t: Tree, path: seq<Move>, cond: Tree -> bool, w: T, wt: Tree,
                                      rank: map<T, nat>, shared: set<Tree>, units: set<Unit<T>>, many: bool,
                                      more: set<Tree>, p: T, i: nat)
    requires Putting(g, n, t, path, cond, w, wt, rank, shared, units, many) && Repr(g, n, t)
    requires Repr(PutHeap(g, units, w), w, wt) && (many ==> wt in more)
    requires p in g && i < |g[p].content| && UnitAt(g, p, i, false) in units
    ensures |SeatsOf(units, many)| == 1 && IsAt(PutHeap(g, units, w), rank, more, SeatsOf(units, many)[0], p, i)
    ensures RootsIf(units, w) == [w] && PutHeap(g, units, w)[p].content[i] == w
  {
    var h, o := PutHeap(g, units, w), UnitAt(g, p, i, false);
    var u := SeatsOf(units, many)[0];
    hide LaidDoc, ParentsClear, Field, Repr, TreeShaped;
    if many {
      var m :| m in Marks(g, n, t, path, true, cond, false) && m.chosen && UnitOf(m) == o;
      hide Marks;
      ChosenHeldBy(g, n, t, path, true, cond, false, m);
      StandsFor(h, w, wt);
      assert SharedEntry(h, p, i, more);
    } else {
      OneUnit(units, o);
    }
  }

  lemma {:induction false} OneUnit<T>(units: set<Unit<T>>, o: Unit<T>)
    requires o in units && |units| <= 1
    ensures forall u :: u in units ==> u == o
  {
    assert units == {o} + (units - {o});
  }

  lemma {:induction false} PutOld<T>(g: Heap<T>, n: T, t: Tree, path: seq<Move>, cond: Tree -> bool, w: T, wt: Tree,
                                     rank: map<T, nat>, shared: set<Tree>, units: set<Unit<T>>, many: bool,
                                     more: set<Tree>)
    requires Putting(g, n, t, path, cond, w, wt, rank, shared, units, many) && Repr(g, n, t)
    requires Repr(PutHeap(g, units, w), w, wt) && (many ==> wt in more)
    ensures OldMade(g, PutHeap(g, units, w), rank, more, Reach(g, n, t), SeatsOf(units, many), RootsIf(units, w))
  {
    var h, olds, at, roots := PutHeap(g, units, w), Reach(g, n, t), SeatsOf(units, many), RootsIf(units, w);
    ContentWithin(g, n, t);
    hide Putting, Repr, Reach, SeatsOf, RootsIf;
    forall p | p in olds
      ensures p in g && p in h && h[p].kind == g[p].kind
      ensures forall i: nat :: i < |h[p].content| ==> RowMade(g, h, rank, more, olds, at, roots, p, i)
    {
      forall i: nat | i < |h[p].content|
        ensures RowMade(g, h, rank, more, olds, at, roots, p, i)
      {
        if UnitAt(g, p, i, false) in units {
          PutSeat(g, n, t, path, cond, w, wt, rank, shared, units, many, more, p, i);
          assert h[p].content[i] == roots[0];
        } else {
          assert g[p].content[i] in g[p].content;
        }
      }
    }
  }

  /** Everything met in the new document was met in the old one or in the value. */
  lemma {:induction false} PutNow<T>(g: Heap<T>, n: T, t: Tree, w: T, wt: Tree, units: set<Unit<T>>, u: Tree)
    requires Repr(g, n, t) && Repr(PutHeap(g, units, w), n, u) && Repr(PutHeap(g, units, w), w, wt)
    requires forall x :: x in units ==> x.holder in Reach(g, n, t)
    ensures var h := PutHeap(g, units, w);
      forall x :: x in Reach(h, n, u) ==>
        x in h && (x in Reach(g, n, t) || exists j: nat :: InPart(h, RootsIf(units, w), TreesIf(units, wt), j, x))
  {
    var h, nodes, part := PutHeap(g, units, w), Reach(g, n, t), if units == {} then {}
        else Reach(PutHeap(g, units, w), w, wt);
    ContentWithin(g, n, t);
    ContentWithin(h, n, u);
    ContentWithin(h, w, wt);
    ReachInHeap(g, n, t);
    ReachInHeap(h, w, wt);
    hide Repr, Reach;
    forall p, c | p in nodes + part && p in h && c in h[p].content
      ensures c in nodes + part
    {
      var i: nat :| i < |h[p].content| && h[p].content[i] == c;
      assert p in nodes && c != w ==> g[p].content[i] in g[p].content;
    }
    ReachClosed(h, nodes + part, n, u);
    forall x | x in Reach(h, n, u) && x !in nodes
      ensures exists j: nat :: InPart(h, RootsIf(units, w), TreesIf(units, wt), j, x)
    {
      assert InPart(h, RootsIf(units, w), TreesIf(units, wt), 0, x);
    }
  }

  lemma {:induction false} PutMade<T>(g: Heap<T>, n: T, t: Tree, path: seq<Move>, cond: Tree -> bool, w: T, wt: Tree,
                                      rank: map<T, nat>, shared: set<Tree>, units: set<Unit<T>>, many: bool,
                                      more: set<Tree>, u: Tree)
    requires Putting(g, n, t, path, cond, w, wt, rank, shared, units, many) && Repr(g, n, t)
    requires Repr(PutHeap(g, units, w), n, u) && (many ==> wt in more)
    ensures var h := PutHeap(g, units, w);
      && Made(g, h, Reach(g, n, t), rank, more, Reach(h, n, u), Reach(g, n, t), SeatsOf(units, many),
              RootsIf(units, w), TreesIf(units, wt))
      && HoldersIn(rank, SeatsOf(units, many)) && SharedKept(g, h, Reach(g, n, t), shared)
  {
    hide Putting, Repr, Reach, PutHeap, OldMade, PartsMade, InPart, SharedKept, SeatsOf, HoldersIn;
    PuttingUnits(g, n, t, path, cond, w, wt, rank, shared, units, many);
    PutParts(g, n, t, path, cond, w, wt, rank, shared, units, many);
    PutOld(g, n, t, path, cond, w, wt, rank, shared, units, many, more);
    PutShared(g, n, t, path, cond, w, wt, rank, shared, units, many);
    PutNow(g, n, t, w, wt, units, u);
  }

  lemma {:induction false} PuttingUnits<T>(g: Heap<T>, n: T, t: Tree, path: seq<Move>, cond: Tree -> bool, w: T,
                                           wt: Tree, rank: map<T, nat>, shared: set<Tree>, units: set<Unit<T>>,
                                           many: bool)
    requires Putting(g, n, t, path, cond, w, wt, rank, shared, units, many) && Repr(g, n, t)
    ensures forall x :: x in units ==> x.holder in Reach(g, n, t)
    ensures HoldersIn(rank, SeatsOf(units, many)) && |SeatsOf(units, many)| == |RootsIf(units, w)|
  {
    hide LaidDoc, ParentsClear, Marks, OfChosen, Repr, Reach, TreeShaped, Field, Beside;
  }

  lemma {:induction false} PutLaid<T>(g: Heap<T>, n: T, t: Tree, path: seq<Move>, cond: Tree -> bool, w: T, wt: Tree,
                                      rank: map<T, nat>, shared: set<Tree>, units: set<Unit<T>>, many: bool,
                                      more: set<Tree>, u: Tree) returns (rank': map<T, nat>)
    requires Putting(g, n, t, path, cond, w, wt, rank, shared, units, many)
    requires Repr(PutHeap(g, units, w), n, u) && (many ==> wt in more) && shared <= more
    ensures LaidDoc(PutHeap(g, units, w), n, u, rank', more)
  {
    var h := PutHeap(g, units, w);
    assert LaidDoc(g, n, t, rank, shared);
    hide Putting, Repr, Reach, PutHeap, Made, HoldersIn, SharedKept, Laid, SeatsOf;
    PutMade(g, n, t, path, cond, w, wt, rank, shared, units, many, more, u);
    ContentWithin(h, n, u);
    rank' := MadeLaid(g, h, Reach(g, n, t), rank, shared, more, Reach(h, n, u), Reach(g, n, t),
      SeatsOf(units, many), RootsIf(units, w), TreesIf(units, wt));
  }

  /** The depths of the nodes of the document are all that matters. */
  lemma {:induction false} DeepLaid<T>(g: Heap<T>, n: T, t: Tree, rank: map<T, nat>, deep: map<T, nat>,
                                       shared: set<Tree>)
    requires LaidDoc(g, n, t, rank, shared) && Ranked(g, Reach(g, n, t), deep)
    ensures LaidDoc(g, n, t, deep, shared)
  {
  }

  /**
   Steady replacements make the tree what it is meant to be and keep the document laid out; the value counts as
   shared from then on if the path leads to several places.
   */
  lemma {:induction false} SteadyPlacement<T>(g: Heap<T>, n: T, t: Tree, path: seq<Move>, cond: Tree -> bool, w: T,
                                              wt: Tree, rank: map<T, nat>, shared: set<Tree>)
    returns (rank': map<T, nat>)
    requires LaidDoc(g, n, t, rank, shared) && Beside(g, n, t, w, wt) && TreeShaped(g, w, wt)
    requires path != [] && SteadyPut(t, path, cond, shared) && (|Lookup(t, path)| > 1 ==> EndsInGo(path))
    ensures LaidDoc(Placement(g, n, t, path, cond, w, wt), n, Rewrite(t, path, Given(cond, wt)), rank',
                Grown(t, path, wt, shared))
  {
    var many, u, marks := |Lookup(t, path)| > 1, Rewrite(t, path, Given(cond, wt)),
        Marks(g, n, t, path, true, cond, false);
    var units := Sown(marks, {}, ChosenNodes(marks));
    var deep := PlacementIs(g, n, t, path, cond, w, wt, rank, shared);
    hide Marks, LaidDoc, Beside, Lookup, Rewrite, PutHeap, Placement, ParentsClear, FirstChosen, Sown, ChosenNodes,
         Putting;
    rank' := PutLaid(g, n, t, path, cond, w, wt, deep, shared, units, many, Grown(t, path, wt, shared), u);
  }

  lemma {:induction false} PlacementIs<T>(g: Heap<T>, n: T, t: Tree, path: seq<Move>, cond: Tree -> bool, w: T,
                                          wt: Tree, rank: map<T, nat>, shared: set<Tree>) returns (deep: map<T, nat>)
    requires LaidDoc(g, n, t, rank, shared) && Beside(g, n, t, w, wt) && TreeShaped(g, w, wt)
    requires path != [] && SteadyPut(t, path, cond, shared) && (|Lookup(t, path)| > 1 ==> EndsInGo(path))
    ensures var marks := Marks(g, n, t, path, true, cond, false);
      var units := Sown(marks, {}, ChosenNodes(marks));
      && Placement(g, n, t, path, cond, w, wt) == PutHeap(g, units, w)
      && Repr(PutHeap(g, units, w), n, Rewrite(t, path, Given(cond, wt)))
      && Putting(g, n, t, path, cond, w, wt, deep, shared, units, |Lookup(t, path)| > 1)
  {
    var marks, nodes, wrank := Marks(g, n, t, path, true, cond, false), Reach(g, n, t), Depths(g, w, wt);
    var units := Sown(marks, {}, ChosenNodes(marks));
    hide Marks, Lookup, Rewrite, PutHeap, Placement, ParentsClear, FirstChosen, Sown, ChosenNodes, TreeShaped, Depths,
         Repr, Reach, Laid, Ranked, HeldOnceOr, Foremost, Singly, Even, Field, Sowable, OfChosen, Follows;
    TreeRanked(g, w, wt);
    LaidEven(g, nodes, rank, shared);
    LaidRanked(g, nodes, rank, shared);
    SteadyMarks(g, n, t, path, cond, rank, shared, false);
    OrderlyExactly(marks);
    deep := FieldThere(g, n, t, rank, w, wt, wrank, path);
    PlacementSown(g, n, t, path, cond, w, wt, rank, deep);
    AgreeRewrite(g, n, t, path, cond, w, wt, rank, wrank);
    UnitsFew(g, n, t, path, cond);
    SownFrom(marks, {}, ChosenNodes(marks));
    SownFollows(marks);
    FollowsChosen(marks, units);
    FieldRanked(g, nodes, nodes + Reach(g, w, wt), deep, rank[n] + |path|, n, t, w, wt);
    DeepLaid(g, n, t, rank, deep, shared);
  }

  lemma {:induction false} FieldRanked<T>(g: Heap<T>, nodes: set<T>, all: set<T>, rank: map<T, nat>, d: nat, n: T,
                                          t: Tree, w: T, wt: Tree)
    requires Field(g, nodes, all, rank, d, n, t, w, wt)
    ensures Ranked(g, nodes, rank)
  {
  }

  lemma {:induction false} SownFollows<T>(marks: seq<Mark<T>>)
    requires Agree(marks)
    ensures Follows(marks, Sown(marks, {}, ChosenNodes(marks)))
  {
    var units := Sown(marks, {}, ChosenNodes(marks));
    forall m | m in marks
      ensures Taken(m, units) <==> m.chosen
    {
      SownIsGoing(marks, m);
      var k :| 0 <= k < |marks| && marks[k] == m;
    }
  }

  lemma {:induction false} AgreeRewrite<T>(g: Heap<T>, n: T, t: Tree, path: seq<Move>, cond: Tree -> bool, w: T,
                                           wt: Tree, rank: map<T, nat>, wrank: map<T, nat>)
    requires Beside(g, n, t, w, wt) && path != [] && Even(g, Reach(g, n, t), rank)
    requires Ranked(g, Reach(g, w, wt), wrank) && Agree(Marks(g, n, t, path, true, cond, false))
    ensures Repr(Placement(g, n, t, path, cond, w, wt), n, Rewrite(t, path, Given(cond, wt)))
  {
    var marks := Marks(g, n, t, path, true, cond, false);
    hide Marks, Even, Ranked, Placement, Rewrite;
    forall m | m in marks
      ensures Taken(m, Going(marks, m.node)) <==> m.chosen
    {
      var k :| 0 <= k < |marks| && marks[k] == m;
    }
    ReplacementIsRewrite(g, n, t, path, cond, w, wt, rank, wrank);
  }
}
