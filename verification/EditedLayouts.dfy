/** Edits of open places keep a document laid out: what was held once is held once afterwards. */
module EditedLayouts {
  import opened Strings
  import opened Trees
  import opened Graph
  import opened Replacing
  import opened Removals
  import opened SharedRemoving
  import opened SharedDocuments
  import opened Editing
  import opened Layouts

  // ----- documents made of old nodes and new parts

  ghost predicate InPart<T>(h: Heap<T>, roots: seq<T>, trees: seq<Tree>, j: nat, x: T) {
    && j < |roots| && j < |trees| && Repr(h, roots[j], trees[j]) && x in Reach(h, roots[j], trees[j])
  }

  /** Where the root of a part is: at one entry of the holder, or at several entries as deep as those of the holder. */
  datatype Seat<T> = Seat(holder: T, index: Option<nat>)

  /** An entry of an old node: as it was, or the root of a part. */
  ghost predicate RowMade<T>(g: Heap<T>, h: Heap<T>, rank: map<T, nat>, shared: set<Tree>, olds: set<T>,
                             at: seq<Seat<T>>, roots: seq<T>, p: T, i: nat) {
    && p in g && p in h && i < |h[p].content|
    && ((i < |g[p].content| && h[p].content[i] == g[p].content[i] && g[p].content[i] in olds)
        || exists j: nat :: j < |at| && j < |roots| && h[p].content[i] == roots[j]
             && IsAt(h, rank, shared, at[j], p, i))
  }

  ghost predicate IsAt<T>(h: Heap<T>, rank: map<T, nat>, shared: set<Tree>, a: Seat<T>, p: T, i: nat) {
    if a.index.Some? then a == Seat(p, Some(i))
    else p in h && SharedEntry(h, p, i, shared) && p in rank && a.holder in rank && rank[p] == rank[a.holder]
  }

  /** Old nodes keep their kinds, and each of their entries. */
  ghost predicate OldMade<T>(g: Heap<T>, h: Heap<T>, rank: map<T, nat>, shared: set<Tree>, olds: set<T>,
                             at: seq<Seat<T>>, roots: seq<T>) {
    forall p :: p in olds ==>
      && p in g && p in h && h[p].kind == g[p].kind
      && forall i: nat :: i < |h[p].content| ==> RowMade(g, h, rank, shared, olds, at, roots, p, i)
  }

  /** The parts are unshared, apart from each other and from the old nodes. */
  ghost predicate PartsMade<T>(h: Heap<T>, olds: set<T>, roots: seq<T>, trees: seq<Tree>) {
    && |roots| == |trees|
    && (forall j :: 0 <= j < |roots| ==> Repr(h, roots[j], trees[j]) && TreeShaped(h, roots[j], trees[j]))
    && (forall j: nat, x :: x in olds ==> !InPart(h, roots, trees, j, x))
    && forall i: nat, j: nat ::
         i < j < |roots| ==> Reach(h, roots[i], trees[i]) !! Reach(h, roots[j], trees[j])
  }

  /** The nodes of the new document are old nodes or nodes of parts; the old ones were part of the old document. */
  ghost predicate Made<T>(g: Heap<T>, h: Heap<T>, nodes: set<T>, rank: map<T, nat>, shared: set<Tree>, now: set<T>,
                          olds: set<T>, at: seq<Seat<T>>, roots: seq<T>, trees: seq<Tree>) {
    && |at| == |roots| && olds <= nodes && OldMade(g, h, rank, shared, olds, at, roots)
         && PartsMade(h, olds, roots, trees)
    && forall x :: x in now ==> x in h && (x in olds || exists j: nat :: InPart(h, roots, trees, j, x))
  }

  // ----- depths

  ghost function RankNow<T>(h: Heap<T>, rank: map<T, nat>, olds: set<T>, at: seq<Seat<T>>, roots: seq<T>,
                            trees: seq<Tree>, x: T): nat {
    if x in olds then (if x in rank then rank[x] else 0)
    else if j: nat :| InPart(h, roots, trees, j, x) then RankAt(h, rank, at, roots, trees, j, x)
    else 0
  }

  ghost predicate HoldersIn<T>(rank: map<T, nat>, at: seq<Seat<T>>) {
    forall j: nat :: j < |at| ==> at[j].holder in rank
  }

  lemma {:induction false} RootInPart<T>(h: Heap<T>, olds: set<T>, roots: seq<T>, trees: seq<Tree>, j: nat)
    requires PartsMade(h, olds, roots, trees) && j < |roots|
    ensures InPart(h, roots, trees, j, roots[j]) && roots[j] !in olds
  {
    assert roots[j] in Reach(h, roots[j], trees[j]);
    assert InPart(h, roots, trees, j, roots[j]);
  }

  lemma {:induction false} OnePart<T>(h: Heap<T>, olds: set<T>, roots: seq<T>, trees: seq<Tree>, i: nat, j: nat, x: T)
    requires PartsMade(h, olds, roots, trees) && InPart(h, roots, trees, i, x) && InPart(h, roots, trees, j, x)
    ensures i == j && x !in olds
  {
  }

  lemma {:induction false} PartRank<T>(h: Heap<T>, rank: map<T, nat>, olds: set<T>, at: seq<Seat<T>>, roots: seq<T>,
                                       trees: seq<Tree>, j: nat, x: T)
    requires PartsMade(h, olds, roots, trees) && |at| == |roots| && HoldersIn(rank, at)
    requires InPart(h, roots, trees, j, x)
    ensures RankNow(h, rank, olds, at, roots, trees, x) == rank[at[j].holder] + 1 + DepthOf(h, roots[j], trees[j], x)
  {
    OnePart(h, olds, roots, trees, j, j, x);
    assert j < |at| && at[j].holder in rank;
    hide PartsMade, DepthOf, InPart;
    var i: nat :| InPart(h, roots, trees, i, x)
        && RankNow(h, rank, olds, at, roots, trees, x)
           == RankAt(h, rank, at, roots, trees, i, x);
    OnePart(h, olds, roots, trees, i, j, x);
  }

  ghost function RankAt<T>(h: Heap<T>, rank: map<T, nat>, at: seq<Seat<T>>, roots: seq<T>, trees: seq<Tree>, j: nat,
                           x: T)
    : nat
    requires InPart(h, roots, trees, j, x)
  {
    (if j < |at| && at[j].holder in rank then rank[at[j].holder] + 1 else 0) + DepthOf(h, roots[j], trees[j], x)
  }

  lemma {:induction false} RankStep<T>(g: Heap<T>, h: Heap<T>, nodes: set<T>, rank: map<T, nat>, shared: set<Tree>,
                                       now: set<T>, olds: set<T>, at: seq<Seat<T>>, roots: seq<T>, trees: seq<Tree>,
                                       p: T, i: nat)
    requires Ranked(g, nodes, rank) && Made(g, h, nodes, rank, shared, now, olds, at, roots, trees)
        && HoldersIn(rank, at)
    requires p in now && p in h && i < |h[p].content|
    ensures RankNow(h, rank, olds, at, roots, trees, h[p].content[i])
         == RankNow(h, rank, olds, at, roots, trees, p) + 1
  {
    var c := h[p].content[i];
    if p in olds {
      assert RowMade(g, h, rank, shared, olds, at, roots, p, i);
      hide RankNow, DepthOf, PartsMade, InPart;
      OldRank(h, rank, olds, at, roots, trees, p);
      if i < |g[p].content| && c == g[p].content[i] && c in olds {
        assert g[p].content[i] in g[p].content;
        OldRank(h, rank, olds, at, roots, trees, c);
      } else {
        var j: nat :| j < |at| && j < |roots| && c == roots[j] && IsAt(h, rank, shared, at[j], p, i);
        RootInPart(h, olds, roots, trees, j);
        PartRank(h, rank, olds, at, roots, trees, j, c);
        RootDepth(h, roots[j], trees[j]);
      }
    } else {
      var j: nat :| InPart(h, roots, trees, j, p);
      hide RankNow, DepthOf, OldMade;
      DepthEdge(h, roots[j], trees[j], p, i);
      assert InPart(h, roots, trees, j, c);
      PartRank(h, rank, olds, at, roots, trees, j, p);
      PartRank(h, rank, olds, at, roots, trees, j, c);
    }
  }

  lemma {:induction false} OldRank<T>(h: Heap<T>, rank: map<T, nat>, olds: set<T>, at: seq<Seat<T>>, roots: seq<T>,
                                      trees: seq<Tree>, x: T)
    requires x in olds && x in rank
    ensures RankNow(h, rank, olds, at, roots, trees, x) == rank[x]
  {
  }

  lemma {:induction false} RootDepth<T>(h: Heap<T>, n: T, t: Tree)
    requires Repr(h, n, t)
    ensures n in Reach(h, n, t) && DepthOf(h, n, t, n) == 0
  {
  }

  // ----- what is held once

  /** Nodes that stand for one of the trees still do. */
  ghost predicate SharedKept<T>(g: Heap<T>, h: Heap<T>, olds: set<T>, shared: set<Tree>) {
    forall x :: x in olds && Stands(g, x) && TreeOf(g, x) in shared ==> Stands(h, x) && TreeOf(h, x) == TreeOf(g, x)
  }

  /** Two entries of old nodes. */
  lemma {:induction false} OldHeld<T>(g: Heap<T>, h: Heap<T>, nodes: set<T>, rank: map<T, nat>, shared: set<Tree>,
                                      more: set<Tree>, olds: set<T>, at: seq<Seat<T>>, roots: seq<T>, trees: seq<Tree>,
                                      p: T, i: nat, q: T, k: nat)
    requires OldMade(g, h, rank, more, olds, at, roots) && PartsMade(h, olds, roots, trees) && |at| == |roots|
    requires shared <= more && olds <= nodes && HeldOnceOr(g, nodes, shared) && SharedKept(g, h, olds, shared)
    requires p in olds && q in olds && p in h && q in h && i < |h[p].content| && k < |h[q].content|
    requires h[p].content[i] == h[q].content[k]
    ensures (p == q && i == k) || SharedEntry(h, p, i, more)
  {
    var c := h[p].content[i];
    assert RowMade(g, h, rank, more, olds, at, roots, p, i) && RowMade(g, h, rank, more, olds, at, roots, q, k);
    hide PartsMade;
    if c in olds {
      if a: nat :| a < |roots| && c == roots[a] {
        RootInPart(h, olds, roots, trees, a);
      }
      assert Entry(g, nodes, p, i) && Entry(g, nodes, q, k);
      assert g[p].content[i] == c == g[q].content[k];
    } else {
      var a: nat :| a < |at| && a < |roots| && c == roots[a] && IsAt(h, rank, more, at[a], p, i);
      var b: nat :| b < |at| && b < |roots| && c == roots[b] && IsAt(h, rank, more, at[b], q, k);
      RootInPart(h, olds, roots, trees, a);
      RootInPart(h, olds, roots, trees, b);
      OnePart(h, olds, roots, trees, a, b, c);
    }
  }

  /** An entry of an old node and one of a part. */
  lemma {:induction false} MixedHeld<T>(g: Heap<T>, h: Heap<T>, rank: map<T, nat>, shared: set<Tree>, olds: set<T>,
                                        at: seq<Seat<T>>, roots: seq<T>, trees: seq<Tree>, p: T, i: nat, q: T, k: nat,
                                        j: nat)
    requires OldMade(g, h, rank, shared, olds, at, roots) && PartsMade(h, olds, roots, trees) && |at| == |roots|
    requires p in olds && InPart(h, roots, trees, j, q) && p in h && q in h && i < |h[p].content| && k < |h[q].content|
    ensures h[p].content[i] != h[q].content[k]
  {
    var c := h[q].content[k];
    assert RowMade(g, h, rank, shared, olds, at, roots, p, i);
    PointsWithin(h, roots[j], trees[j], q, k);
    assert InPart(h, roots, trees, j, c);
    RootNotHeld(h, roots[j], trees[j], q, k);
    hide PartsMade;
    OnePart(h, olds, roots, trees, j, j, c);
    if h[p].content[i] == c {
      var a: nat :| a < |at| && a < |roots| && c == roots[a] && IsAt(h, rank, shared, at[a], p, i);
      RootInPart(h, olds, roots, trees, a);
      OnePart(h, olds, roots, trees, a, j, c);
    }
  }

  /** Two entries of parts. */
  lemma {:induction false} PartHeld<T>(h: Heap<T>, olds: set<T>, roots: seq<T>, trees: seq<Tree>, p: T, i: nat, a: nat,
                                       q: T, k: nat, b: nat)
    requires PartsMade(h, olds, roots, trees) && InPart(h, roots, trees, a, p) && InPart(h, roots, trees, b, q)
    requires p in h && q in h && i < |h[p].content| && k < |h[q].content| && h[p].content[i] == h[q].content[k]
    ensures p == q && i == k
  {
    PointsWithin(h, roots[a], trees[a], p, i);
    PointsWithin(h, roots[b], trees[b], q, k);
    assert InPart(h, roots, trees, a, h[p].content[i]) && InPart(h, roots, trees, b, h[q].content[k]);
    OnePart(h, olds, roots, trees, a, b, h[p].content[i]);
    HeldOnce(h, roots[a], trees[a], p, i, q, k);
  }

  lemma {:induction false} MadeHeld<T>(g: Heap<T>, h: Heap<T>, nodes: set<T>, rank: map<T, nat>, shared: set<Tree>,
                                       more: set<Tree>, now: set<T>, olds: set<T>, at: seq<Seat<T>>, roots: seq<T>,
                                       trees: seq<Tree>)
    requires Made(g, h, nodes, rank, more, now, olds, at, roots, trees)
    requires HeldOnceOr(g, nodes, shared) && SharedKept(g, h, olds, shared) && shared <= more
    ensures HeldOnceOr(h, now, more)
  {
    hide OldMade, PartsMade, SharedKept, InPart, SharedEntry;
    forall p, i: nat, q, k: nat |
      p in now && q in now && Entry(h, now, p, i) && Entry(h, now, q, k) && h[p].content[i] == h[q].content[k]
      ensures (p == q && i == k) || SharedEntry(h, p, i, more)
    {
      if p in olds && q in olds {
        OldHeld(g, h, nodes, rank, shared, more, olds, at, roots, trees, p, i, q, k);
      } else if p in olds {
        var j: nat :| InPart(h, roots, trees, j, q);
        MixedHeld(g, h, rank, more, olds, at, roots, trees, p, i, q, k, j);
      } else if q in olds {
        var j: nat :| InPart(h, roots, trees, j, p);
        MixedHeld(g, h, rank, more, olds, at, roots, trees, q, k, p, i, j);
      } else {
        var a: nat :| InPart(h, roots, trees, a, p);
        var b: nat :| InPart(h, roots, trees, b, q);
        PartHeld(h, olds, roots, trees, p, i, a, q, k, b);
      }
    }
  }

  /** The new document is laid out. */
  lemma {:induction false} MadeLaid<T>(g: Heap<T>, h: Heap<T>, nodes: set<T>, rank: map<T, nat>, shared: set<Tree>,
                                       more: set<Tree>, now: set<T>, olds: set<T>, at: seq<Seat<T>>, roots: seq<T>,
                                       trees: seq<Tree>)
    returns (rank': map<T, nat>)
    requires Laid(g, nodes, rank, shared) && Made(g, h, nodes, rank, more, now, olds, at, roots, trees)
    requires HoldersIn(rank, at) && SharedKept(g, h, olds, shared) && shared <= more
    requires forall p, c :: p in now && c in h[p].content ==> c in now
    ensures Laid(h, now, rank', more)
    ensures forall x :: x in now && x in olds && x in rank ==> rank'[x] == rank[x]
  {
    rank' := map x | x in now :: RankNow(h, rank, olds, at, roots, trees, x);
    hide RankNow, OldMade, PartsMade, HeldOnceOr, SharedKept, InPart;
    forall x | x in now && x in olds && x in rank
      ensures rank'[x] == rank[x]
    {
      OldRank(h, rank, olds, at, roots, trees, x);
    }
    forall p, c | p in now && c in h[p].content
      ensures c in now && rank'[c] == rank'[p] + 1
    {
      var i: nat :| i < |h[p].content| && h[p].content[i] == c;
      RankStep(g, h, nodes, rank, more, now, olds, at, roots, trees, p, i);
    }
    RankedBy(h, now, rank');
    MadeHeld(g, h, nodes, rank, shared, more, now, olds, at, roots, trees);
  }

  // ----- the edits of open places

  lemma {:induction false} VisibleWithin<T>(g: Heap<T>, n: T, t: Tree, done: set<T>, x: T, tx: Tree)
    requires Repr(g, n, t) && x in Visible(g, n, t, done) && Repr(g, x, tx)
    ensures Visible(g, x, tx, done) <= Visible(g, n, t, done) && x !in done
    decreases t
  {
    if x == n {
      OneTree(g, n, t, tx);
    } else {
      var i :| 0 <= i < |t.children| && x in Visible(g, g[n].content[i], t.children[i], done);
      VisibleWithin(g, g[n].content[i], t.children[i], done, x, tx);
      VisibleChild(g, n, t, done, i);
    }
  }

  /** What a visible node holds is visible too, unless it is edited. */
  lemma {:induction false} VisibleNext<T>(g: Heap<T>, n: T, t: Tree, done: set<T>, p: T, i: nat)
    requires Repr(g, n, t) && p in Visible(g, n, t, done) && p in g && i < |g[p].content|
    ensures g[p].content[i] in done || g[p].content[i] in Visible(g, n, t, done)
    decreases t
  {
    if p == n {
      VisibleChild(g, n, t, done, i);
    } else {
      var a: nat :| a < |t.children| && p in Visible(g, g[n].content[a], t.children[a], done);
      VisibleNext(g, g[n].content[a], t.children[a], done, p, i);
      VisibleChild(g, n, t, done, a);
    }
  }

  /** All places are edited, and the document was laid out and the path clear. */
  ghost predicate AllEdited<T>(g: Heap<T>, e: Edit<T>, n: T, t: Tree, path: seq<Move>, spots: seq<Spot<T>>,
                               f: Tree -> Tree, rank: map<T, nat>, shared: set<Tree>) {
    Progress(g, e, n, t, path, spots, |spots|, f) && LaidDoc(g, n, t, rank, shared) && Clear(t, path, shared)
  }

  /** The entry that holds a place. */
  ghost predicate PlaceAt<T>(g: Heap<T>, nodes: set<T>, s: Spot<T>, a: Seat<T>) {
    a.index.Some? && Entry(g, nodes, a.holder, a.index.value) && g[a.holder].content[a.index.value] == s.node
  }

  lemma {:induction false} PlacesAt<T>(g: Heap<T>, n: T, t: Tree, path: seq<Move>, k: nat) returns (at: seq<Seat<T>>)
    requires Repr(g, n, t) && path != [] && k <= |Spots(g, n, t, path)|
    ensures |at| == k && forall j :: 0 <= j < k ==> PlaceAt(g, Reach(g, n, t), Spots(g, n, t, path)[j], at[j])
  {
    at := [];
    var spots := Spots(g, n, t, path);
    for j := 0 to k
      invariant |at| == j && forall i :: 0 <= i < j ==> PlaceAt(g, Reach(g, n, t), spots[i], at[i])
    {
      assert spots[j] in spots;
      var p, i := SpotHeld(g, n, t, path, spots[j]);
      at := at + [Seat(p, Some(i))];
    }
  }

  ghost function RootsOf<T>(e: Edit<T>, spots: seq<Spot<T>>): seq<T> {
    seq(|spots|, j requires 0 <= j < |spots| => PlaceOf(e.ov, spots[j].node))
  }

  ghost function TreesBy<T>(spots: seq<Spot<T>>, f: Tree -> Tree): seq<Tree> {
    seq(|spots|, j requires 0 <= j < |spots| => f(spots[j].tree))
  }

  ghost predicate AtPlaces<T>(g: Heap<T>, n: T, t: Tree, spots: seq<Spot<T>>, at: seq<Seat<T>>)
    requires Repr(g, n, t)
  {
    |at| == |spots| && forall j :: 0 <= j < |spots| ==> PlaceAt(g, Reach(g, n, t), spots[j], at[j])
  }

  lemma {:induction false} ProgressRow<T>(g: Heap<T>, e: Edit<T>, n: T, t: Tree, path: seq<Move>, spots: seq<Spot<T>>,
                                          f: Tree -> Tree, rank: map<T, nat>, shared: set<Tree>, at: seq<Seat<T>>, p: T,
                                          i: nat)
    requires AllEdited(g, e, n, t, path, spots, f, rank, shared) && Repr(g, n, t) && AtPlaces(g, n, t, spots, at)
    requires p in Visible(g, n, t, e.tr.Keys) && p in e.h && i < |e.h[p].content|
    ensures RowMade(g, e.h, rank, shared, Visible(g, n, t, e.tr.Keys), at, RootsOf(e, spots), p, i)
  {
    hide PendingFrom, ApartTo, EditedTo, Spots, Sole, TreeShaped, Visible, Reach, Clear, Laid;
    var done := e.tr.Keys;
    assert VisibleAsNow(g, e.h, e.ov, p);
    VisibleInReach(g, n, t, done);
    var m := g[p].content[i];
    assert e.h[p].content[i] == PlaceOf(e.ov, m);
    if m in e.tr {
      var j: nat :| j < |spots| && spots[j].node == m;
      assert PlaceAt(g, Reach(g, n, t), spots[j], at[j]) && spots[j] in spots;
      SoleLone(g, n, t, path);
      OneParent(g, n, t, path, spots[j], p, at[j].holder, i, at[j].index.value);
      assert RootsOf(e, spots)[j] == e.h[p].content[i] && IsAt(e.h, rank, shared, at[j], p, i);
    } else {
      VisibleNext(g, n, t, done, p, i);
    }
  }

  lemma {:induction false} ProgressOld<T>(g: Heap<T>, e: Edit<T>, n: T, t: Tree, path: seq<Move>, spots: seq<Spot<T>>,
                                          f: Tree -> Tree, rank: map<T, nat>, shared: set<Tree>, at: seq<Seat<T>>)
    requires AllEdited(g, e, n, t, path, spots, f, rank, shared) && Repr(g, n, t) && AtPlaces(g, n, t, spots, at)
    ensures OldMade(g, e.h, rank, shared, Visible(g, n, t, e.tr.Keys), at, RootsOf(e, spots))
  {
    var olds := Visible(g, n, t, e.tr.Keys);
    forall p | p in olds
      ensures p in g && p in e.h && e.h[p].kind == g[p].kind
      ensures forall i: nat :: i < |e.h[p].content| ==> RowMade(g, e.h, rank, shared, olds, at, RootsOf(e, spots), p, i)
    {
      assert VisibleAsNow(g, e.h, e.ov, p);
      hide Progress, Visible, RowMade, RootsOf, AtPlaces, AllEdited;
      forall i: nat | i < |e.h[p].content|
        ensures RowMade(g, e.h, rank, shared, olds, at, RootsOf(e, spots), p, i)
      {
        ProgressRow(g, e, n, t, path, spots, f, rank, shared, at, p, i);
      }
    }
  }

  /** No visible node is part of an edited place. */
  lemma {:induction false} PartNotVisible<T>(g: Heap<T>, e: Edit<T>, n: T, t: Tree, path: seq<Move>,
                                             spots: seq<Spot<T>>, f: Tree -> Tree, j: nat, x: T)
    requires Progress(g, e, n, t, path, spots, |spots|, f) && Repr(g, n, t) && x in Visible(g, n, t, e.tr.Keys)
    ensures !InPart(e.h, RootsOf(e, spots), TreesBy(spots, f), j, x)
  {
    if InPart(e.h, RootsOf(e, spots), TreesBy(spots, f), j, x) {
      assert SpotEdited(g, e, spots[j], f) && spots[j] in spots;
      VisibleInReach(g, n, t, e.tr.Keys);
      ReachInHeap(g, n, t);
      NotVisible(g, n, t, path, spots[j], e.tr.Keys, x);
    }
  }

  lemma {:induction false} ProgressParts<T>(g: Heap<T>, e: Edit<T>, n: T, t: Tree, path: seq<Move>, spots: seq<Spot<T>>,
                                            f: Tree -> Tree)
    requires Progress(g, e, n, t, path, spots, |spots|, f) && Repr(g, n, t)
    ensures PartsMade(e.h, Visible(g, n, t, e.tr.Keys), RootsOf(e, spots), TreesBy(spots, f))
  {
    var roots, trees, olds := RootsOf(e, spots), TreesBy(spots, f), Visible(g, n, t, e.tr.Keys);
    forall j | 0 <= j < |spots|
      ensures Repr(e.h, roots[j], trees[j]) && TreeShaped(e.h, roots[j], trees[j])
    {
      assert SpotEdited(g, e, spots[j], f);
    }
    forall i: nat, j: nat | i < j < |spots|
      ensures Reach(e.h, roots[i], trees[i]) !! Reach(e.h, roots[j], trees[j])
    {
      assert PlacesApart(e, spots[i], spots[j], f);
    }
    hide Progress, Visible, InPart, RootsOf, TreesBy, Repr, Reach, TreeShaped;
    forall j: nat, x | x in olds
      ensures !InPart(e.h, roots, trees, j, x)
    {
      PartNotVisible(g, e, n, t, path, spots, f, j, x);
    }
  }

  lemma {:induction false} ProgressNow<T>(g: Heap<T>, e: Edit<T>, n: T, t: Tree, path: seq<Move>, spots: seq<Spot<T>>,
                                          f: Tree -> Tree, x: T)
    requires Progress(g, e, n, t, path, spots, |spots|, f) && Repr(g, n, t)
    requires Repr(e.h, n, Over(g, n, t, e.tr)) && x in Reach(e.h, n, Over(g, n, t, e.tr))
    ensures x in e.h
    ensures x in Visible(g, n, t, e.tr.Keys) || exists j: nat :: InPart(e.h, RootsOf(e, spots), TreesBy(spots, f), j, x)
  {
    hide PendingFrom, ApartTo, VisibleKept, Spots, Sole, TreeShaped, Edited, Visible, Over, Reach;
    ReachInHeap(e.h, n, Over(g, n, t, e.tr));
    ProgressDoc(g, e, n, t, path, spots, |spots|, f);
    EditedReach(g, e.h, n, t, e.ov, e.tr, x);
    if x !in Visible(g, n, t, e.tr.Keys) {
      var m :| InEdited(g, e.h, n, t, e.ov, e.tr, m, x);
      var j: nat :| j < |spots| && spots[j].node == m;
      assert SpotEdited(g, e, spots[j], f);
      assert InPart(e.h, RootsOf(e, spots), TreesBy(spots, f), j, x);
    }
  }

  /** Nodes that stand for one of the trees are beside the places, and keep their trees. */
  lemma {:induction false} ProgressShared<T>(g: Heap<T>, e: Edit<T>, n: T, t: Tree, path: seq<Move>,
                                             spots: seq<Spot<T>>, f: Tree -> Tree, rank: map<T, nat>, shared: set<Tree>,
                                             x: T)
    requires AllEdited(g, e, n, t, path, spots, f, rank, shared) && Repr(g, n, t)
    requires x in Visible(g, n, t, e.tr.Keys) && Stands(g, x) && TreeOf(g, x) in shared
    ensures Stands(e.h, x) && TreeOf(e.h, x) == TreeOf(g, x)
  {
    var tx, nodes := TreeOf(g, x), Reach(g, n, t);
    ReachInHeap(g, n, t);
    VisibleInReach(g, n, t, e.tr.Keys);
    VisibleWithin(g, n, t, e.tr.Keys, x, tx);
    ProgressDoc(g, e, n, t, path, spots, |spots|, f);
    hide Clear, Laid, Visible, Repr, Over;
    forall m | m in e.tr
      ensures m !in Reach(g, x, tx)
    {
      if m in Reach(g, x, tx) {
        var j: nat :| j < |spots| && spots[j].node == m;
        assert spots[j] in spots;
        NotAbove(g, n, t, path, rank, shared, spots[j], x, tx);
      }
    }
    OverUntouched(g, x, tx, e.tr);
    EditedRepr(g, e.h, x, tx, e.ov, e.tr);
    StandsFor(e.h, x, tx);
  }

  /** No node that stands for one of the trees leads to a clear place. */
  lemma {:induction false} NotAbove<T>(g: Heap<T>, n: T, t: Tree, path: seq<Move>, rank: map<T, nat>, shared: set<Tree>,
                                       s: Spot<T>, x: T, tx: Tree)
    requires LaidDoc(g, n, t, rank, shared) && Clear(t, path, shared) && s in Spots(g, n, t, path)
    requires x in Reach(g, n, t) && Repr(g, x, tx) && tx in shared
    ensures s.node !in Reach(g, x, tx)
  {
    var nodes := Reach(g, n, t);
    ReachInHeap(g, n, t);
    if s.node in Reach(g, x, tx) {
      Related(g, nodes, rank, shared, n, t, path, s, x, tx);
      ReachRanked(g, nodes, rank, x, tx, n);
      ReachRanked(g, nodes, rank, n, t, x);
    }
  }

  /** After the last edit the document is laid out as it was. */
  lemma {:induction false} ProgressLaid<T>(g: Heap<T>, e: Edit<T>, n: T, t: Tree, path: seq<Move>, spots: seq<Spot<T>>,
                                           f: Tree -> Tree, rank: map<T, nat>, shared: set<Tree>)
    returns (rank': map<T, nat>)
    requires AllEdited(g, e, n, t, path, spots, f, rank, shared)
    ensures LaidDoc(e.h, n, Rewrite(t, path, f), rank', shared)
  {
    ProgressDone(g, e, n, t, path, spots, f);
    var u, olds := Rewrite(t, path, f), Visible(g, n, t, e.tr.Keys);
    var now, nodes := Reach(e.h, n, u), Reach(g, n, t);
    var at := PlacesAt(g, n, t, path, |spots|);
    hide Rewrite, Visible, Repr, Reach, OldMade, PartsMade, Progress, Laid, Over, Clear, Spots;
    ProgressOld(g, e, n, t, path, spots, f, rank, shared, at);
    ProgressParts(g, e, n, t, path, spots, f);
    forall x | x in now
      ensures x in e.h
      ensures x in olds || exists j: nat :: InPart(e.h, RootsOf(e, spots), TreesBy(spots, f), j, x)
    {
      ProgressNow(g, e, n, t, path, spots, f, x);
    }
    VisibleInReach(g, n, t, e.tr.Keys);
    forall x | x in olds && Stands(g, x) && TreeOf(g, x) in shared
      ensures Stands(e.h, x) && TreeOf(e.h, x) == TreeOf(g, x)
    {
      ProgressShared(g, e, n, t, path, spots, f, rank, shared, x);
    }
    forall p, c | p in now && c in e.h[p].content
      ensures c in now
    {
      var i: nat :| i < |e.h[p].content| && e.h[p].content[i] == c;
      PointsWithin(e.h, n, u, p, i);
    }
    HoldersRanked(g, nodes, rank, shared, spots, at);
    rank' := MadeLaid(g, e.h, nodes, rank, shared, shared, now, olds, at, RootsOf(e, spots), TreesBy(spots, f));
  }

  lemma {:induction false} HoldersRanked<T>(g: Heap<T>, nodes: set<T>, rank: map<T, nat>, shared: set<Tree>,
                                            spots: seq<Spot<T>>, at: seq<Seat<T>>)
    requires Laid(g, nodes, rank, shared) && |at| == |spots|
    requires forall j :: 0 <= j < |spots| ==> PlaceAt(g, nodes, spots[j], at[j])
    ensures HoldersIn(rank, at)
  {
    forall j: nat | j < |at|
      ensures at[j].holder in rank
    {
      assert PlaceAt(g, nodes, spots[j], at[j]);
    }
  }
}
