/** Editing the places of a path where they are: what the edits add up to for the whole document. */
module Editing {
  import opened Trees
  import opened Graph
  import opened Replacing

  /** The node that holds the place after the edit: another one if the place was replaced. */
  function PlaceOf<T>(ov: map<T, T>, m: T): T {
    if m in ov then ov[m] else m
  }

  /** The nodes above and beside the edited places. */
  ghost function Visible<T>(g: Heap<T>, n: T, t: Tree, done: set<T>): set<T>
    requires Repr(g, n, t)
    decreases t
  {
    if n in done then {}
    else {n} + set i, x | 0 <= i < |t.children| && x in Visible(g, g[n].content[i], t.children[i], done) :: x
  }

  ghost predicate VisibleAsNow<T>(g: Heap<T>, h: Heap<T>, ov: map<T, T>, x: T) {
    x in g && x in h && h[x] == g[x].(content := SubContent(g[x].content, ov))
  }

  /** The heap h is g with the places of tr edited or replaced, and nothing else. */
  ghost predicate Edited<T>(g: Heap<T>, h: Heap<T>, n: T, t: Tree, ov: map<T, T>, tr: map<T, Tree>)
    requires Repr(g, n, t)
  {
    && ov.Keys <= tr.Keys
    && (forall x :: x in Visible(g, n, t, tr.Keys) ==> VisibleAsNow(g, h, ov, x))
    && forall m :: m in tr ==> Repr(h, PlaceOf(ov, m), tr[m])
  }

  lemma {:induction false} VisibleChild<T>(g: Heap<T>, n: T, t: Tree, done: set<T>, i: nat)
    requires Repr(g, n, t) && i < |t.children| && n !in done
    ensures Visible(g, g[n].content[i], t.children[i], done) <= Visible(g, n, t, done) && n in Visible(g, n, t, done)
  {
  }

  lemma {:induction false} VisibleInReach<T>(g: Heap<T>, n: T, t: Tree, done: set<T>)
    requires Repr(g, n, t)
    ensures Visible(g, n, t, done) <= Reach(g, n, t)
    decreases t
  {
    forall i | 0 <= i < |t.children|
      ensures Visible(g, g[n].content[i], t.children[i], done) <= Reach(g, g[n].content[i], t.children[i])
    {
      VisibleInReach(g, g[n].content[i], t.children[i], done);
    }
  }

  lemma {:induction false} VisibleShrinks<T>(g: Heap<T>, n: T, t: Tree, done: set<T>, more: set<T>)
    requires Repr(g, n, t) && done <= more
    ensures Visible(g, n, t, more) <= Visible(g, n, t, done)
    decreases t
  {
    forall i | 0 <= i < |t.children|
      ensures Visible(g, g[n].content[i], t.children[i], more) <= Visible(g, g[n].content[i], t.children[i], done)
    {
      VisibleShrinks(g, g[n].content[i], t.children[i], done, more);
    }
  }

  // ----- places that nothing else shares a node with

  /** Every place the path leads to is unshared in itself, and none of its nodes is met elsewhere. */
  ghost predicate Sole<T>(g: Heap<T>, n: T, t: Tree, path: seq<Move>)
    requires Repr(g, n, t)
    decreases |path|, 1
  {
    if path == [] then TreeShaped(g, n, t)
    else forall i: nat :: i < |t.children| && Selects(t.kind, Values(t.children), path[0], i) ==>
        SoleAt(g, n, t, path, i)
  }

  ghost predicate SoleAt<T>(g: Heap<T>, n: T, t: Tree, path: seq<Move>, i: nat)
    requires Repr(g, n, t) && path != [] && i < |t.children|
    decreases |path|, 0
  {
    && Sole(g, g[n].content[i], t.children[i], path[1..])
    && forall s :: s in Spots(g, g[n].content[i], t.children[i], path[1..]) ==> Island(g, n, t, i, s)
  }

  ghost predicate Island<T>(g: Heap<T>, n: T, t: Tree, i: nat, s: Spot<T>)
    requires Repr(g, n, t)
  {
    && Repr(g, s.node, s.tree) && n !in Reach(g, s.node, s.tree)
    && forall j :: 0 <= j < |t.children| && j != i ==>
         Reach(g, s.node, s.tree) !! Reach(g, g[n].content[j], t.children[j])
  }

  lemma {:induction false} SoleLone<T>(g: Heap<T>, n: T, t: Tree, path: seq<Move>)
    requires Repr(g, n, t) && Sole(g, n, t, path)
    ensures Lone(g, n, t, path)
    decreases |path|
  {
    if path == [] {
      TreeLone(g, n, t, path);
    } else {
      forall i: nat | i < |t.children| && Selects(t.kind, Values(t.children), path[0], i)
        ensures LoneAt(g, n, t, path, i)
      {
        assert SoleAt(g, n, t, path, i);
        SoleLone(g, g[n].content[i], t.children[i], path[1..]);
        forall s | s in Spots(g, g[n].content[i], t.children[i], path[1..])
          ensures s.node != n && NotBesides(g, n, t, i, s.node)
        {
          assert Island(g, n, t, i, s);
          ReachInHeap(g, s.node, s.tree);
        }
      }
    }
  }

  /** In a document without sharing that is so for every path. */
  lemma {:induction false} TreeSole<T>(g: Heap<T>, n: T, t: Tree, path: seq<Move>)
    requires Repr(g, n, t) && TreeShaped(g, n, t)
    ensures Sole(g, n, t, path)
    decreases |path|
  {
    if path != [] {
      forall i: nat | i < |t.children| && Selects(t.kind, Values(t.children), path[0], i)
        ensures SoleAt(g, n, t, path, i)
      {
        TreeSole(g, g[n].content[i], t.children[i], path[1..]);
        forall s | s in Spots(g, g[n].content[i], t.children[i], path[1..])
          ensures Island(g, n, t, i, s)
        {
          SpotInReach(g, g[n].content[i], t.children[i], path[1..], s);
        }
      }
    }
  }

  lemma {:induction false} SpotShaped<T>(g: Heap<T>, n: T, t: Tree, path: seq<Move>, s: Spot<T>)
    requires Repr(g, n, t) && Sole(g, n, t, path) && s in Spots(g, n, t, path)
    ensures Repr(g, s.node, s.tree) && TreeShaped(g, s.node, s.tree)
    decreases |path|
  {
    if path != [] {
      SpotsMembers(g, n, t, path, s);
      var i: nat :| SpotBelow(g, n, t, path, s, i);
      assert SoleAt(g, n, t, path, i);
      SpotShaped(g, g[n].content[i], t.children[i], path[1..], s);
    }
  }

  /** What lies inside an edited place is not visible. */
  lemma {:induction false} NotVisible<T>(g: Heap<T>, n: T, t: Tree, path: seq<Move>, s: Spot<T>, done: set<T>, x: T)
    requires Repr(g, n, t) && Sole(g, n, t, path) && s in Spots(g, n, t, path) && s.node in done
    requires x in Visible(g, n, t, done)
    ensures Repr(g, s.node, s.tree) && x !in Reach(g, s.node, s.tree)
    decreases |path|
  {
    SpotInReach(g, n, t, path, s);
    if path != [] {
      SpotsMembers(g, n, t, path, s);
      var i: nat :| SpotBelow(g, n, t, path, s, i);
      SpotInReach(g, g[n].content[i], t.children[i], path[1..], s);
      assert SoleAt(g, n, t, path, i) && Island(g, n, t, i, s);
      if x != n {
        var j :| 0 <= j < |t.children| && x in Visible(g, g[n].content[j], t.children[j], done);
        VisibleInReach(g, g[n].content[j], t.children[j], done);
        if j == i {
          NotVisible(g, g[n].content[i], t.children[i], path[1..], s, done, x);
        }
      }
    }
  }

  /** The parent of a place is visible until the place is edited. */
  lemma {:induction false} ParentVisible<T>(g: Heap<T>, n: T, t: Tree, path: seq<Move>, s: Spot<T>, done: set<T>)
    returns (p: T)
    requires Repr(g, n, t) && Lone(g, n, t, path) && path != []
    requires OnSpots(g, n, t, path, done) && s in Spots(g, n, t, path) && s.node !in done
    ensures p in Visible(g, n, t, done) && p in g && s.node in g[p].content
    decreases |path|
  {
    OnSpotsRoot(g, n, t, path, done);
    SpotsMembers(g, n, t, path, s);
    var i: nat :| SpotBelow(g, n, t, path, s, i);
    OnSpotsBelow(g, n, t, path, done, i);
    if |path| == 1 {
      p := n;
      assert g[n].content[i] == s.node;
    } else {
      p := ParentVisible(g, g[n].content[i], t.children[i], path[1..], s, done);
    }
    VisibleChild(g, n, t, done, i);
  }

  lemma {:induction false} EditedRepr<T>(g: Heap<T>, h: Heap<T>, n: T, t: Tree, ov: map<T, T>, tr: map<T, Tree>)
    requires Repr(g, n, t) && Edited(g, h, n, t, ov, tr) && n !in tr
    ensures Repr(h, n, Over(g, n, t, tr)) && Visible(g, n, t, tr.Keys) <= Reach(h, n, Over(g, n, t, tr))
    decreases t
  {
    var r := Over(g, n, t, tr);
    assert VisibleAsNow(g, h, ov, n);
    forall i | 0 <= i < |t.children|
      ensures Repr(h, h[n].content[i], r.children[i])
      ensures Visible(g, g[n].content[i], t.children[i], tr.Keys) <= Reach(h, h[n].content[i], r.children[i])
    {
      var c := g[n].content[i];
      VisibleChild(g, n, t, tr.Keys, i);
      if c !in tr {
        EditedRepr(g, h, c, t.children[i], ov, tr);
      }
    }
  }

  /** Every node of the edited document is visible or part of an edited place. */
  lemma {:induction false} EditedReach<T>(g: Heap<T>, h: Heap<T>, n: T, t: Tree, ov: map<T, T>, tr: map<T, Tree>, x: T)
    requires Repr(g, n, t) && Edited(g, h, n, t, ov, tr) && n !in tr
    requires Repr(h, n, Over(g, n, t, tr)) && x in Reach(h, n, Over(g, n, t, tr))
    ensures x in Visible(g, n, t, tr.Keys) || exists m :: InEdited(g, h, n, t, ov, tr, m, x)
    decreases t
  {
    if x != n {
      var r := Over(g, n, t, tr);
      assert VisibleAsNow(g, h, ov, n);
      var i: nat :| i < |r.children| && x in Reach(h, h[n].content[i], r.children[i]);
      var c := g[n].content[i];
      VisibleChild(g, n, t, tr.Keys, i);
      ReachChild(g, n, t, i);
      assert c in Reach(g, c, t.children[i]);
      if c in tr {
        assert InEdited(g, h, n, t, ov, tr, c, x);
      } else {
        EditedReach(g, h, c, t.children[i], ov, tr, x);
        if x !in Visible(g, n, t, tr.Keys) {
          var m :| InEdited(g, h, c, t.children[i], ov, tr, m, x);
          assert InEdited(g, h, n, t, ov, tr, m, x);
        }
      }
    }
  }

  ghost predicate InEdited<T>(g: Heap<T>, h: Heap<T>, n: T, t: Tree, ov: map<T, T>, tr: map<T, Tree>, m: T, x: T)
    requires Repr(g, n, t)
  {
    m in tr && m in Reach(g, n, t) && Repr(h, PlaceOf(ov, m), tr[m]) && x in Reach(h, PlaceOf(ov, m), tr[m])
  }

  // ----- editing one place after the other

  /** What the edits so far have made of the heap: nodes that replace others, the new trees, the nodes made. */
  datatype Edit<T> = Edit(h: Heap<T>, ov: map<T, T>, tr: map<T, Tree>, news: set<T>)

  /** A document and the places of a path in it, which share no node with anything else. */
  ghost predicate Setting<T>(g: Heap<T>, n: T, t: Tree, path: seq<Move>, spots: seq<Spot<T>>) {
    && Repr(g, n, t) && Sole(g, n, t, path) && path != [] && g.Keys == Reach(g, n, t) && spots == Spots(g, n, t, path)
  }

  ghost predicate SpotEdited<T>(g: Heap<T>, e: Edit<T>, s: Spot<T>, f: Tree -> Tree) {
    && s.node in e.tr && e.tr[s.node] == f(s.tree) && Repr(g, s.node, s.tree)
    && PartOf(e.h, PlaceOf(e.ov, s.node), f(s.tree), Reach(g, s.node, s.tree) + e.news)
  }

  /** An unshared tree made of some of the nodes. */
  ghost predicate PartOf<T>(h: Heap<T>, n: T, t: Tree, nodes: set<T>) {
    Repr(h, n, t) && Reach(h, n, t) <= nodes && TreeShaped(h, n, t)
  }

  ghost predicate SpotPending<T>(g: Heap<T>, h: Heap<T>, s: Spot<T>) {
    Repr(g, s.node, s.tree) && Same(g, h, Reach(g, s.node, s.tree))
  }

  ghost predicate PlacesApart<T>(e: Edit<T>, a: Spot<T>, b: Spot<T>, f: Tree -> Tree) {
    && Repr(e.h, PlaceOf(e.ov, a.node), f(a.tree)) && Repr(e.h, PlaceOf(e.ov, b.node), f(b.tree))
    && Reach(e.h, PlaceOf(e.ov, a.node), f(a.tree)) !! Reach(e.h, PlaceOf(e.ov, b.node), f(b.tree))
  }

  /** The first k places are edited, everything else is as it was. */
  ghost predicate Progress<T>(g: Heap<T>, e: Edit<T>, n: T, t: Tree, path: seq<Move>, spots: seq<Spot<T>>, k: nat,
                              f: Tree -> Tree) {
    && Setting(g, n, t, path, spots) && k <= |spots|
    && e.tr.Keys == Chosen(spots, Always(), k) && e.ov.Keys <= e.tr.Keys
    && e.h.Keys == g.Keys + e.news && g.Keys !! e.news
    && VisibleKept(g, e, n, t) && EditedTo(g, e, spots, k, f) && PendingFrom(g, e.h, spots, k)
         && ApartTo(e, spots, k, f)
  }

  ghost predicate VisibleKept<T>(g: Heap<T>, e: Edit<T>, n: T, t: Tree)
    requires Repr(g, n, t)
  {
    forall x :: x in Visible(g, n, t, e.tr.Keys) ==> VisibleAsNow(g, e.h, e.ov, x)
  }

  ghost predicate EditedTo<T>(g: Heap<T>, e: Edit<T>, spots: seq<Spot<T>>, k: nat, f: Tree -> Tree)
    requires k <= |spots|
  {
    forall j :: 0 <= j < k ==> SpotEdited(g, e, spots[j], f)
  }

  ghost predicate PendingFrom<T>(g: Heap<T>, h: Heap<T>, spots: seq<Spot<T>>, k: nat) {
    forall j :: k <= j < |spots| ==> SpotPending(g, h, spots[j])
  }

  ghost predicate ApartTo<T>(e: Edit<T>, spots: seq<Spot<T>>, k: nat, f: Tree -> Tree)
    requires k <= |spots|
  {
    forall i, j :: 0 <= i < j < k ==> PlacesApart(e, spots[i], spots[j], f)
  }

  lemma {:induction false} SpotsApart<T>(g: Heap<T>, n: T, t: Tree, path: seq<Move>, s: Spot<T>, x: Spot<T>)
    requires Repr(g, n, t) && Sole(g, n, t, path) && s in Spots(g, n, t, path) && x in Spots(g, n, t, path)
        && s.node != x.node
    ensures Repr(g, s.node, s.tree) && Repr(g, x.node, x.tree) && Reach(g, s.node, s.tree) !! Reach(g, x.node, x.tree)
    decreases |path|
  {
    SpotInReach(g, n, t, path, s);
    SpotInReach(g, n, t, path, x);
    if path != [] {
      SpotsMembers(g, n, t, path, s);
      SpotsMembers(g, n, t, path, x);
      var i: nat :| SpotBelow(g, n, t, path, s, i);
      var j: nat :| SpotBelow(g, n, t, path, x, j);
      SpotInReach(g, g[n].content[i], t.children[i], path[1..], s);
      SpotInReach(g, g[n].content[j], t.children[j], path[1..], x);
      assert SoleAt(g, n, t, path, i) && Island(g, n, t, i, s);
      if i == j {
        SpotsApart(g, g[n].content[i], t.children[i], path[1..], s, x);
      }
    }
  }

  /** The places of a setting are different, apart and inside the document. */
  lemma {:induction false} SettingSpots<T>(g: Heap<T>, n: T, t: Tree, path: seq<Move>, spots: seq<Spot<T>>, i: nat,
                                           j: nat)
    requires Setting(g, n, t, path, spots) && i < |spots| && j < |spots|
    ensures spots[i] in spots && Repr(g, spots[i].node, spots[i].tree) && Repr(g, spots[j].node, spots[j].tree)
    ensures Reach(g, spots[i].node, spots[i].tree) <= g.Keys && spots[i].node in Reach(g, spots[i].node, spots[i].tree)
    ensures i != j ==>
              && spots[i].node != spots[j].node
              && Reach(g, spots[i].node, spots[i].tree) !! Reach(g, spots[j].node, spots[j].tree)
  {
    assert spots[i] in spots && spots[j] in spots;
    SoleLone(g, n, t, path);
    SpotsDistinct(g, n, t, path);
    SpotInReach(g, n, t, path, spots[i]);
    SpotInReach(g, n, t, path, spots[j]);
    if i < j || j < i {
      SpotsApart(g, n, t, path, spots[i], spots[j]);
    }
  }

  lemma {:induction false} PartFrame<T>(h: Heap<T>, h': Heap<T>, n: T, t: Tree, nodes: set<T>, changed: set<T>)
    requires PartOf(h, n, t, nodes) && Same(h, h', h.Keys - changed) && nodes !! changed
    ensures PartOf(h', n, t, nodes) && Reach(h', n, t) == Reach(h, n, t)
  {
    ReachInHeap(h, n, t);
    ReprFrame(h, h', n, t);
  }

  /** Changes of nodes that no earlier place holds leave the earlier places as they are. */
  lemma {:induction false} EarlierKept<T>(g: Heap<T>, e: Edit<T>, e': Edit<T>, n: T, t: Tree, path: seq<Move>,
                                          spots: seq<Spot<T>>, k: nat, f: Tree -> Tree, changed: set<T>)
    requires Progress(g, e, n, t, path, spots, k, f)
    requires Same(e.h, e'.h, e.h.Keys - changed) && changed <= g.Keys && e.news <= e'.news
    requires forall m :: m in e.tr ==> m in e'.tr && e'.tr[m] == e.tr[m] && PlaceOf(e'.ov, m) == PlaceOf(e.ov, m)
    requires forall j :: 0 <= j < k ==> Untouched(g, spots[j], changed)
    ensures EditedTo(g, e', spots, k, f) && ApartTo(e', spots, k, f)
    ensures Within(e', spots, k, f, g.Keys - changed + e.news)
  {
    forall j | 0 <= j < k
      ensures SpotEdited(g, e, spots[j], f) && SpotEdited(g, e', spots[j], f)
      ensures PartOf(e'.h, PlaceOf(e'.ov, spots[j].node), f(spots[j].tree), g.Keys - changed + e.news)
      ensures Reach(e'.h, PlaceOf(e'.ov, spots[j].node), f(spots[j].tree))
          == Reach(e.h, PlaceOf(e.ov, spots[j].node), f(spots[j].tree))
    {
      assert SpotEdited(g, e, spots[j], f) && Untouched(g, spots[j], changed);
      SettingSpots(g, n, t, path, spots, j, j);
      PartFrame(e.h, e'.h, PlaceOf(e.ov, spots[j].node), f(spots[j].tree),
          Reach(g, spots[j].node, spots[j].tree) + e.news, changed);
    }
    forall i, j | 0 <= i < j < k
      ensures PlacesApart(e', spots[i], spots[j], f)
    {
      assert PlacesApart(e, spots[i], spots[j], f);
    }
  }

  ghost predicate Within<T>(e: Edit<T>, spots: seq<Spot<T>>, k: nat, f: Tree -> Tree, nodes: set<T>)
    requires k <= |spots|
  {
    forall j :: 0 <= j < k ==> PartOf(e.h, PlaceOf(e.ov, spots[j].node), f(spots[j].tree), nodes)
  }

  ghost predicate Untouched<T>(g: Heap<T>, s: Spot<T>, changed: set<T>) {
    Repr(g, s.node, s.tree) && Reach(g, s.node, s.tree) !! changed
  }

  lemma {:induction false} LaterKept<T>(g: Heap<T>, h: Heap<T>, h': Heap<T>, spots: seq<Spot<T>>, k: nat,
                                        changed: set<T>)
    requires PendingFrom(g, h, spots, k) && Same(h, h', h.Keys - changed)
    requires forall j :: k < j < |spots| ==> Untouched(g, spots[j], changed)
    ensures PendingFrom(g, h', spots, k + 1)
  {
    forall j | k + 1 <= j < |spots|
      ensures SpotPending(g, h', spots[j])
    {
      assert SpotPending(g, h, spots[j]) && Untouched(g, spots[j], changed);
    }
  }

  /** The next place is edited too, apart from the earlier ones. */
  lemma {:induction false} NextEdited<T>(g: Heap<T>, e: Edit<T>, n: T, t: Tree, path: seq<Move>, spots: seq<Spot<T>>,
                                         k: nat, f: Tree -> Tree, before: set<T>, own: set<T>)
    requires Setting(g, n, t, path, spots) && k < |spots| && EditedTo(g, e, spots, k, f) && ApartTo(e, spots, k, f)
    requires SpotEdited(g, e, spots[k], f) && Within(e, spots, k, f, before)
    requires PartOf(e.h, PlaceOf(e.ov, spots[k].node), f(spots[k].tree), own) && before !! own
    ensures EditedTo(g, e, spots, k + 1, f) && ApartTo(e, spots, k + 1, f)
  {
    forall i, j | 0 <= i < j < k + 1
      ensures PlacesApart(e, spots[i], spots[j], f)
    {
      if j < k {
        assert PlacesApart(e, spots[i], spots[j], f);
      } else {
        assert PartOf(e.h, PlaceOf(e.ov, spots[i].node), f(spots[i].tree), before);
      }
    }
  }

  lemma {:induction false} NextKeys<T>(g: Heap<T>, e: Edit<T>, n: T, t: Tree, path: seq<Move>, spots: seq<Spot<T>>,
                                       k: nat, f: Tree -> Tree)
    requires Progress(g, e, n, t, path, spots, k, f) && k < |spots|
    ensures e.tr.Keys + {spots[k].node} == Chosen(spots, Always(), k + 1) && spots[k].node !in e.tr
    ensures OnSpots(g, n, t, path, e.tr.Keys) && Lone(g, n, t, path) && n !in e.tr
  {
    SoleLone(g, n, t, path);
    ChosenOnSpots(g, n, t, path, Always(), k);
    ChosenNext(spots, Always(), k);
    OnSpotsRoot(g, n, t, path, e.tr.Keys);
  }

  lemma {:induction false} Others<T>(g: Heap<T>, n: T, t: Tree, path: seq<Move>, spots: seq<Spot<T>>, k: nat)
    requires Setting(g, n, t, path, spots) && k < |spots|
    ensures Repr(g, spots[k].node, spots[k].tree)
    ensures forall j :: 0 <= j < |spots| && j != k ==> Untouched(g, spots[j], Reach(g, spots[k].node, spots[k].tree))
    ensures Reach(g, spots[k].node, spots[k].tree) <= g.Keys
  {
    SettingSpots(g, n, t, path, spots, k, k);
    forall j | 0 <= j < |spots| && j != k
      ensures Untouched(g, spots[j], Reach(g, spots[k].node, spots[k].tree))
    {
      SettingSpots(g, n, t, path, spots, j, k);
    }
  }

  /** The edit e' changes some nodes of the document and finishes the next place with nodes of its own. */
  ghost predicate StepTo<T>(g: Heap<T>, e: Edit<T>, e': Edit<T>, spots: seq<Spot<T>>, k: nat, f: Tree -> Tree,
                            changed: set<T>, own: set<T>) {
    && k < |spots| && Repr(g, spots[k].node, spots[k].tree)
    && e'.tr == e.tr[spots[k].node := f(spots[k].tree)] && e'.ov.Keys <= e'.tr.Keys && e.news <= e'.news
    && e'.h.Keys == g.Keys + e'.news && g.Keys !! e'.news
    && Same(e.h, e'.h, e.h.Keys - changed) && changed <= g.Keys
    && (forall m :: m in e.tr ==> PlaceOf(e'.ov, m) == PlaceOf(e.ov, m))
    && (forall j :: 0 <= j < |spots| && j != k ==> Untouched(g, spots[j], changed))
    && PartOf(e'.h, PlaceOf(e'.ov, spots[k].node), f(spots[k].tree), own)
    && own !! (g.Keys - changed + e.news) && own <= Reach(g, spots[k].node, spots[k].tree) + e'.news
  }

  lemma {:induction false} StepMade<T>(g: Heap<T>, e: Edit<T>, e': Edit<T>, n: T, t: Tree, path: seq<Move>,
                                       spots: seq<Spot<T>>, k: nat, f: Tree -> Tree, changed: set<T>, own: set<T>)
    requires Progress(g, e, n, t, path, spots, k, f) && StepTo(g, e, e', spots, k, f, changed, own)
        && VisibleKept(g, e', n, t)
    ensures Progress(g, e', n, t, path, spots, k + 1, f)
  {
    NextKeys(g, e, n, t, path, spots, k, f);
    hide Chosen, Repr, Reach, TreeShaped, Spots, Lone, Visible, ApartTo, EditedTo, Within, VisibleKept, OnSpots;
    EarlierKept(g, e, e', n, t, path, spots, k, f, changed);
    LaterKept(g, e.h, e'.h, spots, k, changed);
    PartMore(e'.h, PlaceOf(e'.ov, spots[k].node), f(spots[k].tree), own,
        Reach(g, spots[k].node, spots[k].tree) + e'.news);
    NextEdited(g, e', n, t, path, spots, k, f, g.Keys - changed + e.news, own);
  }

  /** An edit inside the next place. */
  lemma {:induction false} StepInPlace<T>(g: Heap<T>, e: Edit<T>, n: T, t: Tree, path: seq<Move>, spots: seq<Spot<T>>,
                                          k: nat, f: Tree -> Tree, h': Heap<T>, more: set<T>)
    requires Progress(g, e, n, t, path, spots, k, f) && k < |spots|
    requires Repr(g, spots[k].node, spots[k].tree)
    requires h'.Keys == e.h.Keys + more && e.h.Keys !! more
        && Same(e.h, h', e.h.Keys - Reach(g, spots[k].node, spots[k].tree))
    requires PartOf(h', spots[k].node, f(spots[k].tree), Reach(g, spots[k].node, spots[k].tree) + more)
    ensures Progress(g, Edit(h', e.ov, e.tr[spots[k].node := f(spots[k].tree)], e.news + more), n, t, path, spots,
        k + 1, f)
  {
    var s := spots[k];
    var inside := Reach(g, s.node, s.tree);
    var e' := Edit(h', e.ov, e.tr[s.node := f(s.tree)], e.news + more);
    NextKeys(g, e, n, t, path, spots, k, f);
    Others(g, n, t, path, spots, k);
    hide Repr, Reach, TreeShaped, Spots, ApartTo, EditedTo, PendingFrom, VisibleKept, Setting, Chosen, PartOf, Same,
         StepTo;
    VisibleInPlace(g, e, n, t, path, spots, k, f, h', more);
    InPlaceTo(g, e, spots, k, f, h', more);
    StepMade(g, e, e', n, t, path, spots, k, f, inside, inside + more);
  }

  lemma {:induction false} InPlaceTo<T>(g: Heap<T>, e: Edit<T>, spots: seq<Spot<T>>, k: nat, f: Tree -> Tree,
                                        h': Heap<T>, more: set<T>)
    requires k < |spots| && Repr(g, spots[k].node, spots[k].tree) && Reach(g, spots[k].node, spots[k].tree) <= g.Keys
    requires e.ov.Keys <= e.tr.Keys && spots[k].node !in e.ov && e.h.Keys == g.Keys + e.news && g.Keys !! e.news
    requires h'.Keys == e.h.Keys + more && e.h.Keys !! more
        && Same(e.h, h', e.h.Keys - Reach(g, spots[k].node, spots[k].tree))
    requires PartOf(h', spots[k].node, f(spots[k].tree), Reach(g, spots[k].node, spots[k].tree) + more)
    requires forall j :: 0 <= j < |spots| && j != k ==> Untouched(g, spots[j], Reach(g, spots[k].node, spots[k].tree))
    ensures var inside := Reach(g, spots[k].node, spots[k].tree);
      StepTo(g, e, Edit(h', e.ov, e.tr[spots[k].node := f(spots[k].tree)], e.news + more), spots, k, f, inside,
          inside + more)
  {
    hide Repr, Reach, TreeShaped, Same, Untouched, PartOf;
  }

  lemma {:induction false} VisibleInPlace<T>(g: Heap<T>, e: Edit<T>, n: T, t: Tree, path: seq<Move>,
                                             spots: seq<Spot<T>>, k: nat, f: Tree -> Tree, h': Heap<T>, more: set<T>)
    requires Progress(g, e, n, t, path, spots, k, f) && k < |spots|
    requires Repr(g, spots[k].node, spots[k].tree) && Same(e.h, h', e.h.Keys - Reach(g, spots[k].node, spots[k].tree))
    ensures VisibleKept(g, Edit(h', e.ov, e.tr[spots[k].node := f(spots[k].tree)], e.news + more), n, t)
  {
    var s := spots[k];
    var done := e.tr.Keys + {s.node};
    hide Chosen, Repr, Reach, TreeShaped, Spots, Lone, Visible, ApartTo, EditedTo, PendingFrom;
    VisibleShrinks(g, n, t, e.tr.Keys, done);
    forall x | x in Visible(g, n, t, done)
      ensures VisibleAsNow(g, h', e.ov, x)
    {
      assert s in spots;
      NotVisible(g, n, t, path, s, done, x);
      assert VisibleAsNow(g, e.h, e.ov, x);
    }
    assert e.tr[s.node := f(s.tree)].Keys == done;
  }

  lemma {:induction false} PartMore<T>(h: Heap<T>, n: T, t: Tree, nodes: set<T>, more: set<T>)
    requires PartOf(h, n, t, nodes) && nodes <= more
    ensures PartOf(h, n, t, more)
  {
  }

  /** The document as it is between two edits. */
  lemma {:induction false} ProgressDoc<T>(g: Heap<T>, e: Edit<T>, n: T, t: Tree, path: seq<Move>, spots: seq<Spot<T>>,
                                          k: nat, f: Tree -> Tree)
    requires Progress(g, e, n, t, path, spots, k, f)
    ensures Repr(g, n, t) && Edited(g, e.h, n, t, e.ov, e.tr) && n !in e.tr && Repr(e.h, n, Over(g, n, t, e.tr))
    ensures Visible(g, n, t, e.tr.Keys) <= Reach(e.h, n, Over(g, n, t, e.tr))
  {
    SoleLone(g, n, t, path);
    ChosenOnSpots(g, n, t, path, Always(), k);
    OnSpotsRoot(g, n, t, path, e.tr.Keys);
    forall m | m in e.tr
      ensures Repr(e.h, PlaceOf(e.ov, m), e.tr[m])
    {
      var j: nat :| j < k && spots[j].node == m;
      assert SpotEdited(g, e, spots[j], f);
    }
    EditedRepr(g, e.h, n, t, e.ov, e.tr);
  }

  /** No edited place holds the node of a pending one. */
  lemma {:induction false} NotInEdited<T>(g: Heap<T>, e: Edit<T>, n: T, t: Tree, path: seq<Move>, spots: seq<Spot<T>>,
                                          k: nat, f: Tree -> Tree, m: T)
    requires Progress(g, e, n, t, path, spots, k, f) && k < |spots| && m in e.tr
    ensures Repr(e.h, PlaceOf(e.ov, m), e.tr[m]) && spots[k].node !in Reach(e.h, PlaceOf(e.ov, m), e.tr[m])
  {
    var j: nat :| j < k && spots[j].node == m;
    assert SpotEdited(g, e, spots[j], f);
    SettingSpots(g, n, t, path, spots, k, j);
  }

  /** Where the edited document holds a pending place, it is visible. */
  lemma {:induction false} HolderVisible<T>(g: Heap<T>, e: Edit<T>, n: T, t: Tree, path: seq<Move>, spots: seq<Spot<T>>,
                                            k: nat, f: Tree -> Tree, p: T)
    requires Progress(g, e, n, t, path, spots, k, f) && k < |spots|
    requires Repr(e.h, n, Over(g, n, t, e.tr)) && p in Reach(e.h, n, Over(g, n, t, e.tr)) && p in e.h
        && spots[k].node in e.h[p].content
    ensures p in Visible(g, n, t, e.tr.Keys)
  {
    ProgressDoc(g, e, n, t, path, spots, k, f);
    EditedReach(g, e.h, n, t, e.ov, e.tr, p);
    if p !in Visible(g, n, t, e.tr.Keys) {
      var m :| InEdited(g, e.h, n, t, e.ov, e.tr, m, p);
      NotInEdited(g, e, n, t, path, spots, k, f, m);
      var i :| 0 <= i < |e.h[p].content| && e.h[p].content[i] == spots[k].node;
      PointsWithin(e.h, PlaceOf(e.ov, m), e.tr[m], p, i);
    }
  }

  /** A pending place is still held by the document. */
  lemma {:induction false} HolderThere<T>(g: Heap<T>, e: Edit<T>, n: T, t: Tree, path: seq<Move>, spots: seq<Spot<T>>,
                                          k: nat, f: Tree -> Tree) returns (p: T)
    requires Progress(g, e, n, t, path, spots, k, f) && k < |spots|
    ensures Repr(e.h, n, Over(g, n, t, e.tr)) && p in Reach(e.h, n, Over(g, n, t, e.tr)) && p in e.h
        && spots[k].node in e.h[p].content
  {
    ProgressDoc(g, e, n, t, path, spots, k, f);
    NextKeys(g, e, n, t, path, spots, k, f);
    p := ParentVisible(g, n, t, path, spots[k], e.tr.Keys);
    assert VisibleAsNow(g, e.h, e.ov, p);
    var i :| 0 <= i < |g[p].content| && g[p].content[i] == spots[k].node;
    assert e.h[p].content[i] == spots[k].node;
  }

  /** The heap in which the entry idx of p gives way to a new scalar. */
  ghost function Swapped<T>(h: Heap<T>, p: T, idx: nat, x: T, value: string): Heap<T>
    requires p in h && idx < |h[p].content|
  {
    h[x := Rec(ScalarNode, value, [])][p := h[p].(content := h[p].content[..idx] + [x] + h[p].content[idx + 1..])]
  }

  ghost function SwapEdit<T>(e: Edit<T>, s: Spot<T>, p: T, idx: nat, x: T, value: string): Edit<T>
    requires p in e.h && idx < |e.h[p].content|
  {
    Edit(Swapped(e.h, p, idx, x, value), e.ov[s.node := x], e.tr[s.node := Tree(ScalarNode, value, [])], e.news + {x})
  }

  /** The visible holder of a pending place held it from the start. */
  lemma {:induction false} HeldFromStart<T>(g: Heap<T>, e: Edit<T>, n: T, t: Tree, path: seq<Move>, spots: seq<Spot<T>>,
                                            k: nat, f: Tree -> Tree, p: T, idx: nat)
    requires Progress(g, e, n, t, path, spots, k, f) && k < |spots|
    requires p in Visible(g, n, t, e.tr.Keys) && p in e.h && idx < |e.h[p].content|
        && e.h[p].content[idx] == spots[k].node
    ensures p in g && idx < |g[p].content| && g[p].content[idx] == spots[k].node && OnlyAt(g, spots[k].node, p, idx)
    ensures spots[k].node !in e.ov
  {
    assert VisibleAsNow(g, e.h, e.ov, p);
    var m := g[p].content[idx];
    if m in e.ov {
      NotInEdited(g, e, n, t, path, spots, k, f, m);
    }
    NextKeys(g, e, n, t, path, spots, k, f);
    assert spots[k] in spots;
    OnlyOneHolds(g, n, t, path, spots[k], p, idx);
  }

  lemma {:induction false} VisibleSwap<T>(g: Heap<T>, e: Edit<T>, n: T, t: Tree, path: seq<Move>, spots: seq<Spot<T>>,
                                          k: nat, f: Tree -> Tree, p: T, idx: nat, x: T, value: string)
    requires Progress(g, e, n, t, path, spots, k, f) && k < |spots| && x !in e.h
    requires p in Visible(g, n, t, e.tr.Keys) && p in e.h && idx < |e.h[p].content|
        && e.h[p].content[idx] == spots[k].node
    ensures VisibleKept(g, SwapEdit(e, spots[k], p, idx, x, value), n, t)
  {
    var m := spots[k].node;
    var e' := SwapEdit(e, spots[k], p, idx, x, value);
    HeldFromStart(g, e, n, t, path, spots, k, f, p, idx);
    VisibleShrinks(g, n, t, e.tr.Keys, e'.tr.Keys);
    forall q | q in Visible(g, n, t, e'.tr.Keys)
      ensures VisibleAsNow(g, e'.h, e'.ov, q)
    {
      assert VisibleAsNow(g, e.h, e.ov, q);
      SwapRow(g, e.h, e.ov, m, p, idx, x, value, q);
    }
  }

  lemma {:induction false} SwapRow<T>(g: Heap<T>, h: Heap<T>, ov: map<T, T>, m: T, p: T, idx: nat, x: T, value: string,
                                      q: T)
    requires p in g && idx < |g[p].content| && g[p].content[idx] == m && OnlyAt(g, m, p, idx) && m !in ov
    requires p in h && idx < |h[p].content| && VisibleAsNow(g, h, ov, q) && x !in h
    ensures VisibleAsNow(g, Swapped(h, p, idx, x, value), ov[m := x], q)
  {
    SubContentStep(g[q].content, ov, m, x);
    if q != p {
      assert m !in g[q].content;
    } else {
      assert g[p].content[idx] == m;
      assert m !in g[p].content[..idx] && m !in g[p].content[idx + 1..];
    }
  }

  lemma {:induction false} ParentUntouched<T>(g: Heap<T>, n: T, t: Tree, path: seq<Move>, spots: seq<Spot<T>>, k: nat,
                                              p: T, idx: nat)
    requires Setting(g, n, t, path, spots) && k < |spots| && p in g && idx < |g[p].content|
        && g[p].content[idx] == spots[k].node
    ensures forall j :: 0 <= j < |spots| && j != k ==> Untouched(g, spots[j], {p})
  {
    forall j | 0 <= j < |spots| && j != k
      ensures Untouched(g, spots[j], {p})
    {
      SettingSpots(g, n, t, path, spots, k, j);
      if p in Reach(g, spots[j].node, spots[j].tree) {
        PointsWithin(g, spots[j].node, spots[j].tree, p, idx);
      }
    }
  }

  /** The next place gives way to a new scalar. */
  lemma {:induction false} StepSwap<T>(g: Heap<T>, e: Edit<T>, n: T, t: Tree, path: seq<Move>, spots: seq<Spot<T>>,
                                       k: nat, f: Tree -> Tree, p: T, idx: nat, x: T, value: string)
    requires Progress(g, e, n, t, path, spots, k, f) && k < |spots| && x !in e.h
        && f(spots[k].tree) == Tree(ScalarNode, value, [])
    requires p in Visible(g, n, t, e.tr.Keys) && p in e.h && idx < |e.h[p].content|
        && e.h[p].content[idx] == spots[k].node
    ensures Progress(g, SwapEdit(e, spots[k], p, idx, x, value), n, t, path, spots, k + 1, f)
  {
    var e' := SwapEdit(e, spots[k], p, idx, x, value);
    NextKeys(g, e, n, t, path, spots, k, f);
    HeldFromStart(g, e, n, t, path, spots, k, f, p, idx);
    SettingSpots(g, n, t, path, spots, k, k);
    ParentUntouched(g, n, t, path, spots, k, p, idx);
    hide Repr, Reach, TreeShaped, Spots, ApartTo, EditedTo, PendingFrom, VisibleKept, Setting, Chosen, PartOf, Same,
         StepTo, Swapped, Visible;
    VisibleSwap(g, e, n, t, path, spots, k, f, p, idx, x, value);
    SwapTo(g, e, spots, k, f, p, idx, x, value);
    StepMade(g, e, e', n, t, path, spots, k, f, {p}, {x});
  }

  lemma {:induction false} SwapTo<T>(g: Heap<T>, e: Edit<T>, spots: seq<Spot<T>>, k: nat, f: Tree -> Tree, p: T,
                                     idx: nat, x: T, value: string)
    requires k < |spots| && Repr(g, spots[k].node, spots[k].tree) && f(spots[k].tree) == Tree(ScalarNode, value, [])
    requires e.ov.Keys <= e.tr.Keys && spots[k].node !in e.tr && e.h.Keys == g.Keys + e.news && g.Keys !! e.news
    requires p in g && p in e.h && idx < |e.h[p].content| && x !in e.h
    requires forall j :: 0 <= j < |spots| && j != k ==> Untouched(g, spots[j], {p})
    ensures StepTo(g, e, SwapEdit(e, spots[k], p, idx, x, value), spots, k, f, {p}, {x})
  {
    hide Untouched;
    var e' := SwapEdit(e, spots[k], p, idx, x, value);
    assert e'.h[x] == Rec(ScalarNode, value, []);
    assert PartOf(e'.h, x, Tree(ScalarNode, value, []), {x});
    assert PlaceOf(e'.ov, spots[k].node) == x;
    assert Same(e.h, e'.h, e.h.Keys - {p});
  }

  // ----- the result

  /** After the last edit every place has become what f says. */
  lemma {:induction false} ProgressDone<T>(g: Heap<T>, e: Edit<T>, n: T, t: Tree, path: seq<Move>, spots: seq<Spot<T>>,
                                           f: Tree -> Tree)
    requires Progress(g, e, n, t, path, spots, |spots|, f)
    ensures Repr(g, n, t) && Repr(e.h, n, Rewrite(t, path, f))
    ensures Over(g, n, t, e.tr) == Rewrite(t, path, f)
    ensures TreeShaped(g, n, t) ==> TreeShaped(e.h, n, Rewrite(t, path, f))
  {
    AllSpotsDone(g, e, n, t, path, spots, f);
    ProgressDoc(g, e, n, t, path, spots, |spots|, f);
    hide Progress, Repr, Reach, TreeShaped, Visible, Rewrite, Edited, Lone, OnSpots, Spots, AllDone, Over;
    OverIsRewrite(g, n, t, path, f, e.tr);
    if TreeShaped(g, n, t) {
      EditedShaped(g, e, n, t, path, spots, f, n, t);
    }
  }

  lemma {:induction false} AllSpotsDone<T>(g: Heap<T>, e: Edit<T>, n: T, t: Tree, path: seq<Move>, spots: seq<Spot<T>>,
                                           f: Tree -> Tree)
    requires Progress(g, e, n, t, path, spots, |spots|, f)
    ensures Repr(g, n, t) && Lone(g, n, t, path) && OnSpots(g, n, t, path, e.tr.Keys)
    ensures spots == Spots(g, n, t, path) && AllDone(spots, f, e.tr)
  {
    hide Repr, Reach, TreeShaped, Spots, Sole, Lone, VisibleKept, PendingFrom, ApartTo, PartOf, OnSpots;
    SoleLone(g, n, t, path);
    ChosenOnSpots(g, n, t, path, Always(), |spots|);
    forall s | s in spots
      ensures SpotDone(s, f, e.tr)
    {
      var j :| 0 <= j < |spots| && spots[j] == s;
      assert SpotEdited(g, e, spots[j], f);
    }
  }

  /** Two parts of the document without common nodes have none afterwards. */
  lemma {:induction false} NoCommonNode<T>(g: Heap<T>, e: Edit<T>, n: T, t: Tree, path: seq<Move>, spots: seq<Spot<T>>,
                                           f: Tree -> Tree, a: T, ta: Tree, b: T, tb: Tree, x: T)
    requires Progress(g, e, n, t, path, spots, |spots|, f)
    requires Repr(g, a, ta) && Repr(g, b, tb) && Holds(g, e, a, ta, x) && Holds(g, e, b, tb, x)
    ensures !(Reach(g, a, ta) !! Reach(g, b, tb))
  {
    hide Progress, Reach, Visible, Over;
    if x in g {
      HoldsOld(g, e, n, t, path, spots, f, a, ta, x);
      HoldsOld(g, e, n, t, path, spots, f, b, tb, x);
    } else {
      var m := HoldsNew(g, e, a, ta, x);
      var o := HoldsNew(g, e, b, tb, x);
      if m != o {
        EditedApart(g, e, n, t, path, spots, f, m, o);
      }
    }
  }

  lemma {:induction false} HoldsNew<T>(g: Heap<T>, e: Edit<T>, a: T, ta: Tree, x: T) returns (m: T)
    requires Repr(g, a, ta) && Holds(g, e, a, ta, x) && x !in g
    ensures InEdited(g, e.h, a, ta, e.ov, e.tr, m, x)
  {
    VisibleInReach(g, a, ta, e.tr.Keys);
    ReachInHeap(g, a, ta);
    m :| InEdited(g, e.h, a, ta, e.ov, e.tr, m, x);
  }

  /** The node is part of what has become of the part of the document. */
  ghost predicate Holds<T>(g: Heap<T>, e: Edit<T>, a: T, ta: Tree, x: T)
    requires Repr(g, a, ta)
  {
    x in Visible(g, a, ta, e.tr.Keys) || exists m :: m in e.tr && InEdited(g, e.h, a, ta, e.ov, e.tr, m, x)
  }

  /** An old node held by an edited place was part of the place. */
  lemma {:induction false} EditedFrom<T>(g: Heap<T>, e: Edit<T>, n: T, t: Tree, path: seq<Move>, spots: seq<Spot<T>>,
                                         f: Tree -> Tree, a: T, ta: Tree, m: T, x: T)
    requires Progress(g, e, n, t, path, spots, |spots|, f)
    requires Repr(g, a, ta) && InEdited(g, e.h, a, ta, e.ov, e.tr, m, x) && x in g
    ensures x in Reach(g, a, ta)
  {
    var j: nat :| j < |spots| && spots[j].node == m;
    assert SpotEdited(g, e, spots[j], f);
    ReachBelow(g, a, ta, m, spots[j].tree);
  }

  lemma {:induction false} EditedApart<T>(g: Heap<T>, e: Edit<T>, n: T, t: Tree, path: seq<Move>, spots: seq<Spot<T>>,
                                          f: Tree -> Tree, m: T, o: T)
    requires Progress(g, e, n, t, path, spots, |spots|, f) && m in e.tr && o in e.tr && m != o
    ensures Repr(e.h, PlaceOf(e.ov, m), e.tr[m]) && Repr(e.h, PlaceOf(e.ov, o), e.tr[o])
    ensures Reach(e.h, PlaceOf(e.ov, m), e.tr[m]) !! Reach(e.h, PlaceOf(e.ov, o), e.tr[o])
  {
    var i: nat :| i < |spots| && spots[i].node == m;
    var j: nat :| j < |spots| && spots[j].node == o;
    assert SpotEdited(g, e, spots[i], f) && SpotEdited(g, e, spots[j], f);
    assert if i < j then PlacesApart(e, spots[i], spots[j], f) else PlacesApart(e, spots[j], spots[i], f);
  }

  lemma {:induction false} ReachBelow<T>(g: Heap<T>, a: T, ta: Tree, m: T, tm: Tree)
    requires Repr(g, a, ta) && Repr(g, m, tm) && m in Reach(g, a, ta)
    ensures Reach(g, m, tm) <= Reach(g, a, ta)
    decreases tm
  {
    ReachInHeap(g, a, ta);
    forall i | 0 <= i < |tm.children|
      ensures Reach(g, g[m].content[i], tm.children[i]) <= Reach(g, a, ta)
    {
      PointsWithin(g, a, ta, m, i);
      ReachBelow(g, a, ta, g[m].content[i], tm.children[i]);
    }
  }

  lemma {:induction false} EditedShaped<T>(g: Heap<T>, e: Edit<T>, n: T, t: Tree, path: seq<Move>, spots: seq<Spot<T>>,
                                           f: Tree -> Tree, a: T, ta: Tree)
    requires Progress(g, e, n, t, path, spots, |spots|, f)
    requires Repr(g, a, ta) && TreeShaped(g, a, ta) && a !in e.tr && Edited(g, e.h, a, ta, e.ov, e.tr)
    ensures Repr(e.h, a, Over(g, a, ta, e.tr)) && TreeShaped(e.h, a, Over(g, a, ta, e.tr))
    decreases ta, 1
  {
    EditedRepr(g, e.h, a, ta, e.ov, e.tr);
    var h, r := e.h, Over(g, a, ta, e.tr);
    assert VisibleAsNow(g, h, e.ov, a);
    forall i | 0 <= i < |r.children|
      ensures TreeShaped(h, h[a].content[i], r.children[i])
      ensures forall x :: x in Reach(h, h[a].content[i], r.children[i]) ==>
          Holds(g, e, g[a].content[i], ta.children[i], x)
    {
      EditedChild(g, e, n, t, path, spots, f, a, ta, i);
    }
    ReachInHeap(g, a, ta);
    forall i | 0 <= i < |r.children|
      ensures a !in Reach(h, h[a].content[i], r.children[i])
    {
      if a in Reach(h, h[a].content[i], r.children[i]) {
        HoldsOld(g, e, n, t, path, spots, f, g[a].content[i], ta.children[i], a);
      }
    }
    forall i, j | 0 <= i < j < |r.children|
      ensures Reach(h, h[a].content[i], r.children[i]) !! Reach(h, h[a].content[j], r.children[j])
    {
      forall x | x in Reach(h, h[a].content[i], r.children[i]) && x in Reach(h, h[a].content[j], r.children[j])
        ensures false
      {
        NoCommonNode(g, e, n, t, path, spots, f, g[a].content[i], ta.children[i], g[a].content[j], ta.children[j], x);
      }
    }
  }

  lemma {:induction false} HoldsOld<T>(g: Heap<T>, e: Edit<T>, n: T, t: Tree, path: seq<Move>, spots: seq<Spot<T>>,
                                       f: Tree -> Tree, a: T, ta: Tree, x: T)
    requires Progress(g, e, n, t, path, spots, |spots|, f) && Repr(g, a, ta) && Holds(g, e, a, ta, x) && x in g
    ensures x in Reach(g, a, ta)
  {
    VisibleInReach(g, a, ta, e.tr.Keys);
    if x !in Visible(g, a, ta, e.tr.Keys) {
      var m :| InEdited(g, e.h, a, ta, e.ov, e.tr, m, x);
      EditedFrom(g, e, n, t, path, spots, f, a, ta, m, x);
    }
  }

  lemma {:induction false} EditedChild<T>(g: Heap<T>, e: Edit<T>, n: T, t: Tree, path: seq<Move>, spots: seq<Spot<T>>,
                                          f: Tree -> Tree, a: T, ta: Tree, i: nat)
    requires Progress(g, e, n, t, path, spots, |spots|, f)
    requires Repr(g, a, ta) && TreeShaped(g, a, ta) && a !in e.tr && Edited(g, e.h, a, ta, e.ov, e.tr)
        && i < |ta.children|
    ensures var r := Over(g, a, ta, e.tr);
      && Repr(e.h, a, r) && TreeShaped(e.h, e.h[a].content[i], r.children[i])
      && forall x :: x in Reach(e.h, e.h[a].content[i], r.children[i]) ==>
           Holds(g, e, g[a].content[i], ta.children[i], x)
    decreases ta, 0
  {
    EditedRepr(g, e.h, a, ta, e.ov, e.tr);
    var c, tc := g[a].content[i], ta.children[i];
    assert VisibleAsNow(g, e.h, e.ov, a);
    VisibleChild(g, a, ta, e.tr.Keys, i);
    if c in e.tr {
      var j: nat :| j < |spots| && spots[j].node == c;
      assert SpotEdited(g, e, spots[j], f);
      assert c in Reach(g, c, tc);
      forall x | x in Reach(e.h, PlaceOf(e.ov, c), e.tr[c])
        ensures Holds(g, e, c, tc, x)
      {
        assert InEdited(g, e.h, c, tc, e.ov, e.tr, c, x);
      }
    } else {
      EditedShaped(g, e, n, t, path, spots, f, c, tc);
      forall x | x in Reach(e.h, c, Over(g, c, tc, e.tr))
        ensures Holds(g, e, c, tc, x)
      {
        EditedReach(g, e.h, c, tc, e.ov, e.tr, x);
      }
    }
  }
}
