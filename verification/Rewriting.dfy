/** Rewriting names in place: every place becomes a new node with the translated name. */
module Rewriting {
  import opened Strings
  import opened OpPath
  import opened Trees
  import opened Graph
  import opened Replacing
  import opened Nodes
  import opened Patches

  /** The places that are rewritten: scalars that meet the condition. */
  ghost function Hit(cond: Tree -> bool): Tree -> bool {
    (s: Tree) => s.kind == ScalarNode && cond(s)
  }

  /** What a place becomes. */
  ghost function Renamed(cond: Tree -> bool, translate: string -> Option<string>): Tree -> Tree {
    (s: Tree) => if s.kind == ScalarNode && cond(s) && translate(s.value).Some? then Scalar(translate(s.value).value)
        else s
  }

  /** Every place to be rewritten has a translation. */
  ghost predicate AllTranslate(trees: seq<Tree>, cond: Tree -> bool, translate: string -> Option<string>) {
    forall s :: s in trees && s.kind == ScalarNode && cond(s) ==> translate(s.value).Some?
  }

  /** The heap with the nodes made so far, and which of them stands in for which place. */
  datatype Work = Work(g: Heap<Node>, ov: map<Node, Node>, tr: map<Node, Tree>, news: set<Node>)

  ghost predicate Leaves(w: Work) {
    && w.ov.Keys == w.tr.Keys
    && (forall x :: x in w.news ==> x in w.g && w.g[x].content == [])
    && (forall m :: m in w.ov ==> w.ov[m] in w.news && w.tr[m].children == [] && w.g[w.ov[m]].kind == w.tr[m].kind)
    && (forall m :: m in w.ov ==> w.g[w.ov[m]].value == w.tr[m].value)
    && (forall m, o :: m in w.ov && o in w.ov && m != o ==> w.ov[m] != w.ov[o])
  }

  ghost predicate Around(w: Work, n: Node, t: Tree, path: seq<Move>, spots: seq<Spot<Node>>) {
    && Repr(w.g, n, t) && TreeShaped(w.g, n, t) && path != [] && spots == Spots(w.g, n, t, path)
    && w.g.Keys == Reach(w.g, n, t) + w.news && Reach(w.g, n, t) !! w.news
  }

  ghost predicate DoneTo(w: Work, spots: seq<Spot<Node>>, k: nat, hit: Tree -> bool, f: Tree -> Tree)
    requires k <= |spots|
  {
    && w.ov.Keys == w.tr.Keys == Chosen(spots, hit, k)
    && forall j :: 0 <= j < k && hit(spots[j].tree) ==> w.tr[spots[j].node] == f(spots[j].tree)
  }

  ghost function NextWork(w: Work, m: Node, x: Node, value: string): Work {
    Work(w.g[x := Rec(ScalarNode, value, [])], w.ov[m := x], w.tr[m := Scalar(value)], w.news + {x})
  }

  /** A node made for a place leaves the rest as it is. */
  lemma {:induction false} WorkGrows(w: Work, n: Node, t: Tree, path: seq<Move>, spots: seq<Spot<Node>>, m: Node,
                                     x: Node, value: string)
    requires Leaves(w) && Around(w, n, t, path, spots) && x !in w.g && m !in w.ov
    ensures var w' := NextWork(w, m, x, value);
      && Leaves(w') && Around(w', n, t, path, spots)
           && Sub(w'.g, w.ov) == Sub(w.g, w.ov)[x := Rec(ScalarNode, value, [])]
  {
    LeavesGrow(w, m, x, value);
    AroundGrows(w, n, t, path, spots, m, x, value);
    SubGrows(w.g, w.ov, x, value);
  }

  lemma {:induction false} LeavesGrow(w: Work, m: Node, x: Node, value: string)
    requires Leaves(w) && x !in w.g && m !in w.ov
    ensures Leaves(NextWork(w, m, x, value))
  {
  }

  lemma {:induction false} AroundGrows(w: Work, n: Node, t: Tree, path: seq<Move>, spots: seq<Spot<Node>>, m: Node,
                                       x: Node, value: string)
    requires Around(w, n, t, path, spots) && x !in w.g
    ensures Around(NextWork(w, m, x, value), n, t, path, spots)
  {
    ReachInHeap(w.g, n, t);
    TreeLone(w.g, n, t, path);
    WiderView(w.g, NextWork(w, m, x, value).g, n, t, path);
  }

  lemma {:induction false} SubGrows(g: Heap<Node>, ov: map<Node, Node>, x: Node, value: string)
    requires x !in g
    ensures Sub(g[x := Rec(ScalarNode, value, [])], ov) == Sub(g, ov)[x := Rec(ScalarNode, value, [])]
  {
    assert SubContent([], ov) == [];
  }

  lemma {:induction false} WorkReady(w: Work, ov: map<Node, Node>, tr: map<Node, Tree>, n: Node, t: Tree,
                                     path: seq<Move>, spots: seq<Spot<Node>>, hit: Tree -> bool, k: nat)
    requires Leaves(w) && Around(w, n, t, path, spots) && k <= |spots|
    requires ov.Keys == tr.Keys == Chosen(spots, hit, k)
    requires forall m :: m in ov ==> m in w.ov && m in w.tr && ov[m] == w.ov[m] && tr[m] == w.tr[m]
    ensures Ready(w.g, ov, tr, n, t, path)
    ensures k < |spots| ==> spots[k] in spots && spots[k].node !in ov
  {
    TreeLone(w.g, n, t, path);
    ChosenOnSpots(w.g, n, t, path, hit, k);
    forall m | m in ov
      ensures GoodReplacement(w.g, ov, ov[m], tr[m])
    {
    }
    assert forall p :: p in w.g && p !in Reach(w.g, n, t) ==> p in w.news && w.g[p].content == [];
  }

  lemma {:induction false} WorkDone(w: Work, n: Node, t: Tree, path: seq<Move>, spots: seq<Spot<Node>>,
                                    hit: Tree -> bool, f: Tree -> Tree)
    requires Leaves(w) && Around(w, n, t, path, spots) && DoneTo(w, spots, |spots|, hit, f)
    requires forall s :: !hit(s) ==> f(s) == s
    ensures Repr(Sub(w.g, w.ov), n, Rewrite(t, path, f)) && TreeShaped(Sub(w.g, w.ov), n, Rewrite(t, path, f))
  {
    WorkReady(w, w.ov, w.tr, n, t, path, spots, hit, |spots|);
    OnSpotsRoot(w.g, n, t, path, w.ov.Keys);
    SpotsDistinct(w.g, n, t, path);
    forall s | s in spots
      ensures SpotDone(s, f, w.tr)
    {
      ChosenAll(spots, hit, s);
      var j :| 0 <= j < |spots| && spots[j] == s;
    }
    OverIsRewrite(w.g, n, t, path, f, w.tr);
    WorkFresh(w, n, t, path, spots);
    SubShaped(w.g, w.ov, w.tr, n, t, Reach(w.g, n, t));
  }

  lemma {:induction false} WorkFresh(w: Work, n: Node, t: Tree, path: seq<Move>, spots: seq<Spot<Node>>)
    requires Leaves(w) && Around(w, n, t, path, spots) && GoodReplacements(w.g, w.ov, w.tr)
    ensures FreshReplacements(w.g, w.ov, w.tr, Reach(w.g, n, t))
  {
    forall m | m in w.ov
      ensures Fresh(w.g, w.ov, w.ov[m], w.tr[m], Reach(w.g, n, t))
    {
    }
    forall m, o | m in w.ov && o in w.ov && m != o
      ensures SeparateTrees(w.g, w.ov[m], w.tr[m], w.ov[o], w.tr[o])
    {
    }
  }

  /** One more place to be rewritten is next. */
  ghost predicate Between(w: Work, n: Node, t: Tree, path: seq<Move>, spots: seq<Spot<Node>>, k: nat, hit: Tree -> bool,
                          f: Tree -> Tree) {
    && k <= |spots| && Leaves(w) && Around(w, n, t, path, spots) && DoneTo(w, spots, k, hit, f)
  }

  /** A place of the path is as it was until it is rewritten. */
  lemma {:induction false} SpotAsBefore(w: Work, n: Node, t: Tree, path: seq<Move>, spots: seq<Spot<Node>>, k: nat,
                                        hit: Tree -> bool, f: Tree -> Tree)
    requires Between(w, n, t, path, spots, k, hit, f) && k < |spots|
    ensures Repr(Sub(w.g, w.ov), spots[k].node, spots[k].tree) && spots[k].node !in w.ov
    ensures Ready(w.g, w.ov, w.tr, n, t, path) && spots[k] in Spots(w.g, n, t, path)
    ensures !hit(spots[k].tree) ==> Between(w, n, t, path, spots, k + 1, hit, f)
  {
    hide Leaves, Repr, Reach, Lone, TreeShaped, Spots, Chosen, Sub, Over, Ready;
    WorkReady(w, w.ov, w.tr, n, t, path, spots, hit, k);
    ReadyFor(w.g, w.ov, w.tr, n, t, path, spots[k]);
    ChosenNext(spots, hit, k);
  }

  /** After a new node is made, it can stand in for the place. */
  lemma {:induction false} StandIn(w: Work, n: Node, t: Tree, path: seq<Move>, spots: seq<Spot<Node>>, k: nat,
                                   hit: Tree -> bool, f: Tree -> Tree, x: Node, value: string)
    requires Between(w, n, t, path, spots, k, hit, f) && k < |spots| && hit(spots[k].tree)
        && f(spots[k].tree) == Scalar(value) && x !in w.g
    ensures var w' := NextWork(w, spots[k].node, x, value);
      && Between(w', n, t, path, spots, k + 1, hit, f)
      && Ready(w'.g, w.ov, w.tr, n, t, path) && Sub(w'.g, w.ov) == Sub(w.g, w.ov)[x := Rec(ScalarNode, value, [])]
      && spots == Spots(w'.g, n, t, path)
  {
    hide Leaves, Repr, Reach, Lone, TreeShaped, Spots, Sub, Over, Ready;
    SpotAsBefore(w, n, t, path, spots, k, hit, f);
    WorkGrows(w, n, t, path, spots, spots[k].node, x, value);
    var w' := NextWork(w, spots[k].node, x, value);
    SpotsDistinctHere(w, n, t, path, spots);
    ChosenNext(spots, hit, k);
    WorkReady(w', w.ov, w.tr, n, t, path, spots, hit, k);
    forall j | 0 <= j < k + 1 && hit(spots[j].tree)
      ensures w'.tr[spots[j].node] == f(spots[j].tree)
    {
    }
  }

  lemma {:induction false} SpotsDistinctHere(w: Work, n: Node, t: Tree, path: seq<Move>, spots: seq<Spot<Node>>)
    requires Around(w, n, t, path, spots)
    ensures DistinctNodes(spots)
  {
    TreeLone(w.g, n, t, path);
    SpotsDistinct(w.g, n, t, path);
  }

  ghost function Started(g: Heap<Node>): Work {
    Work(g, map[], map[], {})
  }

  lemma {:induction false} SubEmpty(g: Heap<Node>)
    ensures Sub(g, map[]) == g && Started(g).g.Keys == g.Keys
  {
    forall n | n in g
      ensures SubContent(g[n].content, map[]) == g[n].content
    {
    }
  }

  lemma {:induction false} WorkStart(g: Heap<Node>, n: Node, t: Tree, path: seq<Move>, hit: Tree -> bool,
                                     f: Tree -> Tree)
    requires Repr(g, n, t) && TreeShaped(g, n, t) && path != [] && g.Keys == Reach(g, n, t)
    ensures Between(Started(g), n, t, path, Spots(g, n, t, path), 0, hit, f)
  {
  }

  ghost predicate Translates(spots: seq<Spot<Node>>, k: nat, cond: Tree -> bool, translate: string -> Option<string>)
    requires k <= |spots|
  {
    forall j :: 0 <= j < k && Hit(cond)(spots[j].tree) ==> translate(spots[j].tree.value).Some?
  }

  lemma {:induction false} AllSpotsTranslate(spots: seq<Spot<Node>>, cond: Tree -> bool,
                                             translate: string -> Option<string>)
    ensures Translates(spots, |spots|, cond, translate) <==> AllTranslate(TreesOf(spots), cond, translate)
  {
    var trees := TreesOf(spots);
    if Translates(spots, |spots|, cond, translate) {
      forall s | s in trees && s.kind == ScalarNode && cond(s)
        ensures translate(s.value).Some?
      {
        var j :| 0 <= j < |trees| && trees[j] == s;
        assert Hit(cond)(spots[j].tree);
      }
    }
    if AllTranslate(trees, cond, translate) {
      forall j | 0 <= j < |spots| && Hit(cond)(spots[j].tree)
        ensures translate(spots[j].tree.value).Some?
      {
        assert trees[j] in trees;
      }
    }
  }

  /** A document that holds one scalar. */
  method NewNode(value: string) returns (doc: Node)
    ensures fresh(doc) && doc.kind == DocumentNode && |doc.content| == 1
    ensures fresh(doc.content[0]) && doc.content[0] != doc
    ensures doc.content[0].kind == ScalarNode && doc.content[0].value == value && doc.content[0].content == []
  {
    var scalar := new Node(ScalarNode, value, []);
    doc := new Node(DocumentNode, "", [scalar]);
  }

  lemma {:induction false} SnapLeaf(all: set<Node>, x: Node, value: string)
    requires x.kind == ScalarNode && x.value == value && x.content == []
    ensures Snap(all + {x}) == Snap(all)[x := Rec(ScalarNode, value, [])]
  {
  }

  /** The heap is what the work so far has made of it. */
  ghost predicate Working(ns: set<Node>, w: Work, n: Node, t: Tree, path: seq<Move>, spots: seq<Spot<Node>>, k: nat,
                          hit: Tree -> bool, f: Tree -> Tree)
    reads ns + w.news
  {
    && Between(w, n, t, path, spots, k, hit, f)
    && w.g.Keys == ns + w.news && Snap(ns + w.news) == Sub(w.g, w.ov)
  }

  lemma {:induction false} WorkingSpot(ns: set<Node>, w: Work, n: Node, t: Tree, path: seq<Move>,
                                       spots: seq<Spot<Node>>, k: nat, hit: Tree -> bool, f: Tree -> Tree)
    requires Working(ns, w, n, t, path, spots, k, hit, f) && k < |spots|
    ensures Repr(Snap(ns + w.news), spots[k].node, spots[k].tree)
    ensures !hit(spots[k].tree) ==> Working(ns, w, n, t, path, spots, k + 1, hit, f)
  {
    SpotAsBefore(w, n, t, path, spots, k, hit, f);
  }

  /** The next place gives way to a new node with the value. */
  method TranslateSpot(ghost ns: set<Node>, obj: Node, ghost t: Tree, ghost path: seq<Move>,
                       ghost spots: seq<Spot<Node>>, ghost k: nat, ghost hit: Tree -> bool, ghost f: Tree -> Tree,
                       ghost w: Work, child: Node, value: string)
                           returns (ghost w': Work)
    requires Working(ns, w, obj, t, path, spots, k, hit, f) && k < |spots| && spots[k].node == child
    requires hit(spots[k].tree) && f(spots[k].tree) == Scalar(value)
    modifies ns + w.news
    ensures Working(ns, w', obj, t, path, spots, k + 1, hit, f) && w.news <= w'.news && fresh(w'.news - w.news)
  {
    hide Between, Ready, Snap, Sub, Repr, Spots, TreeShaped, Reach;
    var newNode := NewNode(value);
    ghost var x := newNode.content[0];
    w' := NextWork(w, child, x, value);
    StandIn(w, obj, t, path, spots, k, hit, f, x, value);
    SnapLeaf(ns + w.news, x, value);
    assert ns + w.news + {x} == ns + w'.news;
    SpotAsBefore(w, obj, t, path, spots, k, hit, f);
    assert spots[k] in spots;
    ReplaceSpot(ns + w'.news, w'.g, w.ov, w.tr, obj, t, path, spots[k], child, newNode);
  }

  /**
   Every scalar the path leads to and that meets the condition gives way to a new one with the translated
   value; the first value without a translation ends the work.
   */
  method TranslateMatches(ghost ns: set<Node>, obj: Node, ghost t: Tree, path: seq<Move>, cond: Tree -> bool,
                          translate: string -> Option<string>) returns (ok: bool, ghost ns': set<Node>)
    requires Doc(ns, obj, t) && TreeShaped(Snap(ns), obj, t)
    modifies ns
    ensures fresh(ns' - ns)
    ensures ok <==> AllTranslate(Lookup(t, path), cond, translate)
    ensures ok ==> Doc(ns', obj, Replaced(t, path, Renamed(cond, translate)))
                   && TreeShaped(Snap(ns'), obj, Replaced(t, path, Renamed(cond, translate)))
  {
    ns' := ns;
    ghost var spots := Spots(Snap(ns), obj, t, path);
    SpotsLookup(Snap(ns), obj, t, path);
    if path == [] {
      var tree := ReadTree(ns, obj, t);
      ok := obj.kind != ScalarNode || !cond(tree) || translate(obj.value).Some?;
      return;
    }
    var matches := FindMatches(ns, obj, t, path);
    WorkStart(Snap(ns), obj, t, path, Hit(cond), Renamed(cond, translate));
    SubEmpty(Snap(ns));
    assert ns + Started(Snap(ns)).news == ns;
    AllSpotsTranslate(spots, cond, translate);
    ghost var w;
    ok, w := TranslateSpots(ns, obj, t, path, cond, translate, matches, spots);
    if ok {
      hide Rewrite, Renamed, Sub, Repr, Spots, TreeShaped, Reach, Snap;
      WorkDone(w, obj, t, path, spots, Hit(cond), Renamed(cond, translate));
      ns' := Footprint(ns + w.news, obj, Rewrite(t, path, Renamed(cond, translate)));
    }
  }

  method TranslateSpots(ghost ns: set<Node>, obj: Node, ghost t: Tree, ghost path: seq<Move>, cond: Tree -> bool,
                        translate: string -> Option<string>, matches: seq<Node>, ghost spots: seq<Spot<Node>>)
    returns (ok: bool, ghost w: Work)
    requires NodesOf(matches, spots)
    requires Working(ns, Started(Snap(ns)), obj, t, path, spots, 0, Hit(cond), Renamed(cond, translate))
    modifies ns
    ensures ok <==> Translates(spots, |spots|, cond, translate)
    ensures fresh(w.news)
    ensures ok ==> Working(ns, w, obj, t, path, spots, |spots|, Hit(cond), Renamed(cond, translate))
  {
    ghost var hit, f := Hit(cond), Renamed(cond, translate);
    w := Started(Snap(ns));
    hide Working, Snap, Repr;
    for k := 0 to |matches|
      invariant Working(ns, w, obj, t, path, spots, k, hit, f) && fresh(w.news)
      invariant Translates(spots, k, cond, translate)
    {
      WorkingSpot(ns, w, obj, t, path, spots, k, hit, f);
      var tree := ReadTree(ns + w.news, matches[k], spots[k].tree);
      if tree.kind != ScalarNode || !cond(tree) {
        continue;
      }
      var translated := translate(tree.value);
      if translated.None? {
        ok := false;
        return;
      }
      w := TranslateSpot(ns, obj, t, path, spots, k, hit, f, w, matches[k], translated.value);
    }
    ok := true;
  }
}
