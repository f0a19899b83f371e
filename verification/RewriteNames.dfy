/** The patch that rewrites names: places that are names, lists of items, or items. */
module RewriteNames {
  import opened Strings
  import opened OpPath
  import opened Trees
  import opened TreeLaws
  import opened Graph
  import opened Replacing
  import opened Holders
  import opened Nodes
  import opened Patches
  import opened Rewriting
  import opened Editing
  import opened ItemRewrites
  import opened Layouts
  import opened EditedLayouts

  /** What becomes of a place. */
  ghost function Rewritten(t: Tree, p: ItemPatch, r: Resolver): Tree {
    match t.kind
    case ScalarNode => Renamed(p.cond, NameIn(r, ""))(t)
    case SequenceNode => t.(children := Map(t.children, Items(p, r)))
    case MappingNode => Items(p, r)(t)
    case DocumentNode => t
  }

  ghost function Target(p: ItemPatch, r: Resolver): Tree -> Tree {
    t => Rewritten(t, p, r)
  }

  /** Everything that is to be translated at the place has a translation. */
  ghost predicate Rewritable(t: Tree, p: ItemPatch, r: Resolver) {
    match t.kind
    case ScalarNode => p.cond(t) ==> r.name(t.value, "").Some?
    case SequenceNode => AllTranslatable(t.children, |t.children|, p, r)
    case MappingNode => Translatable(t, p, r)
    case DocumentNode => true
  }

  ghost predicate AllRewritable(trees: seq<Tree>, k: nat, p: ItemPatch, r: Resolver)
    requires k <= |trees|
  {
    forall j :: 0 <= j < k ==> Rewritable(trees[j], p, r)
  }

  lemma {:induction false} UnderwayProgress(ns: set<Node>, g: Heap<Node>, e: Edit<Node>, n: Node, t: Tree,
                                            path: seq<Move>, spots: seq<Spot<Node>>, k: nat, f: Tree -> Tree)
    requires Underway(ns, g, e, n, t, path, spots, k, f)
    ensures Progress(g, e, n, t, path, spots, k, f) && g.Keys == ns
  {
  }

  /** A place that stays as it is. */
  lemma {:induction false} Stay(ns: set<Node>, g: Heap<Node>, e: Edit<Node>, n: Node, t: Tree, path: seq<Move>,
                                spots: seq<Spot<Node>>, k: nat, f: Tree -> Tree)
    requires Underway(ns, g, e, n, t, path, spots, k, f) && k < |spots| && f(spots[k].tree) == spots[k].tree
    ensures Underway(ns, g, TakenIn(ns, e, spots[k].node, f(spots[k].tree), {}), n, t, path, spots, k + 1, f)
  {
    hide Progress, Repr, Reach, TreeShaped, Doc, Snap, Underway;
    UnderwayProgress(ns, g, e, n, t, path, spots, k, f);
    OwnDoc(ns, g, e, n, t, path, spots, k, f);
    var part := Reach(g, spots[k].node, spots[k].tree);
    assert part - part == {};
    TakeIn(ns, g, e, n, t, path, spots, k, f, part, part);
  }

  lemma {:induction false} ProgressSetting(g: Heap<Node>, e: Edit<Node>, n: Node, t: Tree, path: seq<Move>,
                                           spots: seq<Spot<Node>>, k: nat, f: Tree -> Tree)
    requires Progress(g, e, n, t, path, spots, k, f)
    ensures Repr(g, n, t)
  {
  }

  /** A new node does not change what the document stands for, and the next place is in it. */
  lemma {:induction false} BeforeSwap(g: Heap<Node>, e: Edit<Node>, n: Node, t: Tree, path: seq<Move>,
                                      spots: seq<Spot<Node>>, k: nat, f: Tree -> Tree, h: Heap<Node>, x: Node,
                                      value: string)
    requires Progress(g, e, n, t, path, spots, k, f) && k < |spots| && x !in e.h
        && h == e.h[x := Rec(ScalarNode, value, [])]
    ensures Repr(g, n, t) && Repr(e.h, n, Over(g, n, t, e.tr)) && Repr(h, n, Over(g, n, t, e.tr))
    ensures Reach(h, n, Over(g, n, t, e.tr)) == Reach(e.h, n, Over(g, n, t, e.tr)) <= e.h.Keys
    ensures !Nowhere(h, n, Over(g, n, t, e.tr), spots[k].node)
  {
    hide Progress, Over, TreeShaped, Visible, Setting;
    var holder := HolderThere(g, e, n, t, path, spots, k, f);
    ProgressSetting(g, e, n, t, path, spots, k, f);
    ReachInHeap(e.h, n, Over(g, n, t, e.tr));
    ReprFrame(e.h, h, n, Over(g, n, t, e.tr));
    assert holder in h && h[holder] == e.h[holder];
  }

  /** A scalar gives way to a new one with the value. */
  method SwapScalar(ghost ns: set<Node>, ghost g: Heap<Node>, ghost e: Edit<Node>, obj: Node, ghost t: Tree,
                    ghost path: seq<Move>, ghost spots: seq<Spot<Node>>, ghost k: nat, ghost f: Tree -> Tree,
                    child: Node, value: string)
    returns (ghost e': Edit<Node>)
    requires Underway(ns, g, e, obj, t, path, spots, k, f) && k < |spots| && spots[k].node == child
    requires f(spots[k].tree) == Scalar(value)
    modifies ns + e.news
    ensures Underway(ns, g, e', obj, t, path, spots, k + 1, f) && e.news <= e'.news && fresh(e'.news - e.news)
  {
    var newNode := NewNode(value);
    ghost var x := newNode.content[0];
    SnapLeaf(ns + e.news, x, value);
    assert newNode.content == [x];
    hide Progress, Snap;
    e' := SwapIn(ns, g, e, obj, t, path, spots, k, f, child, newNode, x, value);
  }

  method SwapIn(ghost ns: set<Node>, ghost g: Heap<Node>, ghost e: Edit<Node>, obj: Node, ghost t: Tree,
                ghost path: seq<Move>, ghost spots: seq<Spot<Node>>, ghost k: nat, ghost f: Tree -> Tree, child: Node,
                newNode: Node, ghost x: Node, ghost value: string) returns (ghost e': Edit<Node>)
    requires g.Keys == ns && Progress(g, e, obj, t, path, spots, k, f) && k < |spots| && spots[k].node == child
    requires f(spots[k].tree) == Scalar(value) && newNode.content == [x] && x !in e.h
    requires Snap(ns + e.news + {x}) == e.h[x := Rec(ScalarNode, value, [])]
    modifies ns + e.news + {x}
    ensures Underway(ns, g, e', obj, t, path, spots, k + 1, f) && e'.news == e.news + {x}
  {
    ghost var all := ns + e.news + {x};
    ghost var h := Snap(all);
    hide Underway, Progress, Repr, Reach, Visible, Over, Nowhere, Snap, First;
    BeforeSwap(g, e, obj, t, path, spots, k, f, h, x, value);
    ghost var at := ReplaceNode(all, obj, Over(g, obj, t, e.tr), child, newNode);
    e' := Swap(g, e, obj, t, path, spots, k, f, h, at.value.0, at.value.1, x, value);
    assert ns + e'.news == all;
    UnderwayIs(ns, g, e', obj, t, path, spots, k + 1, f);
  }

  lemma {:induction false} Swap(g: Heap<Node>, e: Edit<Node>, n: Node, t: Tree, path: seq<Move>, spots: seq<Spot<Node>>,
                                k: nat, f: Tree -> Tree, h: Heap<Node>, p: Node, i: nat, x: Node, value: string)
                                    returns (e': Edit<Node>)
    requires Progress(g, e, n, t, path, spots, k, f) && k < |spots| && x !in e.h
        && h == e.h[x := Rec(ScalarNode, value, [])]
    requires f(spots[k].tree) == Scalar(value)
    requires Repr(g, n, t) && Repr(e.h, n, Over(g, n, t, e.tr)) && p in Reach(e.h, n, Over(g, n, t, e.tr)) && p in e.h
    requires First(h[p].content, i, spots[k].node)
    ensures Progress(g, e', n, t, path, spots, k + 1, f)
    ensures e'.h == WithContent(h, p, Spliced(h[p].content, i, [x])) && e'.news == e.news + {x}
  {
    assert h[p] == e.h[p] && spots[k].node in e.h[p].content;
    hide Progress, Repr, Reach, Visible, Over, First, Swapped, Spliced, WithContent;
    SwappedIs(e.h, p, i, x, value);
    HolderVisible(g, e, n, t, path, spots, k, f, p);
    StepSwap(g, e, n, t, path, spots, k, f, p, i, x, value);
    e' := SwapEdit(e, spots[k], p, i, x, value);
  }

  lemma {:induction false} SwappedIs(h: Heap<Node>, p: Node, i: nat, x: Node, value: string)
    requires p in h && i < |h[p].content| && x !in h
    ensures var h' := h[x := Rec(ScalarNode, value, [])];
      Swapped(h, p, i, x, value) == WithContent(h', p, Spliced(h'[p].content, i, [x]))
  {
  }

  lemma {:induction false} UnderwayIs(ns: set<Node>, g: Heap<Node>, e: Edit<Node>, n: Node, t: Tree, path: seq<Move>,
                                      spots: seq<Spot<Node>>, k: nat, f: Tree -> Tree)
    requires g.Keys == ns && e.h == Snap(ns + e.news) && Progress(g, e, n, t, path, spots, k, f)
    ensures Underway(ns, g, e, n, t, path, spots, k, f)
  {
  }

  /** The next place is a list of items. */
  method RewriteList(ghost ns: set<Node>, ghost g: Heap<Node>, ghost e: Edit<Node>, ghost n: Node, ghost t: Tree,
                     ghost path: seq<Move>, ghost spots: seq<Spot<Node>>, ghost k: nat, ghost f: Tree -> Tree,
                     list: Node, p: ItemPatch, r: Resolver)
    returns (ok: bool, ghost e': Edit<Node>)
    requires Underway(ns, g, e, n, t, path, spots, k, f) && k < |spots| && spots[k].node == list
        && spots[k].tree.kind == SequenceNode
    requires f(spots[k].tree) == spots[k].tree.(children := Map(spots[k].tree.children, Items(p, r)))
    modifies ns + e.news
    ensures ok <==> AllTranslatable(spots[k].tree.children, |spots[k].tree.children|, p, r)
    ensures ok ==> Underway(ns, g, e', n, t, path, spots, k + 1, f)
    ensures e.news <= e'.news && fresh(e'.news - e.news)
  {
    OwnDoc(ns, g, e, n, t, path, spots, k, f);
    ghost var part := Reach(g, list, spots[k].tree);
    hide Progress, Repr, Reach, Translatable, Doc, TreeShaped, Same, Snap, Map, Items;
    ghost var now;
    ok, now := ListPart(ns + e.news, part, list, spots[k].tree, p, r);
    e' := e;
    if ok {
      TakeIn(ns, g, e, n, t, path, spots, k, f, part, now);
      e' := TakenIn(ns, e, list, f(spots[k].tree), now - part);
    }
  }

  method ListPart(ghost all: set<Node>, ghost part: set<Node>, list: Node, ghost t: Tree, p: ItemPatch, r: Resolver)
    returns (ok: bool, ghost now: set<Node>)
    requires part <= all && Doc(part, list, t) && TreeShaped(Snap(part), list, t) && t.kind == SequenceNode
    modifies part
    ensures fresh(now - part)
    ensures ok <==> AllTranslatable(t.children, |t.children|, p, r)
    ensures ok ==>
              var t' := t.(children := Map(t.children, Items(p, r)));
              Doc(now, list, t') && TreeShaped(Snap(now), list, t')
    ensures Same(old(Snap(all)), Snap(all), all - part)
  {
    hide Translatable, Doc, TreeShaped, Map, Items;
    ok, now := RewriteItems(part, list, t, p, r);
  }

  /** The next place is rewritten as its kind demands. */
  method RewriteMatch(ghost ns: set<Node>, ghost g: Heap<Node>, ghost e: Edit<Node>, obj: Node, ghost t: Tree,
                      ghost path: seq<Move>, ghost spots: seq<Spot<Node>>, ghost k: nat, m: Node, p: ItemPatch,
                      r: Resolver)
    returns (ok: bool, ghost e': Edit<Node>)
    requires Underway(ns, g, e, obj, t, path, spots, k, Target(p, r)) && k < |spots| && spots[k].node == m
    modifies ns + e.news
    ensures ok <==> Rewritable(spots[k].tree, p, r)
    ensures ok ==> Underway(ns, g, e', obj, t, path, spots, k + 1, Target(p, r))
    ensures e.news <= e'.news && fresh(e'.news - e.news)
  {
    OwnDoc(ns, g, e, obj, t, path, spots, k, Target(p, r));
    ghost var kind := spots[k].tree.kind;
    assert m.kind == kind;
    Targets(spots[k].tree, p, r);
    hide Underway, Progress, Repr, Reach, Doc, TreeShaped, Translatable, Items, AllTranslatable, Target, Snap, Renamed,
         Map;
    match m.kind {
      case ScalarNode =>
        ok, e' := RewriteScalar(ns, g, e, obj, t, path, spots, k, m, p, r);
      case SequenceNode =>
        ok, e' := RewriteList(ns, g, e, obj, t, path, spots, k, Target(p, r), m, p, r);
      case MappingNode =>
        ok, e' := RewriteItem(ns, g, e, obj, t, path, spots, k, Target(p, r), m, p, r);
      case DocumentNode =>
        ok, e' := true, TakenIn(ns, e, m, Target(p, r)(spots[k].tree), {});
        Stay(ns, g, e, obj, t, path, spots, k, Target(p, r));
    }
  }

  lemma {:induction false} Targets(t: Tree, p: ItemPatch, r: Resolver)
    ensures match t.kind
      case ScalarNode => Target(p, r)(t) == if p.cond(t)
          && r.name(t.value, "").Some? then Scalar(r.name(t.value, "").value) else t
      case SequenceNode => Target(p, r)(t) == t.(children := Map(t.children, Items(p, r)))
      case MappingNode => Translatable(t, p, r) ==> Target(p, r)(t) == Item(t, p, r)
      case DocumentNode => Target(p, r)(t) == t
  {
  }

  /** The next place is a name. */
  method RewriteScalar(ghost ns: set<Node>, ghost g: Heap<Node>, ghost e: Edit<Node>, obj: Node, ghost t: Tree,
                       ghost path: seq<Move>, ghost spots: seq<Spot<Node>>, ghost k: nat, m: Node, p: ItemPatch,
                       r: Resolver)
    returns (ok: bool, ghost e': Edit<Node>)
    requires Underway(ns, g, e, obj, t, path, spots, k, Target(p, r)) && k < |spots| && spots[k].node == m
        && spots[k].tree.kind == ScalarNode
    modifies ns + e.news
    ensures ok <==> Rewritable(spots[k].tree, p, r)
    ensures ok ==> Underway(ns, g, e', obj, t, path, spots, k + 1, Target(p, r))
    ensures e.news <= e'.news && fresh(e'.news - e.news)
  {
    hide Underway, Progress, Repr, Reach, Doc, TreeShaped, Target, Snap, Renamed;
    OwnDoc(ns, g, e, obj, t, path, spots, k, Target(p, r));
    var tree := ReadTree(ns + e.news, m, spots[k].tree);
    Targets(tree, p, r);
    e', ok := e, true;
    if p.cond(tree) {
      var translated := r.name(tree.value, "");
      if translated.None? {
        return false, e;
      }
      e' := SwapScalar(ns, g, e, obj, t, path, spots, k, Target(p, r), m, translated.value);
    } else {
      Stay(ns, g, e, obj, t, path, spots, k, Target(p, r));
      e' := TakenIn(ns, e, m, Target(p, r)(tree), {});
    }
  }

  lemma {:induction false} BeginOpen(ns: set<Node>, n: Node, t: Tree, path: seq<Move>, f: Tree -> Tree,
                                     rank: map<Node, nat>, shared: set<Tree>)
    requires Doc(ns, n, t) && LaidDoc(Snap(ns), n, t, rank, shared) && Open(t, path, shared) && path != []
    ensures Underway(ns, Snap(ns), Begun(Snap(ns)), n, t, path, Spots(Snap(ns), n, t, path), 0, f)
    ensures Clear(t, path, shared)
  {
    ReachInHeap(Snap(ns), n, t);
    OpenClear(t, path, shared);
    OpenSole(Snap(ns), ns, rank, shared, n, t, path);
    Begin(ns, n, t, path, f);
  }

  lemma {:induction false} FinishLaid(ns: set<Node>, g: Heap<Node>, e: Edit<Node>, n: Node, t: Tree, path: seq<Move>,
                                      spots: seq<Spot<Node>>, f: Tree -> Tree, rank: map<Node, nat>, shared: set<Tree>)
    returns (rank': map<Node, nat>)
    requires Underway(ns, g, e, n, t, path, spots, |spots|, f)
    requires LaidDoc(g, n, t, rank, shared) && Clear(t, path, shared)
    ensures LaidDoc(Snap(ns + e.news), n, Rewrite(t, path, f), rank', shared)
  {
    rank' := ProgressLaid(g, e, n, t, path, spots, f, rank, shared);
  }

  /**
   Every place the path leads to is rewritten: a name, a list of items or an item. The first thing without a
   translation ends the work. Values held in several places may be beside the path, but not on it or in its places.
   */
  method RewriteName(ghost ns: set<Node>, obj: Node, ghost t: Tree, path: seq<Seg>, p: ItemPatch, r: Resolver,
                     ghost rank: map<Node, nat>, ghost shared: set<Tree>)
    returns (ok: bool, ghost ns': set<Node>, ghost rank': map<Node, nat>)
    requires Doc(ns, obj, t) && t.kind == DocumentNode
    requires LaidDoc(Snap(ns), obj, t, rank, shared) && Open(t, Moves(t.kind, path), shared)
    modifies ns
    ensures fresh(ns' - ns)
    ensures var found := Lookup(t, Moves(t.kind, path)); ok <==> AllRewritable(found, |found|, p, r)
    ensures ok ==>
              var t' := Rewrite(t, Moves(t.kind, path), Target(p, r));
              Doc(ns', obj, t') && LaidDoc(Snap(ns'), obj, t', rank', shared)
  {
    var moves := Moves(obj.kind, path);
    ghost var g, f := Snap(ns), Target(p, r);
    ghost var spots := Spots(g, obj, t, moves);
    SpotsLookup(g, obj, t, moves);
    BeginOpen(ns, obj, t, moves, f, rank, shared);
    var matches := FindMatches(ns, obj, t, moves);
    hide Underway, Repr, Reach, Doc, TreeShaped, Spots, Lookup, Rewrite, Rewritable, Target, Snap, LaidDoc, Clear, Open;
    ghost var e;
    ok, e := RewriteMatches(ns, g, obj, t, moves, spots, matches, p, r);
    ns', rank' := ns, rank;
    if ok {
      rank' := FinishLaid(ns, g, e, obj, t, moves, spots, f, rank, shared);
      ns' := LaidFootprint(ns + e.news, obj, Rewrite(t, moves, f), rank', shared);
    }
  }

  method RewriteMatches(ghost ns: set<Node>, ghost g: Heap<Node>, obj: Node, ghost t: Tree, ghost path: seq<Move>,
                        ghost spots: seq<Spot<Node>>, matches: seq<Node>, p: ItemPatch, r: Resolver)
    returns (ok: bool, ghost e: Edit<Node>)
    requires Underway(ns, g, Begun(g), obj, t, path, spots, 0, Target(p, r)) && NodesOf(matches, spots)
    modifies ns
    ensures fresh(e.news)
    ensures ok <==> AllRewritable(TreesOf(spots), |spots|, p, r)
    ensures ok ==> Underway(ns, g, e, obj, t, path, spots, |spots|, Target(p, r))
  {
    e := Begun(g);
    hide Underway, Rewritable, Target;
    for k := 0 to |matches|
      invariant Underway(ns, g, e, obj, t, path, spots, k, Target(p, r)) && fresh(e.news)
      invariant AllRewritable(TreesOf(spots), k, p, r)
    {
      ok, e := RewriteMatch(ns, g, e, obj, t, path, spots, k, matches[k], p, r);
      if !ok {
        assert TreesOf(spots)[k] == spots[k].tree;
        return;
      }
    }
    ok := true;
  }
}
