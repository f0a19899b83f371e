/** Rewriting the names and namespaces of items: objects that refer to another object. */
module ItemRewrites {
  import opened Strings
  import opened OpPath
  import opened Trees
  import opened TreeLaws
  import opened Graph
  import opened Nodes
  import opened Patches
  import opened Rewriting
  import opened Editing

  /** Where an item keeps its name and, if the patch says so, its namespace. */
  datatype ItemPatch = ItemPatch(namePath: seq<Seg>, namespacePath: Option<seq<Seg>>, cond: Tree -> bool)

  /** Translations of a name with a namespace, empty if there is none, and of a namespace. */
  datatype Resolver = Resolver(name: (string, string) -> Option<string>, namespaceRef: string -> Option<string>)

  /** The namespace an item names, empty if none; more than one is an error. */
  ghost function Namespace(t: Tree, p: ItemPatch): Option<string> {
    if p.namespacePath.None? then Some("")
    else
      var found := Lookup(t, Moves(t.kind, p.namespacePath.value));
      if |found| > 1 then None else if |found| == 1 then Some(found[0].value) else Some("")
  }

  ghost function NameIn(r: Resolver, namespace: string): string -> Option<string> {
    name => r.name(name, namespace)
  }

  /** The item with its names translated in the given namespace. */
  ghost function WithNames(t: Tree, p: ItemPatch, r: Resolver, namespace: string): Tree {
    Replaced(t, Moves(t.kind, p.namePath), Renamed(p.cond, NameIn(r, namespace)))
  }

  ghost function WithNamespace(t: Tree, p: ItemPatch, r: Resolver, namespace: string): Tree {
    if namespace == "" || p.namespacePath.None? then t
    else Replaced(t, Moves(t.kind, p.namespacePath.value), Renamed(p.cond, r.namespaceRef))
  }

  ghost function Item(t: Tree, p: ItemPatch, r: Resolver): Tree
    requires Namespace(t, p).Some?
  {
    var namespace := Namespace(t, p).value;
    WithNamespace(WithNames(t, p, r, namespace), p, r, namespace)
  }

  /** The namespace is readable and everything to be translated has a translation. */
  ghost predicate Translatable(t: Tree, p: ItemPatch, r: Resolver) {
    Namespace(t, p).Some? &&
    var namespace := Namespace(t, p).value;
    var named := WithNames(t, p, r, namespace);
    && AllTranslate(Lookup(t, Moves(t.kind, p.namePath)), p.cond, NameIn(r, namespace))
    && (namespace != "" && p.namespacePath.Some? ==>
          AllTranslate(Lookup(named, Moves(named.kind, p.namespacePath.value)), p.cond, r.namespaceRef))
  }

  /** The namespace that the matches of the namespace path give. */
  method GetNamespace(ghost ns: set<Node>, obj: Node, ghost t: Tree, p: ItemPatch) returns (r: Option<string>)
    requires Repr(Snap(ns), obj, t) && p.namespacePath.Some?
    ensures r == Namespace(t, p)
  {
    var moves := Moves(obj.kind, p.namespacePath.value);
    var matches := FindMatches(ns, obj, t, moves);
    ghost var spots := Spots(Snap(ns), obj, t, moves);
    SpotsLookup(Snap(ns), obj, t, moves);
    if |matches| > 1 {
      return None;
    }
    var namespace := "";
    for i := 0 to |matches|
      invariant i == 0 ==> namespace == ""
      invariant i == 1 ==> namespace == TreesOf(spots)[0].value
    {
      assert spots[i] in spots;
      SpotInReach(Snap(ns), obj, t, moves, spots[i]);
      namespace := matches[i].value;
    }
    return Some(namespace);
  }

  /** The names of an item are translated with the namespace it had, then the namespace itself. */
  method ProcessRewrite(ghost ns: set<Node>, obj: Node, ghost t: Tree, p: ItemPatch, r: Resolver)
    returns (ok: bool, ghost ns': set<Node>)
    requires Doc(ns, obj, t) && TreeShaped(Snap(ns), obj, t)
    modifies ns
    ensures fresh(ns' - ns)
    ensures ok <==> Translatable(t, p, r)
    ensures ok ==> Doc(ns', obj, Item(t, p, r)) && TreeShaped(Snap(ns'), obj, Item(t, p, r))
  {
    ns' := ns;
    var namespace := "";
    if p.namespacePath.Some? {
      var found := GetNamespace(ns, obj, t, p);
      if found.None? {
        return false, ns;
      }
      namespace := found.value;
    }
    var kind := obj.kind;
    ok, ns' := TranslateMatches(ns, obj, t, Moves(kind, p.namePath), p.cond, name => r.name(name, namespace));
    assert (name => r.name(name, namespace)) == NameIn(r, namespace);
    if ok && namespace != "" {
      ghost var named := WithNames(t, p, r, namespace);
      ok, ns' := TranslateMatches(ns', obj, named, Moves(obj.kind, p.namespacePath.value), p.cond, r.namespaceRef);
    }
  }

  /** Every name of the item is translated with the namespace the item had at first, and the namespace on its own. */
  lemma {:induction false} ItemFields(t: Tree, p: ItemPatch, r: Resolver, namespace: string)
    requires Namespace(t, p) == Some(namespace) && Moves(t.kind, p.namePath) != []
    requires p.namespacePath.Some? ==> Separate(t, Moves(t.kind, p.namePath), Moves(t.kind, p.namespacePath.value))
    ensures Lookup(Item(t, p, r), Moves(t.kind, p.namePath))
         == Map(Lookup(t, Moves(t.kind, p.namePath)), Renamed(p.cond, NameIn(r, namespace)))
    ensures namespace != "" ==>
              Lookup(Item(t, p, r), Moves(t.kind, p.namespacePath.value))
              == Map(Lookup(t, Moves(t.kind, p.namespacePath.value)), Renamed(p.cond, r.namespaceRef))
  {
    var names := Moves(t.kind, p.namePath);
    var rename := Renamed(p.cond, NameIn(r, namespace));
    RewriteFound(t, names, rename);
    if namespace != "" {
      var spaces := Moves(t.kind, p.namespacePath.value);
      var named := WithNames(t, p, r, namespace);
      RewriteApart(t, names, rename, spaces);
      RewriteFound(named, spaces, Renamed(p.cond, r.namespaceRef));
      RewriteSeparate(t, names, rename, spaces);
      SeparateBack(named, names, spaces);
      RewriteApart(named, spaces, Renamed(p.cond, r.namespaceRef), names);
    }
  }

  /** What neither path leads to, or below, stays as it is. */
  lemma {:induction false} ItemElsewhere(t: Tree, p: ItemPatch, r: Resolver, other: seq<Move>)
    requires Namespace(t, p).Some? && Separate(t, Moves(t.kind, p.namePath), other)
    requires p.namespacePath.Some? ==> Separate(t, Moves(t.kind, p.namespacePath.value), other)
    ensures Lookup(Item(t, p, r), other) == Lookup(t, other)
  {
    var namespace := Namespace(t, p).value;
    RewriteApart(t, Moves(t.kind, p.namePath), Renamed(p.cond, NameIn(r, namespace)), other);
    if namespace != "" {
      SeparateKept(t, Moves(t.kind, p.namePath), Renamed(p.cond, NameIn(r, namespace)),
          Moves(t.kind, p.namespacePath.value), other);
      RewriteApart(WithNames(t, p, r, namespace), Moves(t.kind, p.namespacePath.value),
          Renamed(p.cond, r.namespaceRef), other);
    }
  }

  // ----- items inside a larger document

  /** The heap is what the edits so far have made of it. */
  ghost predicate Underway(ns: set<Node>, g: Heap<Node>, e: Edit<Node>, n: Node, t: Tree, path: seq<Move>,
                           spots: seq<Spot<Node>>, k: nat, f: Tree -> Tree)
    reads ns + e.news
  {
    g.Keys == ns && e.h == Snap(ns + e.news) && Progress(g, e, n, t, path, spots, k, f)
  }

  /** The next place is an unshared document of its own. */
  lemma {:induction false} OwnDoc(ns: set<Node>, g: Heap<Node>, e: Edit<Node>, n: Node, t: Tree, path: seq<Move>,
                                  spots: seq<Spot<Node>>, k: nat, f: Tree -> Tree)
    requires Underway(ns, g, e, n, t, path, spots, k, f) && k < |spots|
    ensures e.h == Snap(ns + e.news) && Repr(g, spots[k].node, spots[k].tree)
    ensures var part := Reach(g, spots[k].node, spots[k].tree);
      part <= ns && Doc(part, spots[k].node, spots[k].tree) && TreeShaped(Snap(part), spots[k].node, spots[k].tree)
      && Repr(e.h, spots[k].node, spots[k].tree) && Reach(e.h, spots[k].node, spots[k].tree) == part
      && TreeShaped(e.h, spots[k].node, spots[k].tree)
  {
    var s := spots[k];
    SettingSpots(g, n, t, path, spots, k, k);
    SpotShaped(g, n, t, path, s);
    assert SpotPending(g, e.h, s);
    var part := Reach(g, s.node, s.tree);
    ReprFrame(g, e.h, s.node, s.tree);
    ReprFrame(g, Snap(part), s.node, s.tree);
  }

  /** The edits with one more, made inside the place and with new nodes. */
  ghost function TakenIn(ns: set<Node>, e: Edit<Node>, m: Node, s: Tree, more: set<Node>): Edit<Node>
    reads ns + e.news + more
  {
    Edit(Snap(ns + e.news + more), e.ov, e.tr[m := s], e.news + more)
  }

  lemma {:induction false} TakeIn(ns: set<Node>, g: Heap<Node>, e: Edit<Node>, n: Node, t: Tree, path: seq<Move>,
                                  spots: seq<Spot<Node>>, k: nat, f: Tree -> Tree, part: set<Node>, now: set<Node>)
    requires Progress(g, e, n, t, path, spots, k, f) && k < |spots| && g.Keys == ns
    requires Repr(g, spots[k].node, spots[k].tree) && part == Reach(g, spots[k].node, spots[k].tree)
    requires Doc(now, spots[k].node, f(spots[k].tree)) && TreeShaped(Snap(now), spots[k].node, f(spots[k].tree))
    requires (now - part) !! e.h.Keys && Same(e.h, Snap(ns + e.news), e.h.Keys - part)
    ensures Underway(ns, g, TakenIn(ns, e, spots[k].node, f(spots[k].tree), now - part), n, t, path, spots, k + 1, f)
  {
    var m, s := spots[k].node, f(spots[k].tree);
    SettingSpots(g, n, t, path, spots, k, k);
    var more := now - part;
    NowPart(ns + e.news + more, now, m, s, part, more);
    hide Progress, Repr, Reach, TreeShaped, Doc, PartOf;
    StepInPlace(g, e, n, t, path, spots, k, f, Snap(ns + e.news + more), more);
  }

  lemma {:induction false} NowPart(all: set<Node>, now: set<Node>, m: Node, s: Tree, part: set<Node>, more: set<Node>)
    requires Doc(now, m, s) && TreeShaped(Snap(now), m, s) && now <= all && now <= part + more
    ensures PartOf(Snap(all), m, s, part + more)
  {
    ReprFrame(Snap(now), Snap(all), m, s);
  }

  /** The next place is an item to be rewritten. */
  method RewriteItem(ghost ns: set<Node>, ghost g: Heap<Node>, ghost e: Edit<Node>, ghost n: Node, ghost t: Tree,
                     ghost path: seq<Move>, ghost spots: seq<Spot<Node>>, ghost k: nat, ghost f: Tree -> Tree,
                     item: Node, p: ItemPatch, r: Resolver)
    returns (ok: bool, ghost e': Edit<Node>)
    requires Underway(ns, g, e, n, t, path, spots, k, f) && k < |spots| && spots[k].node == item
    requires Translatable(spots[k].tree, p, r) ==> f(spots[k].tree) == Item(spots[k].tree, p, r)
    modifies ns + e.news
    ensures ok <==> Translatable(spots[k].tree, p, r)
    ensures ok ==> Underway(ns, g, e', n, t, path, spots, k + 1, f)
    ensures e.news <= e'.news && fresh(e'.news - e.news)
  {
    OwnDoc(ns, g, e, n, t, path, spots, k, f);
    ghost var part := Reach(g, item, spots[k].tree);
    hide Progress, Repr, Reach, Item, Translatable, Doc, TreeShaped, Same, Snap;
    ghost var now;
    ok, now := ProcessPart(ns + e.news, part, item, spots[k].tree, p, r);
    e' := e;
    if ok {
      TakeIn(ns, g, e, n, t, path, spots, k, f, part, now);
      e' := TakenIn(ns, e, item, f(spots[k].tree), now - part);
    }
  }

  /** An item that is part of a larger heap is rewritten, and nothing else. */
  method ProcessPart(ghost all: set<Node>, ghost part: set<Node>, item: Node, ghost t: Tree, p: ItemPatch, r: Resolver)
    returns (ok: bool, ghost now: set<Node>)
    requires part <= all && Doc(part, item, t) && TreeShaped(Snap(part), item, t)
    modifies part
    ensures fresh(now - part)
    ensures ok <==> Translatable(t, p, r)
    ensures ok ==> Doc(now, item, Item(t, p, r)) && TreeShaped(Snap(now), item, Item(t, p, r))
    ensures Same(old(Snap(all)), Snap(all), all - part)
  {
    hide Item, Translatable, Doc, TreeShaped;
    ok, now := ProcessRewrite(part, item, t, p, r);
  }

  /** What becomes of the items of a list. */
  ghost function Items(p: ItemPatch, r: Resolver): Tree -> Tree {
    (t: Tree) => if Translatable(t, p, r) then Item(t, p, r) else t
  }

  const ELEMENTS: seq<Move> := [Go(Every)]

  lemma {:induction false} ElementSpots(g: Heap<Node>, n: Node, t: Tree, i: nat)
    requires Repr(g, n, t) && t.kind == SequenceNode && i <= |t.children|
    ensures var spots := SpotsFrom(g, n, t, ELEMENTS, i);
      && |spots| == |t.children| - i
      && forall j :: 0 <= j < |spots| ==> spots[j] == Spot(g[n].content[i + j], t.children[i + j])
    decreases |t.children| - i
  {
    if i < |t.children| {
      ElementSpots(g, n, t, i + 1);
      assert ELEMENTS[1..] == [];
    }
  }

  lemma {:induction false} ListSpots(ns: set<Node>, list: Node, t: Tree)
    requires Repr(Snap(ns), list, t) && t.kind == SequenceNode
    ensures var spots := Spots(Snap(ns), list, t, ELEMENTS);
      && |spots| == |t.children| == |list.content| && ELEMENTS != []
      && forall j :: 0 <= j < |spots| ==> spots[j] == Spot(list.content[j], t.children[j])
  {
    ElementSpots(Snap(ns), list, t, 0);
  }

  lemma {:induction false} RewriteElements(t: Tree, f: Tree -> Tree)
    requires t.kind == SequenceNode
    ensures Rewrite(t, ELEMENTS, f) == t.(children := Map(t.children, f))
  {
    assert ELEMENTS[1..] == [];
    assert Rewrite(t, ELEMENTS, f).children == Map(t.children, f);
  }

  ghost function Begun(g: Heap<Node>): Edit<Node> {
    Edit(g, map[], map[], {})
  }

  lemma {:induction false} BeginHeap(g: Heap<Node>, n: Node, t: Tree, path: seq<Move>, spots: seq<Spot<Node>>,
                                     f: Tree -> Tree)
    requires Setting(g, n, t, path, spots)
    ensures Progress(g, Begun(g), n, t, path, spots, 0, f)
  {
    assert Begun(g).tr.Keys == {};
    forall x | x in Visible(g, n, t, {})
      ensures VisibleAsNow(g, g, map[], x)
    {
      VisibleInReach(g, n, t, {});
      assert Replacing.SubContent(g[x].content, map[]) == g[x].content;
    }
    forall j | 0 <= j < |spots|
      ensures SpotPending(g, g, spots[j])
    {
      SpotInReach(g, n, t, path, spots[j]);
    }
  }

  lemma {:induction false} Begin(ns: set<Node>, n: Node, t: Tree, path: seq<Move>, f: Tree -> Tree)
    requires Doc(ns, n, t) && Sole(Snap(ns), n, t, path) && path != []
    ensures Underway(ns, Snap(ns), Begun(Snap(ns)), n, t, path, Spots(Snap(ns), n, t, path), 0, f)
  {
    var g := Snap(ns);
    assert ns + Begun(g).news == ns;
    BeginHeap(g, n, t, path, Spots(g, n, t, path), f);
  }

  lemma {:induction false} Finish(ns: set<Node>, g: Heap<Node>, e: Edit<Node>, n: Node, t: Tree, path: seq<Move>,
                                  spots: seq<Spot<Node>>, f: Tree -> Tree)
    requires Underway(ns, g, e, n, t, path, spots, |spots|, f)
    ensures Repr(g, n, t) && Repr(Snap(ns + e.news), n, Rewrite(t, path, f))
    ensures TreeShaped(g, n, t) ==> TreeShaped(Snap(ns + e.news), n, Rewrite(t, path, f))
  {
    ProgressDone(g, e, n, t, path, spots, f);
  }

  ghost predicate AllTranslatable(items: seq<Tree>, k: nat, p: ItemPatch, r: Resolver)
    requires k <= |items|
  {
    forall j :: 0 <= j < k ==> Translatable(items[j], p, r)
  }

  /** Every item of a list is rewritten, in order; the first that cannot be ends the work. */
  method RewriteItems(ghost ns: set<Node>, list: Node, ghost t: Tree, p: ItemPatch, r: Resolver)
    returns (ok: bool, ghost ns': set<Node>)
    requires Doc(ns, list, t) && TreeShaped(Snap(ns), list, t) && t.kind == SequenceNode
    modifies ns
    ensures fresh(ns' - ns)
    ensures ok <==> AllTranslatable(t.children, |t.children|, p, r)
    ensures ok ==>
              var t' := t.(children := Map(t.children, Items(p, r)));
              Doc(ns', list, t') && TreeShaped(Snap(ns'), list, t')
  {
    ghost var g, f := Snap(ns), Items(p, r);
    ghost var spots := Spots(g, list, t, ELEMENTS);
    BeginList(ns, list, t, p, r);
    hide Underway, Repr, Reach, Doc, TreeShaped, Spots, Translatable, Item, Rewrite, Snap, Map, Items;
    ghost var e;
    ok, e := RewriteAll(ns, g, list, t, ELEMENTS, spots, f, list.content, p, r);
    ns' := ns;
    if ok {
      FinishList(ns, g, e, list, t, spots, f);
      ns' := Footprint(ns + e.news, list, t.(children := Map(t.children, f)));
    }
  }

  lemma {:induction false} BeginList(ns: set<Node>, list: Node, t: Tree, p: ItemPatch, r: Resolver)
    requires Doc(ns, list, t) && TreeShaped(Snap(ns), list, t) && t.kind == SequenceNode
    ensures var g, spots := Snap(ns), Spots(Snap(ns), list, t, ELEMENTS);
      && Underway(ns, g, Begun(g), list, t, ELEMENTS, spots, 0, Items(p, r))
      && NodesOf(list.content, spots) && TreesOf(spots) == t.children
  {
    ListSpots(ns, list, t);
    TreeSole(Snap(ns), list, t, ELEMENTS);
    hide Underway, Doc, TreeShaped, Spots, Items, Sole;
    Begin(ns, list, t, ELEMENTS, Items(p, r));
  }

  lemma {:induction false} FinishList(ns: set<Node>, g: Heap<Node>, e: Edit<Node>, list: Node, t: Tree,
                                      spots: seq<Spot<Node>>, f: Tree -> Tree)
    requires Underway(ns, g, e, list, t, ELEMENTS, spots, |spots|, f) && t.kind == SequenceNode
    requires Repr(g, list, t) && TreeShaped(g, list, t)
    ensures var t' := t.(children := Map(t.children, f));
      Repr(Snap(ns + e.news), list, t') && TreeShaped(Snap(ns + e.news), list, t')
  {
    Finish(ns, g, e, list, t, ELEMENTS, spots, f);
    RewriteElements(t, f);
  }

  /** Every place is rewritten as an item. */
  method RewriteAll(ghost ns: set<Node>, ghost g: Heap<Node>, ghost n: Node, ghost t: Tree, ghost path: seq<Move>,
                    ghost spots: seq<Spot<Node>>, ghost f: Tree -> Tree, items: seq<Node>, p: ItemPatch, r: Resolver)
    returns (ok: bool, ghost e: Edit<Node>)
    requires Underway(ns, g, Begun(g), n, t, path, spots, 0, f) && NodesOf(items, spots) && f == Items(p, r)
    modifies ns
    ensures fresh(e.news)
    ensures ok <==> AllTranslatable(TreesOf(spots), |spots|, p, r)
    ensures ok ==> Underway(ns, g, e, n, t, path, spots, |spots|, f)
  {
    e := Begun(g);
    hide Underway, Translatable, Item;
    for k := 0 to |items|
      invariant Underway(ns, g, e, n, t, path, spots, k, f) && fresh(e.news)
      invariant AllTranslatable(TreesOf(spots), k, p, r)
    {
      ok, e := RewriteItem(ns, g, e, n, t, path, spots, k, f, items[k], p, r);
      if !ok {
        assert TreesOf(spots)[k] == spots[k].tree;
        return;
      }
    }
    ok := true;
  }
}
