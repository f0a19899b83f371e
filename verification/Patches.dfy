/** Patches that edit the places a path leads to. */
module Patches {
  import opened Strings
  import opened OpPath
  import opened Trees
  import opened Graph
  import opened Replacing
  import opened Removing
  import opened Holders
  import opened Nodes
  import opened Removals
  import opened Placing
  import opened Layouts
  import opened SharedRemoving
  import opened SharedDocuments

  // ----- footprints

  /** Whatever else changes, a document keeps its tree while its own nodes stay as they are. */
  lemma {:induction false} WiderView(g: Heap<Node>, wide: Heap<Node>, n: Node, t: Tree, path: seq<Move>)
    requires Repr(g, n, t) && Lone(g, n, t, path) && Same(g, wide, Reach(g, n, t))
    ensures Repr(wide, n, t) && Reach(wide, n, t) == Reach(g, n, t) && Lone(wide, n, t, path)
    ensures Spots(wide, n, t, path) == Spots(g, n, t, path)
    ensures TreeShaped(g, n, t) ==> TreeShaped(wide, n, t)
  {
    ReprFrame(g, wide, n, t);
    LoneFrame(g, wide, n, t, path);
    SpotsFrame(g, wide, n, t, path);
  }

  lemma {:induction false} WiderDoc(ns: set<Node>, all: set<Node>, root: Node, t: Tree, path: seq<Move>)
    requires Doc(ns, root, t) && ns <= all && Lone(Snap(ns), root, t, path)
    ensures Repr(Snap(all), root, t) && Reach(Snap(all), root, t) == ns && Lone(Snap(all), root, t, path)
    ensures Spots(Snap(all), root, t, path) == Spots(Snap(ns), root, t, path)
    ensures TreeShaped(Snap(ns), root, t) ==> TreeShaped(Snap(all), root, t)
  {
    WiderView(Snap(ns), Snap(all), root, t, path);
  }

  /** The nodes that make up a document, among others. */
  ghost method Footprint(all: set<Node>, root: Node, t: Tree) returns (ns: set<Node>)
    requires Repr(Snap(all), root, t)
    ensures ns == Reach(Snap(all), root, t) && ns <= all && Doc(ns, root, t)
    ensures TreeShaped(Snap(all), root, t) ==> TreeShaped(Snap(ns), root, t)
  {
    ns := Reach(Snap(all), root, t);
    ReachInHeap(Snap(all), root, t);
    ReprFrame(Snap(all), Snap(ns), root, t);
  }

  /** The nodes that make up a document laid out among others. */
  ghost method LaidFootprint(all: set<Node>, root: Node, t: Tree, rank: map<Node, nat>, shared: set<Tree>)
    returns (ns: set<Node>)
    requires LaidDoc(Snap(all), root, t, rank, shared)
    ensures ns <= all && Doc(ns, root, t) && LaidDoc(Snap(ns), root, t, rank, shared)
  {
    ns := Footprint(all, root, t);
    LaidFrame(Snap(all), Snap(ns), root, t, rank, shared);
  }

  // ----- replacing

  /** What the places that meet the condition become. */
  ghost function Given(cond: Tree -> bool, v: Tree): Tree -> Tree {
    s => if cond(s) then v else s
  }

  /** A document whose root is the only place has no parent to hold the value. */
  ghost function Replaced(t: Tree, path: seq<Move>, f: Tree -> Tree): Tree {
    if path == [] then t else Rewrite(t, path, f)
  }

  /** The replacements made so far are sound and those still to make can be made. */
  ghost predicate Ready<T>(g: Heap<T>, ov: map<T, T>, tr: map<T, Tree>, n: T, t: Tree, path: seq<Move>) {
    && Repr(g, n, t) && Lone(g, n, t, path) && path != []
    && GoodReplacements(g, ov, tr) && OnSpots(g, n, t, path, ov.Keys)
    && ov.Values !! Reach(g, n, t) && Apart(g, Reach(g, n, t))
  }

  lemma {:induction false} ReadyFor(g: Heap<Node>, ov: map<Node, Node>, tr: map<Node, Tree>, n: Node, t: Tree,
                                    path: seq<Move>, s: Spot<Node>)
    requires Ready(g, ov, tr, n, t, path) && s in Spots(g, n, t, path) && s.node !in ov
    ensures n !in ov && Repr(Sub(g, ov), n, Over(g, n, t, tr)) && Repr(Sub(g, ov), s.node, s.tree)
    ensures !Nowhere(Sub(g, ov), n, Over(g, n, t, tr), s.node)
  {
    var p := StillThere(g, ov, tr, n, t, path, s);
    StillSame(g, ov, n, t, path, s);
  }

  lemma {:induction false} InValues<T, U>(m: map<T, U>, x: T)
    ensures x in m ==> m[x] in m.Values
  {
  }

  lemma {:induction false} ReplaceNext(g: Heap<Node>, ov: map<Node, Node>, tr: map<Node, Tree>, n: Node, t: Tree,
                                       path: seq<Move>, s: Spot<Node>, p: Node, k: nat, w: Node)
    requires Ready(g, ov, tr, n, t, path) && s in Spots(g, n, t, path) && s.node !in ov
    requires p in Sub(g, ov) && First(Sub(g, ov)[p].content, k, s.node)
    ensures WithContent(Sub(g, ov), p, Spliced(Sub(g, ov)[p].content, k, [w])) == Sub(g, ov[s.node := w])
  {
    SpotInReach(g, n, t, path, s);
    InValues(ov, g[p].content[k]);
    OnlyOneHolds(g, n, t, path, s, p, k);
    SubStep(g, ov, s.node, p, k, w);
  }

  /** A document and a value outside of it. */
  ghost predicate ValueApart(g: Heap<Node>, n: Node, t: Tree, path: seq<Move>, w: Node, wt: Tree) {
    && Repr(g, n, t) && Lone(g, n, t, path) && Repr(g, w, wt)
    && Reach(g, w, wt) !! Reach(g, n, t) && g.Keys == Reach(g, n, t) + Reach(g, w, wt)
  }

  lemma {:induction false} OneValueReady(g: Heap<Node>, n: Node, t: Tree, path: seq<Move>, cond: Tree -> bool, k: nat,
                                         w: Node, wt: Tree)
    requires ValueApart(g, n, t, path, w, wt) && path != [] && k <= |Spots(g, n, t, path)|
    ensures var spots := Spots(g, n, t, path);
      var done := Chosen(spots, cond, k);
      && Ready(g, All(done, w), All(done, wt), n, t, path)
      && (k < |spots| ==> spots[k] in spots && spots[k].node !in All(done, w))
  {
    var done := Chosen(Spots(g, n, t, path), cond, k);
    ChosenOnSpots(g, n, t, path, cond, k);
    forall m | m in done
      ensures GoodReplacement(g, All(done, w), w, wt)
    {
    }
    forall p, i | p in g && p !in Reach(g, n, t) && 0 <= i < |g[p].content|
      ensures g[p].content[i] !in Reach(g, n, t)
    {
      PointsWithin(g, w, wt, p, i);
    }
    assert w in Reach(g, w, wt);
  }

  lemma {:induction false} OneValueNext(spots: seq<Spot<Node>>, cond: Tree -> bool, k: nat, w: Node)
    requires k < |spots|
    ensures All(Chosen(spots, cond, k + 1), w)
         == if cond(spots[k].tree) then All(Chosen(spots, cond, k), w)[spots[k].node := w]
             else All(Chosen(spots, cond, k), w)
  {
    ChosenNext(spots, cond, k);
  }

  lemma {:induction false} OneValueDone(g: Heap<Node>, n: Node, t: Tree, path: seq<Move>, cond: Tree -> bool, w: Node,
                                        wt: Tree)
    requires ValueApart(g, n, t, path, w, wt) && path != []
    ensures var spots := Spots(g, n, t, path);
      var h := Sub(g, All(Chosen(spots, cond, |spots|), w));
      && Repr(h, n, Rewrite(t, path, Given(cond, wt)))
      && (TreeShaped(g, n, t) && TreeShaped(g, w, wt) && |Lookup(t, path)| <= 1 ==>
            TreeShaped(h, n, Rewrite(t, path, Given(cond, wt))))
  {
    var spots := Spots(g, n, t, path);
    var done := Chosen(spots, cond, |spots|);
    var ov, tr := All(done, w), All(done, wt);
    OneValueReady(g, n, t, path, cond, |spots|, w, wt);
    OnSpotsRoot(g, n, t, path, ov.Keys);
    SpotsDistinct(g, n, t, path);
    forall s | s in spots
      ensures SpotDone(s, Given(cond, wt), tr)
    {
      ChosenAll(spots, cond, s);
    }
    if TreeShaped(g, n, t) && TreeShaped(g, w, wt) && |Lookup(t, path)| <= 1 {
      OneValueFresh(g, n, t, path, cond, w, wt);
    }
    hide Repr, Reach, Lone, TreeShaped, Spots, Chosen, Sub;
    SubRepr(g, ov, tr, n, t);
    OverIsRewrite(g, n, t, path, Given(cond, wt), tr);
    if TreeShaped(g, n, t) && TreeShaped(g, w, wt) && |Lookup(t, path)| <= 1 {
      SubShaped(g, ov, tr, n, t, Reach(g, n, t));
    }
  }

  lemma {:induction false} OneValueFresh(g: Heap<Node>, n: Node, t: Tree, path: seq<Move>, cond: Tree -> bool, w: Node,
                                         wt: Tree)
    requires ValueApart(g, n, t, path, w, wt) && TreeShaped(g, w, wt) && |Lookup(t, path)| <= 1
    ensures var spots := Spots(g, n, t, path);
      var done := Chosen(spots, cond, |spots|);
      GoodReplacements(g, All(done, w), All(done, wt)) ==>
          FreshReplacements(g, All(done, w), All(done, wt), Reach(g, n, t))
  {
    SpotsLookup(g, n, t, path);
    var spots := Spots(g, n, t, path);
    var done := Chosen(spots, cond, |spots|);
    assert |spots| <= 1;
    hide Spots, Lookup, TreesOf, GoodReplacements;
    assert forall m, o :: m in done && o in done ==> m == o;
    hide Repr, Reach, TreeShaped, Lone, Chosen, SeparateTrees;
    forall m | m in done
      ensures Fresh(g, All(done, w), w, wt, Reach(g, n, t))
    {
    }
  }

  lemma {:induction false} SubNothing(g: Heap<Node>, spots: seq<Spot<Node>>, cond: Tree -> bool, w: Node)
    ensures Sub(g, All(Chosen(spots, cond, 0), w)) == g
  {
    forall n | n in g
      ensures SubContent(g[n].content, All(Chosen(spots, cond, 0), w)) == g[n].content
    {
    }
  }

  lemma {:induction false} ApartDocs(ns: set<Node>, vs: set<Node>, n: Node, t: Tree, path: seq<Move>, w: Node, wt: Tree)
    requires Doc(ns, n, t) && Lone(Snap(ns), n, t, path) && Doc(vs, w, wt) && ns !! vs
    ensures ValueApart(Snap(ns + vs), n, t, path, w, wt)
    ensures TreeShaped(Snap(ns), n, t) ==> TreeShaped(Snap(ns + vs), n, t)
    ensures TreeShaped(Snap(vs), w, wt) ==> TreeShaped(Snap(ns + vs), w, wt)
  {
    WiderDoc(ns, ns + vs, n, t, path);
    ReprFrame(Snap(vs), Snap(ns + vs), w, wt);
  }

  /** A value put in several places is shared, but at one depth, and never as a key. */
  lemma {:induction false} OneValueEven(g: Heap<Node>, n: Node, t: Tree, path: seq<Move>, cond: Tree -> bool, w: Node,
                                        wt: Tree)
    requires ValueApart(g, n, t, path, w, wt) && path != []
    ensures var h := Sub(g, All(Chosen(Spots(g, n, t, path), cond, |Spots(g, n, t, path)|), w));
      var u := Rewrite(t, path, Given(cond, wt));
      Repr(h, n, u) && (TreeShaped(g, n, t) && TreeShaped(g, w, wt) ==> exists rank :: Even(h, Reach(h, n, u), rank))
  {
    var spots := Spots(g, n, t, path);
    OneValueDone(g, n, t, path, cond, w, wt);
    if TreeShaped(g, n, t) && TreeShaped(g, w, wt) {
      ChosenOnSpots(g, n, t, path, cond, |spots|);
      hide Rewrite, Even, Sub, Chosen;
      ReplacedEven(g, n, t, path, Chosen(spots, cond, |spots|), w, wt, Rewrite(t, path, Given(cond, wt)));
    }
  }

  lemma {:induction false} EvenFrame(ns: set<Node>, all: set<Node>)
    requires ns <= all
    ensures (exists rank :: Even(Snap(all), ns, rank)) ==> exists rank :: Even(Snap(ns), ns, rank)
  {
    if rank :| Even(Snap(all), ns, rank) {
      assert Even(Snap(ns), ns, rank);
    }
  }

  // ----- all replacements of a patch

  /** One more place gives way to the content of the value. */
  method ReplaceSpot(ghost all: set<Node>, ghost g: Heap<Node>, ghost ov: map<Node, Node>, ghost tr: map<Node, Tree>,
                     obj: Node, ghost t: Tree, ghost path: seq<Move>, ghost s: Spot<Node>, child: Node, value: Node)
    requires Ready(g, ov, tr, obj, t, path) && Snap(all) == Sub(g, ov)
    requires s in Spots(g, obj, t, path) && s.node !in ov && s.node == child && |value.content| == 1
    modifies all
    ensures Snap(all) == Sub(g, ov[child := old(value.content[0])])
  {
    assert Repr(g, obj, t);
    hide Sub, Over, Lone, Repr, Reach, Spots, Snap, Spliced, WithContent, Ready, Nowhere, First;
    ReadyFor(g, ov, tr, obj, t, path, s);
    ghost var w := value.content[0];
    assert value.content == [w];
    ghost var at := ReplaceNode(all, obj, Over(g, obj, t, tr), child, value);
    ReplaceNext(g, ov, tr, obj, t, path, s, at.value.0, at.value.1, w);
  }

  /** What the loop over the places knows before it looks at the next one. */
  lemma {:induction false} OneValueStep(g: Heap<Node>, n: Node, t: Tree, path: seq<Move>, cond: Tree -> bool, k: nat,
                                        w: Node, wt: Tree)
    requires ValueApart(g, n, t, path, w, wt) && path != [] && k < |Spots(g, n, t, path)|
    ensures var spots := Spots(g, n, t, path);
      var ov, s := All(Chosen(spots, cond, k), w), spots[k];
      && Ready(g, ov, All(Chosen(spots, cond, k), wt), n, t, path)
      && s in spots && s.node !in ov && Repr(Sub(g, ov), s.node, s.tree)
      && All(Chosen(spots, cond, k + 1), w) == if cond(s.tree) then ov[s.node := w] else ov
  {
    var spots := Spots(g, n, t, path);
    OneValueReady(g, n, t, path, cond, k, w, wt);
    ReadyFor(g, All(Chosen(spots, cond, k), w), All(Chosen(spots, cond, k), wt), n, t, path, spots[k]);
    OneValueNext(spots, cond, k, w);
  }

  lemma {:induction false} PutOne(g: Heap<Node>, ov: map<Node, Node>, tr: map<Node, Tree>, n: Node, t: Tree,
                                  path: seq<Move>, s: Spot<Node>, w: Node)
    requires Ready(g, ov, tr, n, t, path) && s in Spots(g, n, t, path) && s.node !in ov
    ensures Stands(Sub(g, ov), n) && PutIn(Sub(g, ov), n, s.node, w) == Sub(g, ov[s.node := w])
  {
    assert Repr(g, n, t);
    hide Sub, Over, Lone, Repr, Reach, Spots, Spliced, WithContent, Ready, Nowhere, First;
    ReadyFor(g, ov, tr, n, t, path, s);
    var now, u := Sub(g, ov), Over(g, n, t, tr);
    StandsFor(now, n, u);
    HolderMeaning(now, n, u, s.node);
    var p := Holder(now, n, u, s.node).value;
    FirstIsFirst(now[p].content, s.node);
    ReplaceNext(g, ov, tr, n, t, path, s, p, FirstAt(now[p].content, s.node), w);
  }

  /** Replacing one after the other is replacing all at once. */
  lemma {:induction false} LonePlaced(g: Heap<Node>, n: Node, t: Tree, path: seq<Move>, cond: Tree -> bool, k: nat,
                                      w: Node, wt: Tree)
    requires ValueApart(g, n, t, path, w, wt) && path != [] && k <= |Spots(g, n, t, path)|
    requires var spots := Spots(g, n, t, path);
      var now, rest := Sub(g, All(Chosen(spots, cond, k), w)), NodesAt(spots)[k..];
      Stands(now, n) && AllStand(now, rest) && Foreign(now, w, rest)
    ensures var spots := Spots(g, n, t, path);
      PutFrom(Sub(g, All(Chosen(spots, cond, k), w)), n, NodesAt(spots)[k..], cond, w)
      == Sub(g, All(Chosen(spots, cond, |spots|), w))
    decreases |Spots(g, n, t, path)| - k
  {
    var spots := Spots(g, n, t, path);
    var nodes, ov := NodesAt(spots), All(Chosen(spots, cond, k), w);
    if k < |spots| {
      assert nodes[k] == spots[k].node;
      hide Chosen, Sub, Spots, AllStand, PutIn, Lone, All, NodesAt, Foreign, Ready, PutFrom, ValueApart;
      OneValueStep(g, n, t, path, cond, k, w, wt);
      PutStep(Sub(g, ov), n, nodes, k, cond, w);
      StandsFor(Sub(g, ov), spots[k].node, spots[k].tree);
      if cond(spots[k].tree) {
        PutOne(g, ov, All(Chosen(spots, cond, k), wt), n, t, path, spots[k], w);
      }
      LonePlaced(g, n, t, path, cond, k + 1, w, wt);
    } else {
      assert nodes[k..] == [];
    }
  }

  /** The root of a document is held by none of its nodes. */
  lemma {:induction false} RootPlaced(g: Heap<Node>, n: Node, t: Tree, cond: Tree -> bool, w: Node, wt: Tree)
    requires Beside(g, n, t, w, wt) && Lone(g, n, t, [])
    ensures Placement(g, n, t, [], cond, w, wt) == g
  {
    SpotsForeign(g, n, t, [], w, wt);
    ReachInHeap(g, n, t);
    var nodes := NodesAt(Spots(g, n, t, []));
    assert nodes == [n] && nodes[1..] == [];
    StandsFor(g, n, t);
    HolderMeaning(g, n, t, n);
    hide Repr, Reach, Lone;
    assert PutIn(g, n, n, w) == g;
    assert PutFrom(g, n, [], cond, w) == g;
  }

  /** Without sharing every place that meets the condition becomes the value, which the places then share. */
  lemma {:induction false} LonePlacement(g: Heap<Node>, n: Node, t: Tree, path: seq<Move>, cond: Tree -> bool, w: Node,
                                         wt: Tree)
    requires ValueApart(g, n, t, path, w, wt)
    ensures Beside(g, n, t, w, wt)
    ensures var h, u := Placement(g, n, t, path, cond, w, wt), Replaced(t, path, Given(cond, wt));
      && Repr(h, n, u)
      && (TreeShaped(g, n, t) && TreeShaped(g, w, wt) ==>
            && (|Lookup(t, path)| <= 1 ==> TreeShaped(h, n, u))
            && exists rank :: Even(h, Reach(h, n, u), rank))
  {
    if path == [] {
      RootPlaced(g, n, t, cond, w, wt);
      if TreeShaped(g, n, t) {
        TreeEven(g, n, t);
      }
    } else {
      SpotsForeign(g, n, t, path, w, wt);
      SubNothing(g, Spots(g, n, t, path), cond, w);
      var nodes := NodesAt(Spots(g, n, t, path));
      assert nodes[0..] == nodes;
      hide Chosen, Sub, Spots, Lone, All, NodesAt, Foreign, PutFrom, Rewrite, Even, Lookup, TreeShaped, Repr, Reach;
      LonePlaced(g, n, t, path, cond, 0, w, wt);
      OneValueDone(g, n, t, path, cond, w, wt);
      OneValueEven(g, n, t, path, cond, w, wt);
    }
  }

  /** A document and a value made of other nodes. */
  lemma {:induction false} BesideDocs(ns: set<Node>, vs: set<Node>, n: Node, t: Tree, path: seq<Move>, w: Node,
                                      wt: Tree)
    requires Doc(ns, n, t) && Doc(vs, w, wt) && ns !! vs
    ensures Beside(Snap(ns + vs), n, t, w, wt)
    ensures Lone(Snap(ns), n, t, path) ==> ValueApart(Snap(ns + vs), n, t, path, w, wt)
    ensures Lone(Snap(ns), n, t, path) && TreeShaped(Snap(ns), n, t) ==> TreeShaped(Snap(ns + vs), n, t)
    ensures Lone(Snap(ns), n, t, path) && TreeShaped(Snap(vs), w, wt) ==> TreeShaped(Snap(ns + vs), w, wt)
  {
    ReprFrame(Snap(ns), Snap(ns + vs), n, t);
    ReprFrame(Snap(vs), Snap(ns + vs), w, wt);
    if Lone(Snap(ns), n, t, path) {
      ApartDocs(ns, vs, n, t, path, w, wt);
    }
  }

  /** The first entry of the first holder gives way to the content of the value, if any node holds the child. */
  method PutNode(ghost all: set<Node>, obj: Node, child: Node, value: Node)
    requires Stands(Snap(all), obj) && |value.content| == 1
    modifies all
    ensures Snap(all) == PutIn(old(Snap(all)), obj, child, old(value.content[0]))
  {
    ghost var g, t := Snap(all), TreeOf(Snap(all), obj);
    HolderMeaning(g, obj, t, child);
    assert value.content == [value.content[0]];
    hide Repr, Reach, Snap, Holder;
    ghost var at := ReplaceNode(all, obj, t, child, value);
    if at.Some? {
      FirstIs(g[at.value.0].content, at.value.1, child);
    }
  }

  /**
   The matches that meet the condition are replaced one after the other, each where the first node that holds it
   holds it first. If the places of the path are not shared they become the value, which they then share.
   */
  method Replace(ghost ns: set<Node>, obj: Node, ghost t: Tree, path: seq<Seg>, cond: Tree -> bool, value: Node,
                 ghost vs: set<Node>, ghost vt: Tree) returns (ghost ns': set<Node>)
    requires Doc(ns, obj, t)
    requires |value.content| == 1 && Doc(vs, value.content[0], vt) && ns !! vs && value !in ns + vs
    modifies ns + vs
    ensures Beside(old(Snap(ns + vs)), obj, t, old(value.content[0]), vt)
    ensures Snap(ns + vs) == Placement(old(Snap(ns + vs)), obj, t, Moves(t.kind, path), cond, old(value.content[0]), vt)
    ensures ns' <= ns + vs && exists u :: Doc(ns', obj, u)
    ensures old(Lone(Snap(ns), obj, t, Moves(t.kind, path))) ==>
              Doc(ns', obj, Replaced(t, Moves(t.kind, path), Given(cond, vt)))
    ensures old(Lone(Snap(ns), obj, t, Moves(t.kind, path)) && TreeShaped(Snap(ns), obj, t)
                && TreeShaped(Snap(vs), value.content[0], vt)) ==>
              && (|Lookup(t, Moves(t.kind, path))| <= 1 ==>
                    TreeShaped(Snap(ns'), obj, Replaced(t, Moves(t.kind, path), Given(cond, vt))))
              && exists rank :: Even(Snap(ns'), ns', rank)
  {
    var moves := Moves(obj.kind, path);
    ghost var all := ns + vs;
    ghost var g := Snap(all);
    ghost var w := value.content[0];
    BesideDocs(ns, vs, obj, t, moves, w, vt);
    ghost var lone := Lone(Snap(ns), obj, t, moves);
    if lone {
      LonePlacement(g, obj, t, moves, cond, w, vt);
    }
    hide Lone, Repr, Reach, Spots, TreeShaped, Snap, ValueApart, Rewrite, Lookup, Given, Even, Foreign, PutIn, PutFrom,
         AllStand, Moves, Placement, Beside;
    ReplaceMatches(all, g, obj, t, moves, cond, value, w, vt);
    PlacementStands(g, obj, t, moves, cond, w, vt);
    ghost var u := TreeOf(Snap(all), obj);
    ns' := Footprint(all, obj, u);
    if lone {
      StandsFor(Snap(all), obj, Replaced(t, moves, Given(cond, vt)));
      EvenFrame(ns', all);
    }
  }

  lemma {:induction false} PlacementStands(g: Heap<Node>, n: Node, t: Tree, path: seq<Move>, cond: Tree -> bool,
                                           w: Node, wt: Tree)
    requires Beside(g, n, t, w, wt)
    ensures Stands(Placement(g, n, t, path, cond, w, wt), n)
  {
    SpotsForeign(g, n, t, path, w, wt);
    PutFromStands(g, n, NodesAt(Spots(g, n, t, path)), cond, w);
  }

  method ReplaceMatches(ghost all: set<Node>, ghost g: Heap<Node>, obj: Node, ghost t: Tree, path: seq<Move>,
                        cond: Tree -> bool, value: Node, ghost w: Node, ghost wt: Tree)
    requires g == Snap(all) && Beside(g, obj, t, w, wt) && value !in all && value.content == [w]
    modifies all
    ensures Snap(all) == Placement(g, obj, t, path, cond, w, wt)
  {
    ghost var nodes := NodesAt(Spots(g, obj, t, path));
    SpotsForeign(g, obj, t, path, w, wt);
    var matches := FindMatches(all, obj, t, path);
    assert matches == nodes && nodes[0..] == nodes;
    hide Repr, Reach, Spots, Snap, Foreign, PutIn, PutFrom, AllStand, Stands, NodesAt;
    for k := 0 to |matches|
      invariant Stands(Snap(all), obj) && AllStand(Snap(all), nodes[k..]) && Foreign(Snap(all), w, nodes[k..])
      invariant PutFrom(g, obj, nodes, cond, w) == PutFrom(Snap(all), obj, nodes[k..], cond, w)
    {
      PutStep(Snap(all), obj, nodes, k, cond, w);
      var tree := ReadTree(all, matches[k], TreeOf(Snap(all), matches[k]));
      if cond(tree) {
        PutNode(all, obj, matches[k], value);
      }
    }
    LastPut(Snap(all), obj, nodes, cond, w);
  }

  lemma {:induction false} LastPut(g: Heap<Node>, n: Node, nodes: seq<Node>, cond: Tree -> bool, w: Node)
    requires Stands(g, n) && AllStand(g, nodes[|nodes|..]) && Foreign(g, w, nodes[|nodes|..])
    ensures PutFrom(g, n, nodes[|nodes|..], cond, w) == g
  {
  }

  // ----- removing

  /** The node is taken out of the first node that holds it; the source dereferences the holder unchecked. */
  method RemoveNode(ghost ns: set<Node>, obj: Node, child: Node) returns (ok: bool)
    requires Stands(Snap(ns), obj)
    modifies ns
    ensures TakenOut(old(Snap(ns)), obj, child) == if ok then Some(Snap(ns)) else None
  {
    ghost var g, t := Snap(ns), TreeOf(Snap(ns), obj);
    HolderMeaning(g, obj, t, child);
    ReachInHeap(g, obj, t);
    hide Repr, Reach, Nowhere, Holder, AllBut;
    var found := Find(ns, obj, t, child);
    if found.None? {
      return false;
    }
    var parent := found.value;
    match parent.kind {
      case MappingNode =>
        if parent.content[0] == child {
          // the key before the first key
          return false;
        }
        var content := RemoveProperty(parent, child);
        ghost var k: nat :| k > 0 && First(parent.content, k, child)
            && content == Without(MappingNode, parent.content, k);
        FirstIs(parent.content, k, child);
        SetContent(ns, parent, content);
      case SequenceNode =>
        var content := RemoveChild(parent, child);
        SetContent(ns, parent, content);
      case _ =>
    }
    ok := true;
  }

  /** Without sharing the removals run through, and what is left stands for the tree without the matches. */
  lemma {:induction false} LoneFinishes(g: Heap<Node>, n: Node, t: Tree, path: seq<Move>, cond: Tree -> bool)
    requires Repr(g, n, t) && g.Keys == Reach(g, n, t)
    ensures Stands(g, n) && AllStand(g, NodesAt(Spots(g, n, t, path)))
    ensures Removal(g, n, t, path, cond) == RemovedFrom(g, n, NodesAt(Spots(g, n, t, path)), cond)
    ensures path != [] && TreeShaped(g, n, t) ==> Lone(g, n, t, path)
    ensures path != [] && Lone(g, n, t, path) ==>
              && Removal(g, n, t, path, cond).Some?
              && var h := Removal(g, n, t, path, cond).value;
                 && Repr(h, n, Delete(t, path, cond)) && Stands(h, n) && TreeOf(h, n) == Delete(t, path, cond)
                 && (TreeShaped(g, n, t) ==> TreeShaped(h, n, Delete(t, path, cond)))
  {
    SpotsStand(g, n, t, path);
    if path != [] && TreeShaped(g, n, t) {
      TreeLone(g, n, t, path);
    }
    if path != [] && Lone(g, n, t, path) {
      RemoveDone(g, n, t, path, cond);
      StandsFor(Removal(g, n, t, path, cond).value, n, Delete(t, path, cond));
    }
  }

  /**
   The matches that meet the condition are taken out one after the other, unless one is held by no node any
   more. If the places of the path are not shared that never happens, and the matches are gone and nothing else.
   */
  method Remove(ghost ns: set<Node>, obj: Node, ghost t: Tree, path: seq<Seg>, cond: Tree -> bool)
    returns (ok: bool, ghost ns': set<Node>)
    requires Doc(ns, obj, t)
    modifies ns
    ensures ok <==> Removal(old(Snap(ns)), obj, t, Moves(t.kind, path), cond).Some?
    ensures ok ==> Snap(ns) == Removal(old(Snap(ns)), obj, t, Moves(t.kind, path), cond).value
    ensures ok ==> ns' <= ns && exists u :: Doc(ns', obj, u)
    ensures old(Lone(Snap(ns), obj, t, Moves(t.kind, path))) && Moves(t.kind, path) != [] ==>
              ok && Doc(ns', obj, Delete(t, Moves(t.kind, path), cond))
    ensures old(TreeShaped(Snap(ns), obj, t)) && Moves(t.kind, path) != [] ==>
              && ok && Doc(ns', obj, Delete(t, Moves(t.kind, path), cond))
              && TreeShaped(Snap(ns'), obj, Delete(t, Moves(t.kind, path), cond))
  {
    var moves := Moves(obj.kind, path);
    ghost var g := Snap(ns);
    ghost var nodes := NodesAt(Spots(g, obj, t, moves));
    SpotsStand(g, obj, t, moves);
    var matches := FindMatches(ns, obj, t, moves);
    assert matches == nodes && nodes[0..] == nodes;
    LoneFinishes(g, obj, t, moves, cond);
    hide Moves, Removal, RemovedFrom, AllStand, TakenOut, Lone, Repr, Reach, Spots, TreeShaped, Snap, Delete, NodesAt,
         Stands;
    for k := 0 to |matches|
      invariant Stands(Snap(ns), obj) && AllStand(Snap(ns), nodes[k..])
      invariant RemovedFrom(g, obj, nodes, cond) == RemovedFrom(Snap(ns), obj, nodes[k..], cond)
    {
      RemovedStep(Snap(ns), obj, nodes, k, cond);
      var tree := ReadTree(ns, matches[k], TreeOf(Snap(ns), matches[k]));
      if cond(tree) {
        ok := RemoveNode(ns, obj, matches[k]);
        if !ok {
          ns' := ns;
          return;
        }
      }
    }
    RemovedAll(Snap(ns), obj, nodes, cond);
    ok := true;
    ns' := Footprint(ns, obj, TreeOf(Snap(ns), obj));
  }
}
