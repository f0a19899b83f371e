/** Putting one value in the places of a path, one match after the other, in any document. */
module Placing {
  import opened Strings
  import opened Trees
  import opened Graph
  import opened Holders
  import opened Removals

  // ----- one replacement

  /** Some entries of content lists have become w, and nothing else has changed. */
  ghost predicate Planted<T>(g: Heap<T>, h: Heap<T>, w: T) {
    && h.Keys == g.Keys
    && forall x :: x in g ==>
         && h[x].kind == g[x].kind && h[x].value == g[x].value && |h[x].content| == |g[x].content|
         && forall i :: 0 <= i < |g[x].content| ==> h[x].content[i] == g[x].content[i] || h[x].content[i] == w
  }

  lemma {:induction false} PlantedStands<T>(g: Heap<T>, h: Heap<T>, w: T, n: T, t: Tree)
    requires Repr(g, n, t) && Planted(g, h, w) && Stands(h, w)
    ensures Stands(h, n)
    decreases t
  {
    var content := h[n].content;
    var children: seq<Tree> := [];
    for i := 0 to |content|
      invariant |children| == i && forall j :: 0 <= j < i ==> Repr(h, content[j], children[j])
    {
      if content[i] != w {
        PlantedStands(g, h, w, g[n].content[i], t.children[i]);
      }
      children := children + [TreeOf(h, content[i])];
    }
    assert Repr(h, n, Tree(t.kind, t.value, children));
  }

  /** The first entry with x of its first holder becomes w; nothing happens if no node holds it. */
  ghost function PutIn<T>(g: Heap<T>, n: T, x: T, w: T): Heap<T>
    requires Stands(g, n)
  {
    var p := Holder(g, n, TreeOf(g, n), x);
    if p.None? then g
    else
      HolderMeaning(g, n, TreeOf(g, n), x);
      PutAt(g, p.value, x, w)
  }

  ghost function PutAt<T>(g: Heap<T>, p: T, x: T, w: T): Heap<T>
    requires p in g && x in g[p].content
  {
    WithContent(g, p, Spliced(g[p].content, FirstAt(g[p].content, x), [w]))
  }

  /** A value whose nodes are none of the given ones. */
  ghost predicate Foreign<T>(g: Heap<T>, w: T, xs: seq<T>) {
    Stands(g, w) && forall x :: x in xs ==> x !in Reach(g, w, TreeOf(g, w))
  }

  lemma {:induction false} PutAtPlanted<T>(g: Heap<T>, p: T, x: T, w: T)
    requires p in g && x in g[p].content
    ensures Planted(g, PutAt(g, p, x, w), w)
  {
  }

  lemma {:induction false} HolderOutside<T>(g: Heap<T>, p: T, x: T, w: T)
    requires Foreign(g, w, [x]) && p in g && x in g[p].content
    ensures p !in Reach(g, w, TreeOf(g, w))
  {
    assert x in [x];
    if p in Reach(g, w, TreeOf(g, w)) {
      PointsWithin(g, w, TreeOf(g, w), p, FirstAt(g[p].content, x));
    }
  }

  /** The value is not changed by being put somewhere. */
  lemma {:induction false} PutKeeps<T>(g: Heap<T>, n: T, x: T, w: T)
    requires Stands(g, n) && Foreign(g, w, [x])
    ensures var h := PutIn(g, n, x, w);
      && Planted(g, h, w) && Stands(h, w) && TreeOf(h, w) == TreeOf(g, w)
      && Reach(h, w, TreeOf(h, w)) == Reach(g, w, TreeOf(g, w))
  {
    var h, t, wt := PutIn(g, n, x, w), TreeOf(g, n), TreeOf(g, w);
    var p := Holder(g, n, t, x);
    HolderMeaning(g, n, t, x);
    hide Repr, Reach, Holder, Nowhere, Foreign, Planted;
    ReachInHeap(g, w, wt);
    if p.Some? {
      PutAtPlanted(g, p.value, x, w);
      HolderOutside(g, p.value, x, w);
    } else {
      PlantedSelf(g, w);
    }
    ReprFrame(g, h, w, wt);
    StandsFor(h, w, wt);
  }

  lemma {:induction false} PlantedSelf<T>(g: Heap<T>, w: T)
    ensures Planted(g, g, w)
  {
  }

  lemma {:induction false} PutStands<T>(g: Heap<T>, n: T, x: T, w: T, rest: seq<T>)
    requires Stands(g, n) && AllStand(g, rest) && Foreign(g, w, [x] + rest)
    ensures var h := PutIn(g, n, x, w);
      && Stands(h, n) && AllStand(h, rest) && Foreign(h, w, rest)
      && TreeOf(h, w) == TreeOf(g, w) && Reach(h, w, TreeOf(h, w)) == Reach(g, w, TreeOf(g, w))
  {
    var h := PutIn(g, n, x, w);
    assert x in [x] + rest && forall y :: y in rest ==> y in [x] + rest;
    hide PutIn, Planted;
    PutKeeps(g, n, x, w);
    PlantedStands(g, h, w, n, TreeOf(g, n));
    forall y | y in rest
      ensures Stands(h, y)
    {
      PlantedStands(g, h, w, y, TreeOf(g, y));
    }
  }

  // ----- the replacements of one patch

  /** The matches that meet the condition are replaced one after the other. */
  ghost function PutFrom<T>(g: Heap<T>, n: T, nodes: seq<T>, cond: Tree -> bool, w: T): Heap<T>
    requires Stands(g, n) && AllStand(g, nodes) && Foreign(g, w, nodes)
    decreases |nodes|
  {
    if nodes == [] then g
    else
      assert nodes[0] in nodes && nodes == [nodes[0]] + nodes[1..];
      if !cond(TreeOf(g, nodes[0])) then PutFrom(g, n, nodes[1..], cond, w)
      else
        PutStands(g, n, nodes[0], w, nodes[1..]);
        PutFrom(PutIn(g, n, nodes[0], w), n, nodes[1..], cond, w)
  }

  /** What is left to do before and after one match. */
  lemma {:induction false} PutStep<T>(g: Heap<T>, n: T, nodes: seq<T>, k: nat, cond: Tree -> bool, w: T)
    requires k < |nodes| && Stands(g, n) && AllStand(g, nodes[k..]) && Foreign(g, w, nodes[k..])
    ensures Stands(g, nodes[k]) && AllStand(g, nodes[k + 1..]) && Foreign(g, w, nodes[k + 1..])
    ensures !cond(TreeOf(g, nodes[k])) ==>
              PutFrom(g, n, nodes[k..], cond, w) == PutFrom(g, n, nodes[k + 1..], cond, w)
    ensures cond(TreeOf(g, nodes[k])) ==>
              var h := PutIn(g, n, nodes[k], w);
              && Stands(h, n) && AllStand(h, nodes[k + 1..]) && Foreign(h, w, nodes[k + 1..])
              && PutFrom(g, n, nodes[k..], cond, w) == PutFrom(h, n, nodes[k + 1..], cond, w)
  {
    var rest := nodes[k..];
    assert rest[0] == nodes[k] && rest[1..] == nodes[k + 1..] && rest[0] in rest && rest == [rest[0]] + rest[1..];
    hide PutIn;
    PutStands(g, n, nodes[k], w, nodes[k + 1..]);
  }

  lemma {:induction false} PutAll<T>(g: Heap<T>, n: T, nodes: seq<T>, cond: Tree -> bool, w: T)
    requires Stands(g, n) && Stands(g, w)
    ensures AllStand(g, nodes[|nodes|..]) && Foreign(g, w, nodes[|nodes|..])
    ensures PutFrom(g, n, nodes[|nodes|..], cond, w) == g
  {
  }

  /** A document and a value outside of it. */
  ghost predicate Beside<T>(g: Heap<T>, n: T, t: Tree, w: T, wt: Tree) {
    Repr(g, n, t) && Repr(g, w, wt) && Reach(g, n, t) !! Reach(g, w, wt)
  }

  lemma {:induction false} SpotsForeign<T>(g: Heap<T>, n: T, t: Tree, path: seq<Move>, w: T, wt: Tree)
    requires Beside(g, n, t, w, wt)
    ensures var nodes := NodesAt(Spots(g, n, t, path));
      Stands(g, n) && AllStand(g, nodes) && Foreign(g, w, nodes) && forall x :: x in nodes ==> x in Reach(g, n, t)
  {
    var spots := Spots(g, n, t, path);
    SpotsStand(g, n, t, path);
    StandsFor(g, w, wt);
    forall x | x in NodesAt(spots)
      ensures x in Reach(g, n, t)
    {
      var i :| 0 <= i < |spots| && NodesAt(spots)[i] == x;
      assert spots[i] in spots;
      SpotInReach(g, n, t, path, spots[i]);
      ReachInHeap(g, spots[i].node, spots[i].tree);
    }
  }

  /** What the replacements of a patch make of a document. */
  ghost function Placement<T>(g: Heap<T>, n: T, t: Tree, path: seq<Move>, cond: Tree -> bool, w: T, wt: Tree): Heap<T>
    requires Beside(g, n, t, w, wt)
  {
    SpotsForeign(g, n, t, path, w, wt);
    PutFrom(g, n, NodesAt(Spots(g, n, t, path)), cond, w)
  }

  /** The document is a document afterwards. */
  lemma {:induction false} PutFromStands<T>(g: Heap<T>, n: T, nodes: seq<T>, cond: Tree -> bool, w: T)
    requires Stands(g, n) && AllStand(g, nodes) && Foreign(g, w, nodes)
    ensures Stands(PutFrom(g, n, nodes, cond, w), n)
    decreases |nodes|
  {
    if nodes != [] {
      assert nodes[0..] == nodes;
      PutStep(g, n, nodes, 0, cond, w);
      hide PutIn, Foreign, AllStand, PutFrom;
      if cond(TreeOf(g, nodes[0])) {
        PutFromStands(PutIn(g, n, nodes[0], w), n, nodes[1..], cond, w);
      } else {
        PutFromStands(g, n, nodes[1..], cond, w);
      }
    }
  }
}
