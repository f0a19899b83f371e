/** Removing the matches of a path one after the other, in any document, and what that is without sharing. */
module Removals {
  import opened Strings
  import opened Trees
  import opened Graph
  import opened Replacing
  import opened Removing
  import opened Holders

  // ----- the tree a node stands for

  ghost predicate Stands<T>(g: Heap<T>, n: T) {
    exists t :: Repr(g, n, t)
  }

  ghost function TreeOf<T>(g: Heap<T>, n: T): (t: Tree)
    requires Stands(g, n)
    ensures Repr(g, n, t)
  {
    var t :| Repr(g, n, t);
    t
  }

  /** A node stands for one tree only. */
  lemma {:induction false} OneTree<T>(g: Heap<T>, n: T, t: Tree, t': Tree)
    requires Repr(g, n, t) && Repr(g, n, t')
    ensures t == t'
    decreases t
  {
    forall i | 0 <= i < |t.children|
      ensures t.children[i] == t'.children[i]
    {
      OneTree(g, g[n].content[i], t.children[i], t'.children[i]);
    }
    assert t.children == t'.children;
  }

  lemma {:induction false} StandsFor<T>(g: Heap<T>, n: T, t: Tree)
    requires Repr(g, n, t)
    ensures Stands(g, n) && TreeOf(g, n) == t
  {
    OneTree(g, n, t, TreeOf(g, n));
  }

  /** The second heap has lost entries of content lists, and nothing else has changed. */
  ghost predicate Thinner<T>(g: Heap<T>, h: Heap<T>) {
    && h.Keys == g.Keys
    && forall x :: x in g ==> h[x].kind == g[x].kind && h[x].value == g[x].value && Among(h[x].content, g[x].content)
  }

  ghost predicate Among<T>(a: seq<T>, b: seq<T>) {
    forall c :: c in a ==> c in b
  }

  /** A document that loses entries is a document, with no new node in it. */
  lemma {:induction false} ThinnerStands<T>(g: Heap<T>, h: Heap<T>, n: T, t: Tree)
    requires Repr(g, n, t) && Thinner(g, h)
    ensures Stands(h, n) && Reach(h, n, TreeOf(h, n)) <= Reach(g, n, t)
    decreases t
  {
    hide Reach;
    var content := h[n].content;
    var children: seq<Tree> := [];
    for i := 0 to |content|
      invariant |children| == i
      invariant forall j :: 0 <= j < i ==>
          Repr(h, content[j], children[j]) && Reach(h, content[j], children[j]) <= Reach(g, n, t)
    {
      var j := ThinnerChild(g, h, n, t, i);
      ThinnerStands(g, h, content[i], t.children[j]);
      children := children + [TreeOf(h, content[i])];
    }
    var r := Tree(t.kind, t.value, children);
    assert Repr(h, n, r);
    StandsFor(h, n, r);
    ReachOfChildren(g, h, n, t, r);
  }

  lemma {:induction false} ThinnerChild<T>(g: Heap<T>, h: Heap<T>, n: T, t: Tree, i: nat) returns (j: nat)
    requires Repr(g, n, t) && Thinner(g, h) && i < |h[n].content|
    ensures j < |t.children| && g[n].content[j] == h[n].content[i]
    ensures Repr(g, h[n].content[i], t.children[j]) && Reach(g, h[n].content[i], t.children[j]) <= Reach(g, n, t)
  {
    assert h[n].content[i] in h[n].content;
    j :| 0 <= j < |g[n].content| && g[n].content[j] == h[n].content[i];
    ReachChild(g, n, t, j);
  }

  lemma {:induction false} ReachOfChildren<T>(g: Heap<T>, h: Heap<T>, n: T, t: Tree, r: Tree)
    requires Repr(g, n, t) && Repr(h, n, r)
    requires forall j :: 0 <= j < |r.children| ==> Reach(h, h[n].content[j], r.children[j]) <= Reach(g, n, t)
    ensures Reach(h, n, r) <= Reach(g, n, t)
  {
  }

  // ----- one removal

  function FirstAt<T(==)>(content: seq<T>, x: T): (k: nat)
    requires x in content
    ensures k < |content| && content[k] == x && x !in content[..k]
  {
    if content[0] == x then 0
    else
      var k := FirstAt(content[1..], x);
      assert content[..k + 1] == [content[0]] + content[1..][..k];
      k + 1
  }

  lemma {:induction false} FirstIs<T>(content: seq<T>, k: nat, x: T)
    requires First(content, k, x)
    ensures x in content && FirstAt(content, x) == k
  {
    var j := FirstAt(content, x);
    forall i | 0 <= i < k
      ensures content[i] != x
    {
      assert content[i] == content[..k][i];
    }
    forall i | 0 <= i < j
      ensures content[i] != x
    {
      assert content[i] == content[..j][i];
    }
  }

  /**
   The node is taken out of the first node that holds it: from a mapping its first occurrence with the entry
   before it, from a sequence every occurrence, from other nodes none. There is no result if no node holds it
   or if it is the first key of a mapping.
   */
  ghost function TakenOut<T>(g: Heap<T>, n: T, x: T): Option<Heap<T>>
    requires Stands(g, n)
  {
    var p := Holder(g, n, TreeOf(g, n), x);
    if p.None? then None
    else
      HolderMeaning(g, n, TreeOf(g, n), x);
      TakenFrom(g, p.value, x)
  }

  ghost function TakenFrom<T>(g: Heap<T>, p: T, x: T): Option<Heap<T>>
    requires p in g && x in g[p].content
  {
    var content := g[p].content;
    match g[p].kind
    case MappingNode =>
      if content[0] == x then None else Some(WithContent(g, p, Without(MappingNode, content, FirstAt(content, x))))
    case SequenceNode => Some(WithContent(g, p, AllBut(content, x)))
    case _ => Some(g)
  }

  lemma {:induction false} AllButAmong<T>(content: seq<T>, x: T)
    ensures forall c :: c in AllBut(content, x) <==> c in content && c != x
  {
    if content != [] {
      AllButAmong(content[..|content| - 1], x);
      assert content == content[..|content| - 1] + [content[|content| - 1]];
    }
  }

  lemma {:induction false} TakenThinner<T>(g: Heap<T>, n: T, x: T)
    requires Stands(g, n) && TakenOut(g, n, x).Some?
    ensures Thinner(g, TakenOut(g, n, x).value)
  {
    hide Thinner, TakenFrom;
    HolderMeaning(g, n, TreeOf(g, n), x);
    TakenFromThinner(g, Holder(g, n, TreeOf(g, n), x).value, x);
  }

  lemma {:induction false} TakenFromThinner<T>(g: Heap<T>, p: T, x: T)
    requires p in g && x in g[p].content && TakenFrom(g, p, x).Some?
    ensures Thinner(g, TakenFrom(g, p, x).value)
  {
    var content, h := g[p].content, TakenFrom(g, p, x).value;
    AllButAmong(content, x);
    if g[p].kind == MappingNode {
      var k := FirstAt(content, x);
      assert k > 0 && h[p].content == content[..k - 1] + content[k + 1..];
    }
    assert Among(h[p].content, content);
  }

  // ----- the removals of one patch

  ghost predicate AllStand<T>(g: Heap<T>, nodes: seq<T>) {
    forall x :: x in nodes ==> Stands(g, x)
  }

  lemma {:induction false} ThinnerAllStand<T>(g: Heap<T>, h: Heap<T>, n: T, nodes: seq<T>)
    requires Thinner(g, h) && AllStand(g, nodes) && Stands(g, n)
    ensures AllStand(h, nodes) && Stands(h, n)
  {
    ThinnerStands(g, h, n, TreeOf(g, n));
    forall x | x in nodes
      ensures Stands(h, x)
    {
      ThinnerStands(g, h, x, TreeOf(g, x));
    }
  }

  /** The matches that still meet the condition are taken out one after the other; no result once one cannot be. */
  ghost function RemovedFrom<T>(g: Heap<T>, n: T, nodes: seq<T>, cond: Tree -> bool): Option<Heap<T>>
    requires Stands(g, n) && AllStand(g, nodes)
    decreases |nodes|
  {
    if nodes == [] then Some(g)
    else
      assert nodes[0] in nodes;
      if !cond(TreeOf(g, nodes[0])) then RemovedFrom(g, n, nodes[1..], cond)
      else
        var h := TakenOut(g, n, nodes[0]);
        if h.None? then None
        else
          TakenThinner(g, n, nodes[0]);
          ThinnerAllStand(g, h.value, n, nodes);
          RemovedFrom(h.value, n, nodes[1..], cond)
  }

  /** What is left to do before and after one match. */
  lemma {:induction false} RemovedStep<T>(g: Heap<T>, n: T, nodes: seq<T>, k: nat, cond: Tree -> bool)
    requires k < |nodes| && Stands(g, n) && AllStand(g, nodes[k..])
    ensures Stands(g, nodes[k]) && AllStand(g, nodes[k + 1..])
    ensures !cond(TreeOf(g, nodes[k])) ==>
        RemovedFrom(g, n, nodes[k..], cond) == RemovedFrom(g, n, nodes[k + 1..], cond)
    ensures cond(TreeOf(g, nodes[k])) ==>
              var h := TakenOut(g, n, nodes[k]);
              && (h.None? ==> RemovedFrom(g, n, nodes[k..], cond) == None)
              && (h.Some? ==> && Stands(h.value, n) && AllStand(h.value, nodes[k + 1..])
                              && RemovedFrom(g, n, nodes[k..], cond) == RemovedFrom(h.value, n, nodes[k + 1..], cond))
  {
    var rest := nodes[k..];
    assert rest[0] == nodes[k] && rest[1..] == nodes[k + 1..] && rest[0] in rest;
    hide TakenOut, Thinner;
    if TakenOut(g, n, nodes[k]).Some? {
      TakenThinner(g, n, nodes[k]);
      ThinnerAllStand(g, TakenOut(g, n, nodes[k]).value, n, rest);
    }
  }

  lemma {:induction false} RemovedAll<T>(g: Heap<T>, n: T, nodes: seq<T>, cond: Tree -> bool)
    requires Stands(g, n)
    ensures AllStand(g, nodes[|nodes|..]) && RemovedFrom(g, n, nodes[|nodes|..], cond) == Some(g)
  {
  }

  function NodesAt<T>(spots: seq<Spot<T>>): seq<T> {
    seq(|spots|, i requires 0 <= i < |spots| => spots[i].node)
  }

  lemma {:induction false} SpotsStand<T>(g: Heap<T>, n: T, t: Tree, path: seq<Move>)
    requires Repr(g, n, t)
    ensures Stands(g, n) && AllStand(g, NodesAt(Spots(g, n, t, path)))
  {
    var spots := Spots(g, n, t, path);
    forall x | x in NodesAt(spots)
      ensures Stands(g, x)
    {
      var i :| 0 <= i < |spots| && NodesAt(spots)[i] == x;
      assert spots[i] in spots;
      SpotInReach(g, n, t, path, spots[i]);
    }
  }

  /** What the removals of a patch make of a document. */
  ghost function Removal<T>(g: Heap<T>, n: T, t: Tree, path: seq<Move>, cond: Tree -> bool): Option<Heap<T>>
    requires Repr(g, n, t)
  {
    SpotsStand(g, n, t, path);
    RemovedFrom(g, n, NodesAt(Spots(g, n, t, path)), cond)
  }

  lemma {:induction false} RemovedThinner<T>(g: Heap<T>, n: T, nodes: seq<T>, cond: Tree -> bool)
    requires Stands(g, n) && AllStand(g, nodes) && RemovedFrom(g, n, nodes, cond).Some?
    ensures Thinner(g, RemovedFrom(g, n, nodes, cond).value)
    decreases |nodes|
  {
    hide Thinner, TakenOut;
    if nodes == [] {
      ThinnerSelf(g);
    } else {
      assert nodes[0] in nodes;
      if cond(TreeOf(g, nodes[0])) {
        var h := TakenOut(g, n, nodes[0]).value;
        TakenThinner(g, n, nodes[0]);
        ThinnerAllStand(g, h, n, nodes);
        RemovedThinner(h, n, nodes[1..], cond);
        ThinnerTwice(g, h, RemovedFrom(g, n, nodes, cond).value);
      } else {
        RemovedThinner(g, n, nodes[1..], cond);
      }
    }
  }

  lemma {:induction false} ThinnerSelf<T>(g: Heap<T>)
    ensures Thinner(g, g)
  {
  }

  lemma {:induction false} ThinnerTwice<T>(g: Heap<T>, h: Heap<T>, h': Heap<T>)
    requires Thinner(g, h) && Thinner(h, h')
    ensures Thinner(g, h')
  {
  }

  // ----- places that are not shared

  /** The removals made so far are sound and the place is still there. */
  ghost predicate Removable<T>(g: Heap<T>, gone: set<T>, n: T, t: Tree, path: seq<Move>, s: Spot<T>) {
    && Repr(g, n, t) && Lone(g, n, t, path) && path != [] && g.Keys == Reach(g, n, t)
    && OnSpots(g, n, t, path, gone) && s in Spots(g, n, t, path) && s.node !in gone
  }

  lemma {:induction false} RemovableNow<T>(g: Heap<T>, gone: set<T>, n: T, t: Tree, path: seq<Move>, s: Spot<T>)
    requires Removable(g, gone, n, t, path, s)
    ensures Repr(g, n, t) && Repr(Del(g, gone), n, DelOver(g, n, t, gone)) && Repr(Del(g, gone), s.node, s.tree)
    ensures !Nowhere(Del(g, gone), n, DelOver(g, n, t, gone), s.node)
  {
    var p, i := StillHeld(g, n, t, path, s, gone);
    StillWhole(g, n, t, path, s, gone);
  }

  /** The only entry of a content list with the node. */
  ghost predicate Once<T>(content: seq<T>, k: nat, x: T) {
    k < |content| && content[k] == x && x !in content[..k] && x !in content[k + 1..]
  }

  lemma {:induction false} RemoveNext<T>(g: Heap<T>, gone: set<T>, n: T, t: Tree, path: seq<Move>, s: Spot<T>, p: T,
                                         k: nat)
    requires Removable(g, gone, n, t, path, s)
    requires p in Del(g, gone) && First(Del(g, gone)[p].content, k, s.node)
    ensures var now := Del(g, gone);
      && Once(now[p].content, k, s.node) && (now[p].kind == MappingNode ==> k > 0)
      && WithContent(now, p, Without(now[p].kind, now[p].content, k)) == Del(g, gone + {s.node})
  {
    var now := Del(g, gone);
    var h, i := StillHeld(g, n, t, path, s, gone);
    var mask := Mask(g[p].content, gone);
    KeptOrdered(g[p].kind, mask, |mask|);
    var kept := Kept(g[p].kind, mask, |mask|);
    OnlyOneHolds(g, n, t, path, s, h, i);
    forall j | k < j < |now[p].content|
      ensures now[p].content[j] != s.node
    {
      assert kept[k] < kept[j];
      assert g[p].content[kept[k]] == s.node;
    }
    DelStep(g, gone, s.node, p, i, k);
  }

  /** One more place is taken out of its parent: with its key from a mapping, alone from a sequence. */
  lemma {:induction false} LoneTakenOut<T>(g: Heap<T>, gone: set<T>, n: T, t: Tree, path: seq<Move>, s: Spot<T>)
    requires Removable(g, gone, n, t, path, s)
    ensures Stands(Del(g, gone), n) && TakenOut(Del(g, gone), n, s.node) == Some(Del(g, gone + {s.node}))
  {
    hide Lone, Repr, Reach, Spots, Removable, Del, DelOver, Nowhere, First;
    RemovableNow(g, gone, n, t, path, s);
    var now, u := Del(g, gone), DelOver(g, n, t, gone);
    StandsFor(now, n, u);
    HolderMeaning(now, n, u, s.node);
    var p := Holder(now, n, u, s.node).value;
    var k := FirstAt(now[p].content, s.node);
    assert First(now[p].content, k, s.node) by { FirstIsFirst(now[p].content, s.node); }
    RemoveNext(g, gone, n, t, path, s, p, k);
    OnceOut(now, p, s.node, k);
  }

  lemma {:induction false} FirstIsFirst<T>(content: seq<T>, x: T)
    requires x in content
    ensures First(content, FirstAt(content, x), x)
  {
  }

  lemma {:induction false} OnceOut<T>(g: Heap<T>, p: T, x: T, k: nat)
    requires p in g && Once(g[p].content, k, x) && (g[p].kind == MappingNode ==> k > 0)
    ensures x in g[p].content && TakenFrom(g, p, x) == Some(WithContent(g, p, Without(g[p].kind, g[p].content, k)))
  {
    var content := g[p].content;
    assert First(content, k, x);
    FirstIs(content, k, x);
    AllButOnce(content, x, k);
    assert g[p := g[p].(content := content)] == g;
    if g[p].kind == MappingNode {
      assert content[..k][0] == content[0];
    }
  }

  ghost predicate RemoveInput<T>(g: Heap<T>, n: T, t: Tree, path: seq<Move>) {
    Repr(g, n, t) && Lone(g, n, t, path) && path != [] && g.Keys == Reach(g, n, t)
  }

  lemma {:induction false} RemoveStep<T>(g: Heap<T>, n: T, t: Tree, path: seq<Move>, cond: Tree -> bool, k: nat)
    requires RemoveInput(g, n, t, path) && k < |Spots(g, n, t, path)|
    ensures var spots := Spots(g, n, t, path);
      var gone, s := Chosen(spots, cond, k), spots[k];
      && Removable(g, gone, n, t, path, s) && Repr(Del(g, gone), s.node, s.tree)
      && Chosen(spots, cond, k + 1) == if cond(s.tree) then gone + {s.node} else gone
  {
    var spots := Spots(g, n, t, path);
    ChosenOnSpots(g, n, t, path, cond, k);
    ChosenNext(spots, cond, k);
    RemovableNow(g, Chosen(spots, cond, k), n, t, path, spots[k]);
  }

  lemma {:induction false} DelThinner<T>(g: Heap<T>, gone: set<T>)
    ensures Thinner(g, Del(g, gone))
  {
    forall x, c | x in g && c in Del(g, gone)[x].content
      ensures c in g[x].content
    {
      var mask := Mask(g[x].content, gone);
      var i :| 0 <= i < |Del(g, gone)[x].content| && Del(g, gone)[x].content[i] == c;
      assert c == g[x].content[Kept(g[x].kind, mask, |mask|)[i]];
    }
  }

  lemma {:induction false} DelStands<T>(g: Heap<T>, n: T, t: Tree, path: seq<Move>, gone: set<T>, k: nat)
    requires Repr(g, n, t) && k <= |Spots(g, n, t, path)|
    ensures Stands(Del(g, gone), n) && AllStand(Del(g, gone), NodesAt(Spots(g, n, t, path))[k..])
  {
    var nodes := NodesAt(Spots(g, n, t, path));
    SpotsStand(g, n, t, path);
    DelThinner(g, gone);
    ThinnerAllStand(g, Del(g, gone), n, nodes);
    assert forall x :: x in nodes[k..] ==> x in nodes;
  }

  /** Removing one after the other is removing all at once. */
  lemma {:induction false} LoneRemoved<T>(g: Heap<T>, n: T, t: Tree, path: seq<Move>, cond: Tree -> bool, k: nat)
    requires RemoveInput(g, n, t, path) && k <= |Spots(g, n, t, path)|
    ensures var spots := Spots(g, n, t, path);
      var now := Del(g, Chosen(spots, cond, k));
      && Stands(now, n) && AllStand(now, NodesAt(spots)[k..])
      && RemovedFrom(now, n, NodesAt(spots)[k..], cond) == Some(Del(g, Chosen(spots, cond, |spots|)))
    decreases |Spots(g, n, t, path)| - k
  {
    var spots := Spots(g, n, t, path);
    var nodes, gone := NodesAt(spots), Chosen(spots, cond, k);
    DelStands(g, n, t, path, gone, k);
    if k == |spots| {
      assert nodes[k..] == [];
    } else {
      assert nodes[k..][0] == spots[k].node && nodes[k..][1..] == nodes[k + 1..];
      hide Chosen, Del, Spots, Removable, AllStand, TakenOut, Lone;
      RemoveStep(g, n, t, path, cond, k);
      StandsFor(Del(g, gone), spots[k].node, spots[k].tree);
      if cond(spots[k].tree) {
        LoneTakenOut(g, gone, n, t, path, spots[k]);
      }
      LoneRemoved(g, n, t, path, cond, k + 1);
    }
  }

  lemma {:induction false} DelNothing<T>(g: Heap<T>, spots: seq<Spot<T>>, cond: Tree -> bool)
    ensures Del(g, Chosen(spots, cond, 0)) == g
  {
    var gone := Chosen(spots, cond, 0);
    forall n | n in g
      ensures Drop(g[n].kind, g[n].content, Mask(g[n].content, gone)) == g[n].content
    {
      DropNone(g[n].kind, g[n].content, Mask(g[n].content, gone));
    }
  }

  /** If the places of the path are not shared, every match that meets the condition is gone, and nothing else. */
  lemma {:induction false} RemoveDone<T>(g: Heap<T>, n: T, t: Tree, path: seq<Move>, cond: Tree -> bool)
    requires RemoveInput(g, n, t, path)
    ensures Removal(g, n, t, path, cond).Some?
    ensures var h := Removal(g, n, t, path, cond).value;
      Repr(h, n, Delete(t, path, cond)) && (TreeShaped(g, n, t) ==> TreeShaped(h, n, Delete(t, path, cond)))
  {
    var spots := Spots(g, n, t, path);
    var gone := Chosen(spots, cond, |spots|);
    LoneRemoved(g, n, t, path, cond, 0);
    DelNothing(g, spots, cond);
    assert NodesAt(spots)[0..] == NodesAt(spots);
    hide RemovedFrom, Del, NodesAt;
    ChosenOnSpots(g, n, t, path, cond, |spots|);
    SpotsDistinct(g, n, t, path);
    forall s | s in spots
      ensures s.node in gone <==> cond(s.tree)
    {
      ChosenAll(spots, cond, s);
    }
    DelIsDelete(g, n, t, path, cond, gone);
    DelRepr(g, n, t, gone);
    if TreeShaped(g, n, t) {
      DelShaped(g, n, t, gone);
    }
  }
}
