/** Replacing nodes of a document by others: what single edits add up to, and the tree that results. */
module Replacing {
  import opened Trees
  import opened Graph

  /** Every occurrence of a replaced node in a content list becomes its replacement. */
  function SubContent<T(==)>(content: seq<T>, ov: map<T, T>): seq<T> {
    seq(|content|, i requires 0 <= i < |content| => if content[i] in ov then ov[content[i]] else content[i])
  }

  ghost function Sub<T>(g: Heap<T>, ov: map<T, T>): Heap<T> {
    map n | n in g :: g[n].(content := SubContent(g[n].content, ov))
  }

  ghost function All<T, U>(keys: set<T>, u: U): map<T, U> {
    map x | x in keys :: u
  }

  /** The tree in which each replaced node stands for its replacement. */
  ghost function Over<T>(g: Heap<T>, n: T, t: Tree, tr: map<T, Tree>): Tree
    requires Repr(g, n, t)
    decreases t
  {
    if n in tr then tr[n]
    else t.(children := seq(|t.children|,
        i requires 0 <= i < |t.children| => Over(g, g[n].content[i], t.children[i], tr)))
  }

  /** The replacements stand for the given trees and hold no replaced node. */
  ghost predicate GoodReplacements<T>(g: Heap<T>, ov: map<T, T>, tr: map<T, Tree>) {
    && ov.Keys == tr.Keys
    && forall m :: m in ov ==> GoodReplacement(g, ov, ov[m], tr[m])
  }

  ghost predicate GoodReplacement<T>(g: Heap<T>, ov: map<T, T>, w: T, wt: Tree) {
    Repr(g, w, wt) && Reach(g, w, wt) !! ov.Keys
  }

  lemma {:induction false} SubUntouched<T>(g: Heap<T>, ov: map<T, T>, n: T, t: Tree)
    requires Repr(g, n, t) && Reach(g, n, t) !! ov.Keys
    ensures Repr(Sub(g, ov), n, t) && Reach(Sub(g, ov), n, t) == Reach(g, n, t)
    ensures TreeShaped(g, n, t) ==> TreeShaped(Sub(g, ov), n, t)
    decreases t
  {
    forall i | 0 <= i < |t.children|
      ensures g[n].content[i] !in ov && Repr(Sub(g, ov), g[n].content[i], t.children[i])
      ensures Reach(Sub(g, ov), g[n].content[i], t.children[i]) == Reach(g, g[n].content[i], t.children[i])
      ensures TreeShaped(g, g[n].content[i], t.children[i]) ==> TreeShaped(Sub(g, ov), g[n].content[i], t.children[i])
    {
      ReachChild(g, n, t, i);
      assert g[n].content[i] in Reach(g, g[n].content[i], t.children[i]);
      SubUntouched(g, ov, g[n].content[i], t.children[i]);
    }
  }

  lemma {:induction false} SubRepr<T>(g: Heap<T>, ov: map<T, T>, tr: map<T, Tree>, n: T, t: Tree)
    requires Repr(g, n, t) && GoodReplacements(g, ov, tr) && n !in ov
    ensures Repr(Sub(g, ov), n, Over(g, n, t, tr))
    decreases t
  {
    var r := Over(g, n, t, tr);
    forall i | 0 <= i < |t.children|
      ensures Repr(Sub(g, ov), Sub(g, ov)[n].content[i], r.children[i])
    {
      var c := g[n].content[i];
      assert r.children[i] == Over(g, c, t.children[i], tr);
      if c in ov {
        assert GoodReplacement(g, ov, ov[c], tr[c]);
        SubUntouched(g, ov, ov[c], tr[c]);
      } else {
        SubRepr(g, ov, tr, c, t.children[i]);
      }
    }
  }

  // ----- the result is the rewritten tree

  lemma {:induction false} OverUntouched<T>(g: Heap<T>, n: T, t: Tree, tr: map<T, Tree>)
    requires Repr(g, n, t) && Reach(g, n, t) !! tr.Keys
    ensures Over(g, n, t, tr) == t
    decreases t
  {
    forall i | 0 <= i < |t.children|
      ensures Over(g, g[n].content[i], t.children[i], tr) == t.children[i]
    {
      ReachChild(g, n, t, i);
      OverUntouched(g, g[n].content[i], t.children[i], tr);
    }
    assert Over(g, n, t, tr).children == t.children;
  }

  /** A place is replaced as f says, or left alone because f does nothing to it. */
  ghost predicate SpotDone<T>(s: Spot<T>, f: Tree -> Tree, tr: map<T, Tree>) {
    if s.node in tr then tr[s.node] == f(s.tree) else f(s.tree) == s.tree
  }

  ghost predicate AllDone<T>(spots: seq<Spot<T>>, f: Tree -> Tree, tr: map<T, Tree>) {
    forall s :: s in spots ==> SpotDone(s, f, tr)
  }

  lemma {:induction false} OverIsRewrite<T>(g: Heap<T>, n: T, t: Tree, path: seq<Move>, f: Tree -> Tree,
                                            tr: map<T, Tree>)
    requires Repr(g, n, t) && Lone(g, n, t, path)
    requires OnSpots(g, n, t, path, tr.Keys) && AllDone(Spots(g, n, t, path), f, tr)
    ensures Over(g, n, t, tr) == Rewrite(t, path, f)
    decreases |path|
  {
    if path == [] {
      assert SpotDone(Spot(n, t), f, tr);
      if n !in tr {
        forall x | x in tr && x in Reach(g, n, t)
          ensures x == n
        {
          assert IsSpot(g, n, t, path, x);
        }
        OverUntouched(g, n, t, tr);
      }
    } else {
      OnSpotsRoot(g, n, t, path, tr.Keys);
      var r := Rewrite(t, path, f);
      forall i | 0 <= i < |t.children|
        ensures Over(g, g[n].content[i], t.children[i], tr) == r.children[i]
      {
        OnSpotsBelow(g, n, t, path, tr.Keys, i);
        if Selects(t.kind, Values(t.children), path[0], i) {
          forall s | s in Spots(g, g[n].content[i], t.children[i], path[1..])
            ensures SpotDone(s, f, tr)
          {
            assert SpotBelow(g, n, t, path, s, i);
            SpotsMembers(g, n, t, path, s);
          }
          OverIsRewrite(g, g[n].content[i], t.children[i], path[1..], f, tr);
        } else {
          OverUntouched(g, g[n].content[i], t.children[i], tr);
        }
      }
      assert Over(g, n, t, tr).children == r.children;
    }
  }

  // ----- the places not replaced yet

  /** The parent of a place stays in the document until the place is replaced. */
  lemma {:induction false} StillThere<T>(g: Heap<T>, ov: map<T, T>, tr: map<T, Tree>, n: T, t: Tree, path: seq<Move>,
                                         s: Spot<T>) returns (p: T)
    requires Repr(g, n, t) && GoodReplacements(g, ov, tr) && Lone(g, n, t, path) && path != []
    requires OnSpots(g, n, t, path, ov.Keys) && s in Spots(g, n, t, path) && s.node !in ov
    ensures n !in ov && Repr(Sub(g, ov), n, Over(g, n, t, tr))
    ensures p in Reach(Sub(g, ov), n, Over(g, n, t, tr)) && p in g && s.node in Sub(g, ov)[p].content
    decreases |path|
  {
    OnSpotsRoot(g, n, t, path, ov.Keys);
    SubRepr(g, ov, tr, n, t);
    SpotsMembers(g, n, t, path, s);
    var i: nat :| SpotBelow(g, n, t, path, s, i);
    OnSpotsBelow(g, n, t, path, ov.Keys, i);
    if |path| == 1 {
      p := n;
      assert Sub(g, ov)[n].content[i] == s.node;
    } else {
      p := StillThere(g, ov, tr, g[n].content[i], t.children[i], path[1..], s);
      ReachChild(Sub(g, ov), n, Over(g, n, t, tr), i);
    }
  }

  /** A place not replaced yet stands for the tree it stood for. */
  lemma {:induction false} StillSame<T>(g: Heap<T>, ov: map<T, T>, n: T, t: Tree, path: seq<Move>, s: Spot<T>)
    requires Repr(g, n, t) && Lone(g, n, t, path)
    requires OnSpots(g, n, t, path, ov.Keys) && s in Spots(g, n, t, path) && s.node !in ov
    ensures Repr(g, s.node, s.tree) && Repr(Sub(g, ov), s.node, s.tree)
    ensures Reach(Sub(g, ov), s.node, s.tree) == Reach(g, s.node, s.tree)
  {
    SpotInReach(g, n, t, path, s);
    forall x | x in ov && x in Reach(g, s.node, s.tree)
      ensures false
    {
      assert IsSpot(g, n, t, path, x);
      var y :| y in Spots(g, n, t, path) && y.node == x;
      NotNested(g, n, t, path, s, y);
    }
    SubUntouched(g, ov, s.node, s.tree);
  }

  /** Nodes outside the document do not point into it. */
  ghost predicate Apart<T>(g: Heap<T>, nodes: set<T>) {
    forall p, i :: p in g && p !in nodes && 0 <= i < |g[p].content| ==> g[p].content[i] !in nodes
  }

  /** The node is held by one content list, once. */
  ghost predicate OnlyAt<T>(g: Heap<T>, x: T, p: T, k: nat) {
    forall q, j :: q in g && 0 <= j < |g[q].content| && g[q].content[j] == x ==> q == p && j == k
  }

  lemma {:induction false} OnlyOneHolds<T>(g: Heap<T>, n: T, t: Tree, path: seq<Move>, s: Spot<T>, p: T, k: nat)
    requires Repr(g, n, t) && Lone(g, n, t, path) && s in Spots(g, n, t, path) && Apart(g, Reach(g, n, t))
    requires p in g && k < |g[p].content| && g[p].content[k] == s.node
    ensures OnlyAt(g, s.node, p, k)
  {
    SpotInReach(g, n, t, path, s);
    forall q, j | q in g && 0 <= j < |g[q].content| && g[q].content[j] == s.node
      ensures q == p && j == k
    {
      OneParent(g, n, t, path, s, p, q, k, j);
    }
  }

  lemma {:induction false} SubContentStep<T>(content: seq<T>, ov: map<T, T>, x: T, w: T)
    requires x !in ov
    ensures |SubContent(content, ov)| == |content|
    ensures x !in content ==> SubContent(content, ov[x := w]) == SubContent(content, ov)
    ensures forall k: nat :: k < |content| && content[k] == x && x !in content[..k] && x !in content[k + 1..] ==>
              SubContent(content, ov[x := w]) == SubContent(content, ov)[..k] + [w] + SubContent(content, ov)[k + 1..]
  {
  }

  /** Replacing one more place where its parent holds it. */
  lemma {:induction false} SubStep<T>(g: Heap<T>, ov: map<T, T>, x: T, p: T, k: nat, w: T)
    requires p in g && k < |g[p].content| && g[p].content[k] == x && x !in ov && OnlyAt(g, x, p, k)
    ensures var now := Sub(g, ov);
      k < |now[p].content| &&
      now[p := now[p].(content := now[p].content[..k] + [w] + now[p].content[k + 1..])] == Sub(g, ov[x := w])
  {
    hide SubContent;
    var now := Sub(g, ov);
    var next := Sub(g, ov[x := w]);
    SubContentStep(g[p].content, ov, x, w);
    forall q | q in g
      ensures next[q] == if q == p then now[p].(content := now[p].content[..k] + [w] + now[p].content[k + 1..])
          else now[q]
    {
      SubContentStep(g[q].content, ov, x, w);
      if q != p {
        assert x !in g[q].content;
      }
    }
  }

  // ----- replacing keeps a document free of sharing

  /** No replacement is used twice, and none is part of the document. */
  ghost predicate FreshReplacements<T>(g: Heap<T>, ov: map<T, T>, tr: map<T, Tree>, nodes: set<T>)
    requires GoodReplacements(g, ov, tr)
  {
    && (forall m :: m in ov ==> Fresh(g, ov, ov[m], tr[m], nodes))
    && forall m, o :: m in ov && o in ov && m != o ==> SeparateTrees(g, ov[m], tr[m], ov[o], tr[o])
  }

  ghost predicate Fresh<T>(g: Heap<T>, ov: map<T, T>, w: T, wt: Tree, nodes: set<T>) {
    Repr(g, w, wt) && TreeShaped(g, w, wt) && Reach(g, w, wt) !! nodes
  }

  ghost predicate SeparateTrees<T>(g: Heap<T>, a: T, ta: Tree, b: T, tb: Tree) {
    Repr(g, a, ta) && Repr(g, b, tb) && Reach(g, a, ta) !! Reach(g, b, tb)
  }

  /** A node of the new document is an old one or part of the replacement of an old one. */
  ghost predicate FromOld<T>(g: Heap<T>, ov: map<T, T>, tr: map<T, Tree>, nodes: set<T>, x: T)
    requires GoodReplacements(g, ov, tr)
  {
    || x in nodes
    || exists m :: m in ov && m in nodes && GoodReplacement(g, ov, ov[m], tr[m]) && x in Reach(g, ov[m], tr[m])
  }

  lemma {:induction false} SubReach<T>(g: Heap<T>, ov: map<T, T>, tr: map<T, Tree>, n: T, t: Tree, x: T)
    requires Repr(g, n, t) && GoodReplacements(g, ov, tr) && n !in ov
    requires Repr(Sub(g, ov), n, Over(g, n, t, tr)) && x in Reach(Sub(g, ov), n, Over(g, n, t, tr))
    ensures FromOld(g, ov, tr, Reach(g, n, t), x)
    decreases t
  {
    if x != n {
      var r := Over(g, n, t, tr);
      var i: nat :| i < |r.children| && x in Reach(Sub(g, ov), Sub(g, ov)[n].content[i], r.children[i]);
      ChildFromOld(g, ov, tr, n, t, i, x);
    }
  }

  lemma {:induction false} ChildFromOld<T>(g: Heap<T>, ov: map<T, T>, tr: map<T, Tree>, n: T, t: Tree, i: nat, x: T)
    requires Repr(g, n, t) && GoodReplacements(g, ov, tr) && n !in ov && i < |t.children|
    requires Repr(Sub(g, ov), n, Over(g, n, t, tr))
    requires x in Reach(Sub(g, ov), Sub(g, ov)[n].content[i], Over(g, n, t, tr).children[i])
    ensures FromOld(g, ov, tr, Reach(g, g[n].content[i], t.children[i]), x)
    ensures FromOld(g, ov, tr, Reach(g, n, t), x)
    decreases t, 0
  {
    var c := g[n].content[i];
    ReachChild(g, n, t, i);
    assert c in Reach(g, c, t.children[i]);
    if c in ov {
      assert GoodReplacement(g, ov, ov[c], tr[c]);
      SubUntouched(g, ov, ov[c], tr[c]);
    } else {
      SubReach(g, ov, tr, c, t.children[i], x);
    }
  }

  lemma {:induction false} SubShaped<T>(g: Heap<T>, ov: map<T, T>, tr: map<T, Tree>, n: T, t: Tree, nodes: set<T>)
    requires Repr(g, n, t) && GoodReplacements(g, ov, tr) && n !in ov && TreeShaped(g, n, t) && Reach(g, n, t) <= nodes
    requires FreshReplacements(g, ov, tr, nodes)
    ensures Repr(Sub(g, ov), n, Over(g, n, t, tr)) && TreeShaped(Sub(g, ov), n, Over(g, n, t, tr))
    decreases t, 1
  {
    SubRepr(g, ov, tr, n, t);
    var h, r := Sub(g, ov), Over(g, n, t, tr);
    forall i | 0 <= i < |r.children|
      ensures TreeShaped(h, h[n].content[i], r.children[i])
    {
      ChildShaped(g, ov, tr, n, t, i, nodes);
    }
    forall i, x | 0 <= i < |r.children| && x in Reach(h, h[n].content[i], r.children[i])
      ensures FromOld(g, ov, tr, Reach(g, g[n].content[i], t.children[i]), x)
    {
      ChildFromOld(g, ov, tr, n, t, i, x);
    }
    forall i | 0 <= i < |r.children|
      ensures n !in Reach(h, h[n].content[i], r.children[i])
    {
      if n in Reach(h, h[n].content[i], r.children[i]) {
        OldNotFresh(g, ov, tr, Reach(g, g[n].content[i], t.children[i]), nodes, n);
      }
    }
    forall i, j | 0 <= i < j < |r.children|
      ensures Reach(h, h[n].content[i], r.children[i]) !! Reach(h, h[n].content[j], r.children[j])
    {
      forall x | x in Reach(h, h[n].content[i], r.children[i]) && x in Reach(h, h[n].content[j], r.children[j])
        ensures false
      {
        ReachChild(g, n, t, i);
        ReachChild(g, n, t, j);
        OneOrigin(g, ov, tr, Reach(g, g[n].content[i], t.children[i]), Reach(g, g[n].content[j], t.children[j]), nodes,
            x);
      }
    }
  }

  lemma {:induction false} ChildShaped<T>(g: Heap<T>, ov: map<T, T>, tr: map<T, Tree>, n: T, t: Tree, i: nat,
                                          nodes: set<T>)
    requires Repr(g, n, t) && GoodReplacements(g, ov, tr) && n !in ov && TreeShaped(g, n, t) && Reach(g, n, t) <= nodes
    requires FreshReplacements(g, ov, tr, nodes) && i < |t.children| && Repr(Sub(g, ov), n, Over(g, n, t, tr))
    ensures TreeShaped(Sub(g, ov), Sub(g, ov)[n].content[i], Over(g, n, t, tr).children[i])
    decreases t, 0
  {
    var c := g[n].content[i];
    ReachChild(g, n, t, i);
    if c in ov {
      assert GoodReplacement(g, ov, ov[c], tr[c]) && Fresh(g, ov, ov[c], tr[c], nodes);
      SubUntouched(g, ov, ov[c], tr[c]);
    } else {
      SubShaped(g, ov, tr, c, t.children[i], nodes);
    }
  }

  /** A node of the old document that the new one holds was there before. */
  lemma {:induction false} OldNotFresh<T>(g: Heap<T>, ov: map<T, T>, tr: map<T, Tree>, part: set<T>, nodes: set<T>,
                                          x: T)
    requires GoodReplacements(g, ov, tr) && FreshReplacements(g, ov, tr, nodes) && x in nodes
        && FromOld(g, ov, tr, part, x)
    ensures x in part
  {
  }

  /** Parts of the old document without common nodes have no common nodes afterwards. */
  lemma {:induction false} OneOrigin<T>(g: Heap<T>, ov: map<T, T>, tr: map<T, Tree>, a: set<T>, b: set<T>,
                                        nodes: set<T>, x: T)
    requires GoodReplacements(g, ov, tr) && FreshReplacements(g, ov, tr, nodes) && a <= nodes && b <= nodes
    requires FromOld(g, ov, tr, a, x) && FromOld(g, ov, tr, b, x)
    ensures !(a !! b)
  {
    if x in nodes {
      OldNotFresh(g, ov, tr, a, nodes, x);
      OldNotFresh(g, ov, tr, b, nodes, x);
    } else {
      var m :| m in ov && m in a && GoodReplacement(g, ov, ov[m], tr[m]) && x in Reach(g, ov[m], tr[m]);
      var o :| o in ov && o in b && GoodReplacement(g, ov, ov[o], tr[o]) && x in Reach(g, ov[o], tr[o]);
    }
  }
}
