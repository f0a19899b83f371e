/** Documents without sharing, and what one replacement makes of them, have every node at one depth. */
module SharedDocuments {
  import opened Trees
  import opened Graph
  import opened Replacing
  import opened Removals
  import opened SharedRemoving

  // ----- keys and values

  ghost predicate KeyEntry<T>(g: Heap<T>, p: T, i: nat) {
    p in g && i < |g[p].content| && g[p].kind == MappingNode && !Odd(i)
  }

  ghost predicate ValueEntry<T>(g: Heap<T>, p: T, i: nat) {
    p in g && i < |g[p].content| && (g[p].kind == MappingNode ==> Odd(i))
  }

  /** No node is a key in one place and not one in another. */
  ghost predicate ValuesAside<T>(g: Heap<T>, nodes: set<T>) {
    forall p, i: nat, q, j: nat :: p in nodes && q in nodes && KeyEntry(g, p, i) && ValueEntry(g, q, j) ==>
        g[p].content[i] != g[q].content[j]
  }

  /** Every node has one depth, and keys are only keys. */
  ghost predicate Even<T>(g: Heap<T>, nodes: set<T>, rank: map<T, nat>) {
    Ranked(g, nodes, rank) && ValuesAside(g, nodes)
  }

  lemma {:induction false} SpotHeld<T>(g: Heap<T>, n: T, t: Tree, path: seq<Move>, s: Spot<T>) returns (p: T, i: nat)
    requires Repr(g, n, t) && path != [] && s in Spots(g, n, t, path)
    ensures p in Reach(g, n, t) && ValueEntry(g, p, i) && g[p].content[i] == s.node
    decreases |path|
  {
    SpotsMembers(g, n, t, path, s);
    var a: nat :| SpotBelow(g, n, t, path, s, a);
    if |path| == 1 {
      p, i := n, a;
    } else {
      p, i := SpotHeld(g, g[n].content[a], t.children[a], path[1..], s);
      ReachChild(g, n, t, a);
    }
  }

  lemma {:induction false} SpotsAside<T>(g: Heap<T>, n: T, t: Tree, path: seq<Move>)
    requires Repr(g, n, t) && path != [] && ValuesAside(g, Reach(g, n, t))
    ensures Reach(g, n, t) <= g.Keys && KeysAside(g, Reach(g, n, t), NodesAt(Spots(g, n, t, path)))
  {
    ReachInHeap(g, n, t);
    var spots, nodes := Spots(g, n, t, path), Reach(g, n, t);
    forall x | x in NodesAt(spots)
      ensures NeverKey(g, nodes, x)
    {
      var k :| 0 <= k < |spots| && NodesAt(spots)[k] == x;
      assert spots[k] in spots;
      var q, j := SpotHeld(g, n, t, path, spots[k]);
      forall p, i | p in nodes && g[p].kind == MappingNode && 0 <= i < |g[p].content| && !Odd(i)
        ensures g[p].content[i] != x
      {
        assert KeyEntry(g, p, i);
      }
    }
  }

  /**
   In a document in which every node has one depth the removals of a patch run through exactly if every match
   is to be taken out at most as often as the document holds it: in mappings once for each position, in
   sequences once for each sequence, in a document any number of times.
   */
  lemma {:induction false} RemovalFinishes<T>(g: Heap<T>, n: T, t: Tree, path: seq<Move>, cond: Tree -> bool,
                                              rank: map<T, nat>, ps: seq<T>)
    requires Repr(g, n, t) && Even(g, Reach(g, n, t), rank) && Lists(ps, Reach(g, n, t)) && path != []
    ensures var matches := NodesAt(Spots(g, n, t, path));
      && AllStand(g, matches) && (forall p :: p in ps ==> p in g)
      && (Removal(g, n, t, path, cond).Some? <==> Fits(g, ps, Picked(g, matches, cond)))
  {
    SpotsAside(g, n, t, path);
    FinishesExactly(g, n, t, path, cond, rank, ps);
  }

  // ----- documents without sharing

  /** How many steps below the root the node is met. */
  ghost function DepthOf<T>(g: Heap<T>, n: T, t: Tree, x: T): nat
    requires Repr(g, n, t) && x in Reach(g, n, t)
    decreases t
  {
    if x == n then 0
    else
      var i :| 0 <= i < |t.children| && x in Reach(g, g[n].content[i], t.children[i]);
      1 + DepthOf(g, g[n].content[i], t.children[i], x)
  }

  lemma {:induction false} DepthChild<T>(g: Heap<T>, n: T, t: Tree, i: nat, x: T)
    requires Repr(g, n, t) && TreeShaped(g, n, t) && i < |t.children| && x in Reach(g, g[n].content[i], t.children[i])
    ensures x in Reach(g, n, t) && DepthOf(g, n, t, x) == 1 + DepthOf(g, g[n].content[i], t.children[i], x)
  {
  }

  lemma {:induction false} DepthEdge<T>(g: Heap<T>, n: T, t: Tree, p: T, j: nat)
    requires Repr(g, n, t) && TreeShaped(g, n, t) && p in Reach(g, n, t) && p in g && j < |g[p].content|
    ensures g[p].content[j] in Reach(g, n, t)
    ensures DepthOf(g, n, t, g[p].content[j]) == DepthOf(g, n, t, p) + 1
    decreases t
  {
    PointsWithin(g, n, t, p, j);
    if p == n {
      DepthChild(g, n, t, j, g[n].content[j]);
    } else {
      var i :| 0 <= i < |t.children| && p in Reach(g, g[n].content[i], t.children[i]);
      DepthEdge(g, g[n].content[i], t.children[i], p, j);
      DepthChild(g, n, t, i, p);
      DepthChild(g, n, t, i, g[p].content[j]);
    }
  }

  /** A node is held once. */
  lemma {:induction false} HeldOnce<T>(g: Heap<T>, n: T, t: Tree, p: T, i: nat, q: T, j: nat)
    requires Repr(g, n, t) && TreeShaped(g, n, t) && p in Reach(g, n, t) && q in Reach(g, n, t) && p in g && q in g
    requires i < |g[p].content| && j < |g[q].content| && g[p].content[i] == g[q].content[j]
    ensures p == q && i == j
    decreases t
  {
    var a := Branch(g, n, t, p, i);
    var b := Branch(g, n, t, q, j);
    assert a == b;
    var c := g[n].content[a];
    if p != n && q != n {
      HeldOnce(g, c, t.children[a], p, i, q, j);
    } else if p != n {
      RootNotHeld(g, c, t.children[a], p, i);
    } else if q != n {
      RootNotHeld(g, c, t.children[a], q, j);
    }
  }

  lemma {:induction false} RootNotHeld<T>(g: Heap<T>, n: T, t: Tree, p: T, i: nat)
    requires Repr(g, n, t) && TreeShaped(g, n, t) && p in Reach(g, n, t) && p in g && i < |g[p].content|
    ensures g[p].content[i] != n
  {
    TreeLone(g, n, t, []);
    assert g[p].content[i] in g[p].content;
  }

  ghost function Depths<T>(g: Heap<T>, n: T, t: Tree): map<T, nat>
    requires Repr(g, n, t)
  {
    map x | x in Reach(g, n, t) :: DepthOf(g, n, t, x)
  }

  lemma {:induction false} TreeRanked<T>(g: Heap<T>, n: T, t: Tree)
    requires Repr(g, n, t) && TreeShaped(g, n, t)
    ensures Ranked(g, Reach(g, n, t), Depths(g, n, t))
  {
    hide Repr, Reach, TreeShaped, DepthOf;
    var nodes, rank := Reach(g, n, t), Depths(g, n, t);
    ReachInHeap(g, n, t);
    forall p, c | p in nodes && c in g[p].content
      ensures c in nodes && rank[c] == rank[p] + 1
    {
      var j :| 0 <= j < |g[p].content| && g[p].content[j] == c;
      DepthEdge(g, n, t, p, j);
    }
  }

  lemma {:induction false} TreeAside<T>(g: Heap<T>, n: T, t: Tree)
    requires Repr(g, n, t) && TreeShaped(g, n, t)
    ensures ValuesAside(g, Reach(g, n, t))
  {
    hide Repr, Reach, TreeShaped;
    var nodes := Reach(g, n, t);
    forall p, i: nat, q, j: nat | p in nodes && q in nodes && KeyEntry(g, p, i) && ValueEntry(g, q, j)
      ensures g[p].content[i] != g[q].content[j]
    {
      if g[p].content[i] == g[q].content[j] {
        HeldOnce(g, n, t, p, i, q, j);
      }
    }
  }

  /** In a document without sharing every node has one depth, and keys are only keys. */
  lemma {:induction false} TreeEven<T>(g: Heap<T>, n: T, t: Tree)
    requires Repr(g, n, t) && TreeShaped(g, n, t)
    ensures Even(g, Reach(g, n, t), Depths(g, n, t))
  {
    TreeRanked(g, n, t);
    TreeAside(g, n, t);
  }

  // ----- after a replacement

  /** A document, places of a path in it, and a value outside of it, none of them shared. */
  ghost predicate Replaceable<T>(g: Heap<T>, n: T, t: Tree, path: seq<Move>, done: set<T>, w: T, wt: Tree) {
    && Repr(g, n, t) && TreeShaped(g, n, t) && Repr(g, w, wt) && TreeShaped(g, w, wt)
    && Reach(g, w, wt) !! Reach(g, n, t) && path != [] && forall x :: x in done ==> IsSpot(g, n, t, path, x)
  }

  /** The value moves to the depth of the places. */
  ghost function NewRank<T>(g: Heap<T>, n: T, t: Tree, d: nat, w: T, wt: Tree): map<T, nat>
    requires Repr(g, n, t) && Repr(g, w, wt)
  {
    map x | x in Reach(g, n, t) + Reach(g, w, wt) :: if x in Reach(g, n, t) then DepthOf(g, n, t, x)
        else d + DepthOf(g, w, wt, x)
  }

  /** Where an entry of the new document comes from. */
  lemma {:induction false} NewEntry<T>(g: Heap<T>, n: T, t: Tree, path: seq<Move>, done: set<T>, w: T, wt: Tree, p: T,
                                       i: nat)
    requires Replaceable(g, n, t, path, done, w, wt) && p in Reach(g, n, t) + Reach(g, w, wt) && p in g
        && i < |g[p].content|
    ensures var h := Sub(g, All(done, w));
      && p in h && |h[p].content| == |g[p].content| && h[p].kind == g[p].kind
      && (g[p].content[i] in done ==> p in Reach(g, n, t) && h[p].content[i] == w && ValueEntry(g, p, i))
      && (g[p].content[i] !in done ==> h[p].content[i] == g[p].content[i])
  {
    var x := g[p].content[i];
    if x in done {
      var s :| s in Spots(g, n, t, path) && s.node == x;
      SpotInReach(g, n, t, path, s);
      var q, j := SpotHeld(g, n, t, path, s);
      if p in Reach(g, w, wt) {
        PointsWithin(g, w, wt, p, i);
        assert false;
      }
      HeldOnce(g, n, t, p, i, q, j);
    }
  }

  lemma {:induction false} SpotDepth<T>(g: Heap<T>, n: T, t: Tree, path: seq<Move>, x: T)
    requires Repr(g, n, t) && TreeShaped(g, n, t) && IsSpot(g, n, t, path, x)
    ensures x in Reach(g, n, t) && DepthOf(g, n, t, x) == |path|
  {
    var s :| s in Spots(g, n, t, path) && s.node == x;
    TreeEven(g, n, t);
    assert n in Reach(g, n, t) && DepthOf(g, n, t, n) == 0;
    SpotsRanked(g, Reach(g, n, t), Depths(g, n, t), n, t, path, s);
  }

  lemma {:induction false} NewRanked<T>(g: Heap<T>, n: T, t: Tree, path: seq<Move>, done: set<T>, w: T, wt: Tree)
    requires Replaceable(g, n, t, path, done, w, wt)
    ensures Ranked(Sub(g, All(done, w)), Reach(g, n, t) + Reach(g, w, wt), NewRank(g, n, t, |path|, w, wt))
  {
    hide Sub, Repr, Reach, TreeShaped, DepthOf, Replaceable, Ranked;
    ReplaceableParts(g, n, t, path, done, w, wt);
    var h, nodes, rank := Sub(g, All(done, w)), Reach(g, n, t) + Reach(g, w, wt), NewRank(g, n, t, |path|, w, wt);
    ReachInHeap(g, n, t);
    ReachInHeap(g, w, wt);
    SubKeys(g, All(done, w));
    forall p, c | p in nodes && c in h[p].content
      ensures c in nodes && rank[c] == rank[p] + 1
    {
      NewRankedTo(g, n, t, path, done, w, wt, p, c);
    }
    hide NewRank;
    RankedBy(h, nodes, rank);
  }

  lemma {:induction false} RankedBy<T>(h: Heap<T>, nodes: set<T>, rank: map<T, nat>)
    requires nodes <= h.Keys && nodes <= rank.Keys
    requires forall p, c :: p in nodes && c in h[p].content ==> c in nodes && rank[c] == rank[p] + 1
    ensures Ranked(h, nodes, rank)
  {
  }

  lemma {:induction false} SubKeys<T>(g: Heap<T>, ov: map<T, T>)
    ensures Sub(g, ov).Keys == g.Keys && forall p :: p in g ==> |Sub(g, ov)[p].content| == |g[p].content|
  {
  }

  lemma {:induction false} NewRankedTo<T>(g: Heap<T>, n: T, t: Tree, path: seq<Move>, done: set<T>, w: T, wt: Tree,
                                          p: T, c: T)
    requires Replaceable(g, n, t, path, done, w, wt) && p in Reach(g, n, t) + Reach(g, w, wt)
    requires p in Sub(g, All(done, w)) && c in Sub(g, All(done, w))[p].content
    ensures var rank := NewRank(g, n, t, |path|, w, wt);
      c in Reach(g, n, t) + Reach(g, w, wt) && rank[c] == rank[p] + 1
  {
    hide Sub, Repr, Reach, TreeShaped, DepthOf, Replaceable;
    var content := Sub(g, All(done, w))[p].content;
    var i: nat :| 0 <= i < |content| && content[i] == c;
    ReplaceableParts(g, n, t, path, done, w, wt);
    NewRankedAt(g, n, t, path, done, w, wt, p, i);
  }

  lemma {:induction false} NewRankedAt<T>(g: Heap<T>, n: T, t: Tree, path: seq<Move>, done: set<T>, w: T, wt: Tree,
                                          p: T, i: nat)
    requires Replaceable(g, n, t, path, done, w, wt) && p in Reach(g, n, t) + Reach(g, w, wt)
    requires p in Sub(g, All(done, w)) && i < |Sub(g, All(done, w))[p].content|
    ensures var rank := NewRank(g, n, t, |path|, w, wt);
      var c := Sub(g, All(done, w))[p].content[i];
      c in Reach(g, n, t) + Reach(g, w, wt) && rank[c] == rank[p] + 1
  {
    SubKeys(g, All(done, w));
    NewEntry(g, n, t, path, done, w, wt, p, i);
    var x := g[p].content[i];
    hide Sub, ValueEntry;
    if p in Reach(g, n, t) {
      DepthEdge(g, n, t, p, i);
      if x in done {
        SpotDepth(g, n, t, path, x);
        assert DepthOf(g, w, wt, w) == 0 && w in Reach(g, w, wt);
      }
    } else {
      DepthEdge(g, w, wt, p, i);
    }
  }

  /** Two entries of a document and a value, both without sharing, hold the same node only if they are the same. */
  lemma {:induction false} HeldOnceApart<T>(g: Heap<T>, n: T, t: Tree, w: T, wt: Tree, p: T, i: nat, q: T, j: nat)
    requires Repr(g, n, t) && TreeShaped(g, n, t) && Repr(g, w, wt) && TreeShaped(g, w, wt)
        && Reach(g, w, wt) !! Reach(g, n, t)
    requires p in Reach(g, n, t) + Reach(g, w, wt) && q in Reach(g, n, t) + Reach(g, w, wt) && p in g && q in g
    requires i < |g[p].content| && j < |g[q].content|
    ensures g[p].content[i] == g[q].content[j] ==> p == q && i == j
    ensures g[p].content[i] != w
  {
    if p in Reach(g, n, t) {
      PointsWithin(g, n, t, p, i);
      assert w in Reach(g, w, wt);
    } else {
      PointsWithin(g, w, wt, p, i);
      RootNotHeld(g, w, wt, p, i);
    }
    if q in Reach(g, n, t) {
      PointsWithin(g, n, t, q, j);
    } else {
      PointsWithin(g, w, wt, q, j);
    }
    if g[p].content[i] == g[q].content[j] {
      if p in Reach(g, n, t) {
        HeldOnce(g, n, t, p, i, q, j);
      } else {
        HeldOnce(g, w, wt, p, i, q, j);
      }
    }
  }

  lemma {:induction false} NewAside<T>(g: Heap<T>, n: T, t: Tree, path: seq<Move>, done: set<T>, w: T, wt: Tree)
    requires Replaceable(g, n, t, path, done, w, wt)
    ensures ValuesAside(Sub(g, All(done, w)), Reach(g, n, t) + Reach(g, w, wt))
  {
    var h, nodes := Sub(g, All(done, w)), Reach(g, n, t) + Reach(g, w, wt);
    hide Sub, Repr, Reach, TreeShaped, Replaceable;
    forall p, i: nat, q, j: nat | p in nodes && q in nodes && KeyEntry(h, p, i) && ValueEntry(h, q, j)
      ensures h[p].content[i] != h[q].content[j]
    {
      SubKeys(g, All(done, w));
      NewEntry(g, n, t, path, done, w, wt, p, i);
      NewEntry(g, n, t, path, done, w, wt, q, j);
      ReplaceableParts(g, n, t, path, done, w, wt);
      HeldOnceApart(g, n, t, w, wt, p, i, q, j);
    }
  }

  lemma {:induction false} ReplaceableParts<T>(g: Heap<T>, n: T, t: Tree, path: seq<Move>, done: set<T>, w: T, wt: Tree)
    requires Replaceable(g, n, t, path, done, w, wt)
    ensures Repr(g, n, t) && TreeShaped(g, n, t) && Repr(g, w, wt) && TreeShaped(g, w, wt)
    ensures Reach(g, w, wt) !! Reach(g, n, t)
  {
  }

  lemma {:induction false} EvenWithin<T>(h: Heap<T>, nodes: set<T>, rank: map<T, nat>, n: T, u: Tree)
    requires Even(h, nodes, rank) && n in nodes && Repr(h, n, u)
    ensures Even(h, Reach(h, n, u), rank)
  {
    forall x | x in Reach(h, n, u)
      ensures x in nodes
    {
      ReachRanked(h, nodes, rank, n, u, x);
    }
    forall p, c | p in Reach(h, n, u) && c in h[p].content
      ensures c in Reach(h, n, u)
    {
      var i: nat :| i < |h[p].content| && h[p].content[i] == c;
      PointsWithin(h, n, u, p, i);
    }
  }

  /** Replacing places of one path by one value: the value is shared, but at one depth, and never as a key. */
  lemma {:induction false} ReplacedEven<T>(g: Heap<T>, n: T, t: Tree, path: seq<Move>, done: set<T>, w: T, wt: Tree,
                                           u: Tree)
    requires Replaceable(g, n, t, path, done, w, wt) && Repr(Sub(g, All(done, w)), n, u)
    ensures Even(Sub(g, All(done, w)), Reach(Sub(g, All(done, w)), n, u), NewRank(g, n, t, |path|, w, wt))
  {
    NewRanked(g, n, t, path, done, w, wt);
    NewAside(g, n, t, path, done, w, wt);
    assert n in Reach(g, n, t);
    hide Sub, Ranked, ValuesAside, Repr, Reach, TreeShaped, Replaceable;
    EvenWithin(Sub(g, All(done, w)), Reach(g, n, t) + Reach(g, w, wt), NewRank(g, n, t, |path|, w, wt), n, u);
  }
}
