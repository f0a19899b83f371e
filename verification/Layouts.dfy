/** Documents in which nothing is met twice but values that were put in several places, and paths that keep clear. */
module Layouts {
  import opened Strings
  import opened Trees
  import opened Graph
  import opened Removals
  import opened SharedRemoving
  import opened SharedDocuments
  import opened Editing

  // ----- which nodes are held more than once

  ghost predicate Entry<T>(g: Heap<T>, nodes: set<T>, p: T, i: nat) {
    p in nodes && p in g && i < |g[p].content|
  }

  /** The entry is a value of a mapping or a list, and stands for one of the trees. */
  ghost predicate SharedEntry<T>(g: Heap<T>, p: T, i: nat, shared: set<Tree>) {
    && ValueEntry(g, p, i) && (g[p].kind == MappingNode || g[p].kind == SequenceNode)
    && Stands(g, g[p].content[i]) && TreeOf(g, g[p].content[i]) in shared
  }

  /** A node is held by one entry, or stands for one of the trees. */
  ghost predicate HeldOnceOr<T>(g: Heap<T>, nodes: set<T>, shared: set<Tree>) {
    forall p, i: nat, q, j: nat ::
      p in nodes && q in nodes && Entry(g, nodes, p, i) && Entry(g, nodes, q, j)
          && g[p].content[i] == g[q].content[j] ==>
      (p == q && i == j) || SharedEntry(g, p, i, shared)
  }

  /** Every node has one depth, and only nodes that stand for one of the trees are held more than once. */
  ghost predicate Laid<T>(g: Heap<T>, nodes: set<T>, rank: map<T, nat>, shared: set<Tree>) {
    Ranked(g, nodes, rank) && HeldOnceOr(g, nodes, shared)
  }

  /** A document laid out in this way. */
  ghost predicate LaidDoc<T>(g: Heap<T>, n: T, t: Tree, rank: map<T, nat>, shared: set<Tree>) {
    Repr(g, n, t) && Laid(g, Reach(g, n, t), rank, shared)
  }

  lemma {:induction false} SameEntry<T>(g: Heap<T>, nodes: set<T>, shared: set<Tree>, p: T, i: nat, q: T, j: nat,
                                        s: Tree)
    requires HeldOnceOr(g, nodes, shared) && Entry(g, nodes, p, i) && Entry(g, nodes, q, j)
    requires g[p].content[i] == g[q].content[j] && Repr(g, g[p].content[i], s) && s !in shared
    ensures p == q && i == j
  {
    StandsFor(g, g[p].content[i], s);
  }

  lemma {:induction false} LaidWithin<T>(g: Heap<T>, nodes: set<T>, rank: map<T, nat>, shared: set<Tree>, n: T, t: Tree)
    requires Laid(g, nodes, rank, shared) && n in nodes && Repr(g, n, t)
    ensures Reach(g, n, t) <= nodes && LaidDoc(g, n, t, rank, shared)
  {
    forall x | x in Reach(g, n, t)
      ensures x in nodes
    {
      ReachRanked(g, nodes, rank, n, t, x);
    }
    forall p, c | p in Reach(g, n, t) && c in g[p].content
      ensures c in Reach(g, n, t)
    {
      var i: nat :| i < |g[p].content| && g[p].content[i] == c;
      PointsWithin(g, n, t, p, i);
    }
    forall p, i: nat, q, j: nat |
      && Entry(g, Reach(g, n, t), p, i) && Entry(g, Reach(g, n, t), q, j) && g[p].content[i] == g[q].content[j]
      ensures (p == q && i == j) || SharedEntry(g, p, i, shared)
    {
      assert Entry(g, nodes, p, i) && Entry(g, nodes, q, j);
    }
  }

  lemma {:induction false} LaidEven<T>(g: Heap<T>, nodes: set<T>, rank: map<T, nat>, shared: set<Tree>)
    requires Laid(g, nodes, rank, shared)
    ensures Even(g, nodes, rank)
  {
    forall p, i: nat, q, j: nat | p in nodes && q in nodes && KeyEntry(g, p, i) && ValueEntry(g, q, j)
      ensures g[p].content[i] != g[q].content[j]
    {
      assert Entry(g, nodes, p, i) && Entry(g, nodes, q, j);
    }
  }

  /** Documents without sharing. */
  lemma {:induction false} TreeLaid<T>(g: Heap<T>, n: T, t: Tree)
    requires Repr(g, n, t) && TreeShaped(g, n, t)
    ensures LaidDoc(g, n, t, Depths(g, n, t), {})
  {
    TreeRanked(g, n, t);
    hide TreeShaped, Ranked, Repr, Reach, Depths;
    forall p, i: nat, q, j: nat |
      && Entry(g, Reach(g, n, t), p, i) && Entry(g, Reach(g, n, t), q, j) && g[p].content[i] == g[q].content[j]
      ensures p == q && i == j
    {
      HeldOnce(g, n, t, p, i, q, j);
    }
  }

  /** An entry for one of the trees is one in every heap that agrees on the document. */
  lemma {:induction false} SharedFrame<T>(g: Heap<T>, h: Heap<T>, n: T, t: Tree, rank: map<T, nat>, shared: set<Tree>,
                                          p: T, i: nat)
    requires LaidDoc(g, n, t, rank, shared) && Same(g, h, Reach(g, n, t))
    requires p in Reach(g, n, t) && p in g && i < |g[p].content| && SharedEntry(g, p, i, shared)
    ensures SharedEntry(h, p, i, shared)
  {
    var c := g[p].content[i];
    PointsWithin(g, n, t, p, i);
    LaidWithin(g, Reach(g, n, t), rank, shared, c, TreeOf(g, c));
    ReprFrame(g, h, c, TreeOf(g, c));
    StandsFor(h, c, TreeOf(g, c));
  }

  lemma {:induction false} LaidFrame<T>(g: Heap<T>, h: Heap<T>, n: T, t: Tree, rank: map<T, nat>, shared: set<Tree>)
    requires LaidDoc(g, n, t, rank, shared) && Same(g, h, Reach(g, n, t))
    ensures LaidDoc(h, n, t, rank, shared) && Reach(h, n, t) == Reach(g, n, t)
  {
    ReprFrame(g, h, n, t);
    var nodes := Reach(g, n, t);
    RankedFrame(g, h, nodes, rank);
    hide Repr, Reach, Ranked, SharedEntry;
    forall p, i: nat, q, j: nat | Entry(h, nodes, p, i) && Entry(h, nodes, q, j) && h[p].content[i] == h[q].content[j]
      ensures (p == q && i == j) || SharedEntry(h, p, i, shared)
    {
      assert Entry(g, nodes, p, i) && Entry(g, nodes, q, j);
      if SharedEntry(g, p, i, shared) {
        SharedFrame(g, h, n, t, rank, shared, p, i);
      }
    }
  }

  lemma {:induction false} RankedFrame<T>(g: Heap<T>, h: Heap<T>, nodes: set<T>, rank: map<T, nat>)
    requires Ranked(g, nodes, rank) && Same(g, h, nodes)
    ensures Ranked(h, nodes, rank)
  {
  }

  lemma {:induction false} MoreTrees<T>(g: Heap<T>, nodes: set<T>, rank: map<T, nat>, shared: set<Tree>,
                                        more: set<Tree>)
    requires Laid(g, nodes, rank, shared) && shared <= more
    ensures Laid(g, nodes, rank, more)
  {
    forall p, i: nat, q, j: nat | Entry(g, nodes, p, i) && Entry(g, nodes, q, j) && g[p].content[i] == g[q].content[j]
      ensures (p == q && i == j) || SharedEntry(g, p, i, more)
    {
      assert SharedEntry(g, p, i, shared) ==> SharedEntry(g, p, i, more);
    }
  }

  // ----- nodes that are met once

  /** What is met below a node and is not the node is held by something met below it. */
  lemma {:induction false} HeldWithin<T>(g: Heap<T>, n: T, t: Tree, x: T) returns (p: T, i: nat)
    requires Repr(g, n, t) && x in Reach(g, n, t) && x != n
    ensures p in Reach(g, n, t) && p in g && i < |g[p].content| && g[p].content[i] == x
    decreases t
  {
    var a :| 0 <= a < |t.children| && x in Reach(g, g[n].content[a], t.children[a]);
    if x == g[n].content[a] {
      p, i := n, a;
    } else {
      p, i := HeldWithin(g, g[n].content[a], t.children[a], x);
      ReachChild(g, n, t, a);
    }
  }

  /** A node met below b that is held once, by a, is b itself, or a is met below b. */
  lemma {:induction false} OneUp<T>(g: Heap<T>, nodes: set<T>, rank: map<T, nat>, shared: set<Tree>, a: T, ta: Tree,
                                    k: nat, b: T, tb: Tree)
    requires Laid(g, nodes, rank, shared) && a in nodes && Repr(g, a, ta) && k < |ta.children|
        && ta.children[k] !in shared
    requires b in nodes && Repr(g, b, tb) && g[a].content[k] in Reach(g, b, tb)
    ensures g[a].content[k] == b || a in Reach(g, b, tb)
  {
    if g[a].content[k] != b {
      var q, l := HeldWithin(g, b, tb, g[a].content[k]);
      LaidWithin(g, nodes, rank, shared, b, tb);
      assert Entry(g, nodes, q, l) && Entry(g, nodes, a, k);
      SameEntry(g, nodes, shared, a, k, q, l, ta.children[k]);
    }
  }

  lemma {:induction false} ContentWithin<T>(h: Heap<T>, n: T, u: Tree)
    requires Repr(h, n, u)
    ensures forall p, c :: p in Reach(h, n, u) && p in h && c in h[p].content ==> c in Reach(h, n, u)
    ensures Reach(h, n, u) <= h.Keys
  {
    ReachInHeap(h, n, u);
    forall p, c | p in Reach(h, n, u) && c in h[p].content
      ensures c in Reach(h, n, u)
    {
      var i: nat :| i < |h[p].content| && h[p].content[i] == c;
      PointsWithin(h, n, u, p, i);
    }
  }

  /** What is met from a node of a closed set is in the set. */
  lemma {:induction false} ReachClosed<T>(h: Heap<T>, nodes: set<T>, n: T, t: Tree)
    requires Repr(h, n, t) && n in nodes && forall p, c :: p in nodes && p in h && c in h[p].content ==> c in nodes
    ensures Reach(h, n, t) <= nodes
    decreases t
  {
    forall i | 0 <= i < |t.children|
      ensures Reach(h, h[n].content[i], t.children[i]) <= nodes
    {
      ReachClosed(h, nodes, h[n].content[i], t.children[i]);
    }
  }

  /** No tree on the way of the path, where it leads somewhere, is one of the trees. */
  ghost predicate Clear(t: Tree, path: seq<Move>, shared: set<Tree>)
    decreases |path|
  {
    Found(t, path) ==>
      && t !in shared
      && (path == [] ||
          forall i :: 0 <= i < |t.children| && Selects(t.kind, Values(t.children), path[0], i) ==>
            Clear(t.children[i], path[1..], shared))
  }

  /** No part of the tree is one of the trees. */
  ghost predicate Free(t: Tree, shared: set<Tree>) {
    t !in shared && forall c :: c in t.children ==> Free(c, shared)
  }

  lemma {:induction false} SpotFound<T>(g: Heap<T>, n: T, t: Tree, path: seq<Move>, s: Spot<T>)
    requires Repr(g, n, t) && s in Spots(g, n, t, path)
    ensures Found(t, path)
  {
    SpotsLookup(g, n, t, path);
    FoundIsLookup(t, path);
  }

  /** Of two nodes that both lead to the place one leads to the other. */
  lemma {:induction false} Related<T>(g: Heap<T>, nodes: set<T>, rank: map<T, nat>, shared: set<Tree>, a: T, ta: Tree,
                                      path: seq<Move>, s: Spot<T>, b: T, tb: Tree)
    requires Laid(g, nodes, rank, shared) && a in nodes && Repr(g, a, ta) && Clear(ta, path, shared)
    requires s in Spots(g, a, ta, path) && b in nodes && Repr(g, b, tb) && s.node in Reach(g, b, tb)
    ensures a in Reach(g, b, tb) || b in Reach(g, a, ta)
    ensures tb in shared ==> a in Reach(g, b, tb) && a != b
    decreases |path|
  {
    SpotFound(g, a, ta, path, s);
    assert ta !in shared;
    if a == b {
      OneTree(g, a, ta, tb);
      ReachInHeap(g, a, ta);
    } else if path != [] {
      SpotsMembers(g, a, ta, path, s);
      var k: nat :| SpotBelow(g, a, ta, path, s, k);
      var c, tc := g[a].content[k], ta.children[k];
      SpotFound(g, c, tc, path[1..], s);
      ChildRanked(g, nodes, rank, a, ta, k);
      ReachChild(g, a, ta, k);
      hide Clear, Found, Spots, Ranked, Laid;
      Related(g, nodes, rank, shared, c, tc, path[1..], s, b, tb);
      assert tc !in shared by { ClearAt(tc, path[1..], shared); }
      if c in Reach(g, b, tb) {
        OneUp(g, nodes, rank, shared, a, ta, k, b, tb);
        ReachInHeap(g, c, tc);
      }
    }
  }

  lemma {:induction false} ClearAt(t: Tree, path: seq<Move>, shared: set<Tree>)
    requires Clear(t, path, shared) && Found(t, path)
    ensures t !in shared
  {
  }

  lemma {:induction false} ClearBelow(t: Tree, path: seq<Move>, shared: set<Tree>, i: nat)
    requires Clear(t, path, shared) && path != [] && i < |t.children| && Selects(t.kind, Values(t.children), path[0], i)
    ensures Clear(t.children[i], path[1..], shared)
  {
  }

  /** Where a path keeps clear of the trees, its places are met once. */
  lemma {:induction false} ClearLone<T>(g: Heap<T>, nodes: set<T>, rank: map<T, nat>, shared: set<Tree>, n: T, t: Tree,
                                        path: seq<Move>)
    requires Laid(g, nodes, rank, shared) && n in nodes && Repr(g, n, t) && Clear(t, path, shared)
    ensures Lone(g, n, t, path)
    decreases |path|
  {
    if path == [] {
      LaidWithin(g, nodes, rank, shared, n, t);
      forall q | q in Reach(g, n, t)
        ensures q in g && n !in g[q].content
      {
        ReachRanked(g, nodes, rank, n, t, q);
      }
    } else {
      forall i: nat | i < |t.children| && Selects(t.kind, Values(t.children), path[0], i)
        ensures LoneAt(g, n, t, path, i)
      {
        ClearLoneAt(g, nodes, rank, shared, n, t, path, i);
      }
    }
  }

  lemma {:induction false} ClearLoneAt<T>(g: Heap<T>, nodes: set<T>, rank: map<T, nat>, shared: set<Tree>, n: T,
                                          t: Tree, path: seq<Move>, i: nat)
    requires Laid(g, nodes, rank, shared) && n in nodes && Repr(g, n, t) && Clear(t, path, shared) && path != []
    requires i < |t.children| && Selects(t.kind, Values(t.children), path[0], i)
    ensures LoneAt(g, n, t, path, i)
    decreases |path|, 0
  {
    var c, tc := g[n].content[i], t.children[i];
    ChildRanked(g, nodes, rank, n, t, i);
    ClearBelow(t, path, shared, i);
    hide Clear, Found, Spots, Laid, Lone, Ranked;
    ClearLone(g, nodes, rank, shared, c, tc, path[1..]);
    forall s | s in Spots(g, c, tc, path[1..])
      ensures s.node != n && NotBesides(g, n, t, i, s.node)
    {
      SpotBeneath(g, nodes, rank, shared, n, t, path, i, s);
      forall j | 0 <= j < |t.children| && j != i
        ensures s.node !in Reach(g, g[n].content[j], t.children[j])
      {
        if s.node in Reach(g, g[n].content[j], t.children[j]) {
          BesideApart(g, nodes, rank, shared, n, t, path, i, s, j);
        }
      }
    }
  }

  lemma {:induction false} SpotBeneath<T>(g: Heap<T>, nodes: set<T>, rank: map<T, nat>, shared: set<Tree>, n: T,
                                          t: Tree, path: seq<Move>, i: nat, s: Spot<T>)
    requires Laid(g, nodes, rank, shared) && n in nodes && Repr(g, n, t) && path != [] && i < |t.children|
    requires s in Spots(g, g[n].content[i], t.children[i], path[1..])
    ensures s.node != n
  {
    ChildRanked(g, nodes, rank, n, t, i);
    SpotsRanked(g, nodes, rank, g[n].content[i], t.children[i], path[1..], s);
  }

  /** A clear place below one child is not met below another. */
  lemma {:induction false} BesideApart<T>(g: Heap<T>, nodes: set<T>, rank: map<T, nat>, shared: set<Tree>, n: T,
                                          t: Tree, path: seq<Move>, i: nat, s: Spot<T>, j: nat)
    requires Laid(g, nodes, rank, shared) && n in nodes && Repr(g, n, t) && path != [] && i < |t.children|
    requires Clear(t.children[i], path[1..], shared) && s in Spots(g, g[n].content[i], t.children[i], path[1..])
    requires j < |t.children| && j != i
    ensures s.node !in Reach(g, g[n].content[j], t.children[j])
  {
    if s.node in Reach(g, g[n].content[j], t.children[j]) {
      ChildRanked(g, nodes, rank, n, t, i);
      ChildRanked(g, nodes, rank, n, t, j);
      SpotFound(g, g[n].content[i], t.children[i], path[1..], s);
      Related(g, nodes, rank, shared, g[n].content[i], t.children[i], path[1..], s, g[n].content[j], t.children[j]);
      Siblings(g, nodes, rank, shared, n, t, i, j);
    }
  }

  /** A child that stands for none of the trees is not met below another child, nor the other below it. */
  lemma {:induction false} Siblings<T>(g: Heap<T>, nodes: set<T>, rank: map<T, nat>, shared: set<Tree>, n: T, t: Tree,
                                       i: nat, j: nat)
    requires Laid(g, nodes, rank, shared) && n in nodes && Repr(g, n, t)
    requires i < |t.children| && j < |t.children| && i != j && t.children[i] !in shared
    ensures g[n].content[i] !in Reach(g, g[n].content[j], t.children[j])
    ensures g[n].content[j] !in Reach(g, g[n].content[i], t.children[i])
  {
    var a, b := g[n].content[i], g[n].content[j];
    ChildRanked(g, nodes, rank, n, t, i);
    ChildRanked(g, nodes, rank, n, t, j);
    if a in Reach(g, b, t.children[j]) {
      ReachRanked(g, nodes, rank, b, t.children[j], a);
    }
    if b in Reach(g, a, t.children[i]) {
      ReachRanked(g, nodes, rank, a, t.children[i], b);
    }
    if a == b {
      assert Entry(g, nodes, n, i) && Entry(g, nodes, n, j);
      SameEntry(g, nodes, shared, n, i, n, j, t.children[i]);
    }
  }

  // ----- places without any of the trees in them

  /** A clear path whose places contain none of the trees. */
  ghost predicate Open(t: Tree, path: seq<Move>, shared: set<Tree>)
    decreases |path|
  {
    Found(t, path) ==>
      if path == [] then Free(t, shared)
      else
        && t !in shared
        && forall i :: 0 <= i < |t.children| && Selects(t.kind, Values(t.children), path[0], i) ==>
             Open(t.children[i], path[1..], shared)
  }

  lemma {:induction false} OpenClear(t: Tree, path: seq<Move>, shared: set<Tree>)
    requires Open(t, path, shared)
    ensures Clear(t, path, shared)
    decreases |path|
  {
    if path != [] {
      forall i | 0 <= i < |t.children| && Selects(t.kind, Values(t.children), path[0], i) && Found(t, path)
        ensures Clear(t.children[i], path[1..], shared)
      {
        OpenClear(t.children[i], path[1..], shared);
      }
    }
  }

  lemma {:induction false} OpenBelow(t: Tree, path: seq<Move>, shared: set<Tree>, i: nat)
    requires Open(t, path, shared) && path != [] && i < |t.children| && Selects(t.kind, Values(t.children), path[0], i)
    ensures Open(t.children[i], path[1..], shared)
  {
  }

  /** Of two nodes that both lead to a node one leads to the other, if the one contains none of the trees. */
  lemma {:induction false} RelatedFree<T>(g: Heap<T>, nodes: set<T>, rank: map<T, nat>, shared: set<Tree>, a: T,
                                          ta: Tree, x: T, b: T, tb: Tree)
    requires Laid(g, nodes, rank, shared) && a in nodes && Repr(g, a, ta) && Free(ta, shared) && x in Reach(g, a, ta)
    requires b in nodes && Repr(g, b, tb) && x in Reach(g, b, tb)
    ensures a in Reach(g, b, tb) || b in Reach(g, a, ta)
    decreases ta
  {
    if x != a {
      var k: nat :| k < |ta.children| && x in Reach(g, g[a].content[k], ta.children[k]);
      var c, tc := g[a].content[k], ta.children[k];
      assert tc in ta.children;
      ChildRanked(g, nodes, rank, a, ta, k);
      ReachChild(g, a, ta, k);
      RelatedFree(g, nodes, rank, shared, c, tc, x, b, tb);
      if c in Reach(g, b, tb) {
        OneUp(g, nodes, rank, shared, a, ta, k, b, tb);
        ReachInHeap(g, c, tc);
      }
    }
  }

  lemma {:induction false} FreeShaped<T>(g: Heap<T>, nodes: set<T>, rank: map<T, nat>, shared: set<Tree>, n: T, t: Tree)
    requires Laid(g, nodes, rank, shared) && n in nodes && Repr(g, n, t) && Free(t, shared)
    ensures TreeShaped(g, n, t)
    decreases t
  {
    forall i | 0 <= i < |t.children|
      ensures TreeShaped(g, g[n].content[i], t.children[i]) && n !in Reach(g, g[n].content[i], t.children[i])
    {
      assert t.children[i] in t.children;
      ChildRanked(g, nodes, rank, n, t, i);
      FreeShaped(g, nodes, rank, shared, g[n].content[i], t.children[i]);
      if n in Reach(g, g[n].content[i], t.children[i]) {
        ReachRanked(g, nodes, rank, g[n].content[i], t.children[i], n);
      }
    }
    forall i, j | 0 <= i < j < |t.children|
      ensures Reach(g, g[n].content[i], t.children[i]) !! Reach(g, g[n].content[j], t.children[j])
    {
      FreeSiblings(g, nodes, rank, shared, n, t, i, j);
    }
  }

  lemma {:induction false} FreeSiblings<T>(g: Heap<T>, nodes: set<T>, rank: map<T, nat>, shared: set<Tree>, n: T,
                                           t: Tree, i: nat, j: nat)
    requires Laid(g, nodes, rank, shared) && n in nodes && Repr(g, n, t) && Free(t, shared)
    requires i < j < |t.children|
    ensures Reach(g, g[n].content[i], t.children[i]) !! Reach(g, g[n].content[j], t.children[j])
  {
    ChildRanked(g, nodes, rank, n, t, i);
    ChildRanked(g, nodes, rank, n, t, j);
    assert t.children[i] in t.children;
    Siblings(g, nodes, rank, shared, n, t, i, j);
    forall x | x in Reach(g, g[n].content[i], t.children[i])
      ensures x !in Reach(g, g[n].content[j], t.children[j])
    {
      if x in Reach(g, g[n].content[j], t.children[j]) {
        RelatedFree(g, nodes, rank, shared, g[n].content[i], t.children[i], x, g[n].content[j], t.children[j]);
      }
    }
  }

  lemma {:induction false} RelatedOpen<T>(g: Heap<T>, nodes: set<T>, rank: map<T, nat>, shared: set<Tree>, a: T,
                                          ta: Tree, path: seq<Move>, s: Spot<T>, x: T, b: T, tb: Tree)
    requires Laid(g, nodes, rank, shared) && a in nodes && Repr(g, a, ta) && Open(ta, path, shared)
    requires s in Spots(g, a, ta, path) && Repr(g, s.node, s.tree) && x in Reach(g, s.node, s.tree)
    requires b in nodes && Repr(g, b, tb) && x in Reach(g, b, tb)
    ensures a in Reach(g, b, tb) || b in Reach(g, a, ta)
    decreases |path|
  {
    SpotFound(g, a, ta, path, s);
    if path == [] {
      RelatedFree(g, nodes, rank, shared, a, ta, x, b, tb);
    } else {
      SpotsMembers(g, a, ta, path, s);
      var k: nat :| SpotBelow(g, a, ta, path, s, k);
      var c, tc := g[a].content[k], ta.children[k];
      SpotFound(g, c, tc, path[1..], s);
      ChildRanked(g, nodes, rank, a, ta, k);
      ReachChild(g, a, ta, k);
      OpenBelow(ta, path, shared, k);
      hide Open, Found, Spots, Ranked, Laid;
      RelatedOpen(g, nodes, rank, shared, c, tc, path[1..], s, x, b, tb);
      assert tc !in shared by { OpenClear(tc, path[1..], shared); ClearAt(tc, path[1..], shared); }
      if c in Reach(g, b, tb) {
        OneUp(g, nodes, rank, shared, a, ta, k, b, tb);
        ReachInHeap(g, c, tc);
      }
    }
  }

  /** The places of an open path share no node with anything else. */
  lemma {:induction false} OpenSole<T>(g: Heap<T>, nodes: set<T>, rank: map<T, nat>, shared: set<Tree>, n: T, t: Tree,
                                       path: seq<Move>)
    requires Laid(g, nodes, rank, shared) && n in nodes && Repr(g, n, t) && Open(t, path, shared)
    ensures Sole(g, n, t, path)
    decreases |path|
  {
    if path == [] {
      FreeShaped(g, nodes, rank, shared, n, t);
    } else {
      forall i: nat | i < |t.children| && Selects(t.kind, Values(t.children), path[0], i)
        ensures SoleAt(g, n, t, path, i)
      {
        ChildRanked(g, nodes, rank, n, t, i);
        OpenBelow(t, path, shared, i);
        hide Open, Sole, Spots, Laid, Ranked;
        OpenSole(g, nodes, rank, shared, g[n].content[i], t.children[i], path[1..]);
        forall s | s in Spots(g, g[n].content[i], t.children[i], path[1..])
          ensures Island(g, n, t, i, s)
        {
          OpenIsland(g, nodes, rank, shared, n, t, path, i, s);
        }
      }
    }
  }

  lemma {:induction false} OpenIsland<T>(g: Heap<T>, nodes: set<T>, rank: map<T, nat>, shared: set<Tree>, n: T, t: Tree,
                                         path: seq<Move>, i: nat, s: Spot<T>)
    requires Laid(g, nodes, rank, shared) && n in nodes && Repr(g, n, t) && path != [] && i < |t.children|
    requires Open(t.children[i], path[1..], shared) && s in Spots(g, g[n].content[i], t.children[i], path[1..])
    ensures Island(g, n, t, i, s)
  {
    ChildRanked(g, nodes, rank, n, t, i);
    SpotInReach(g, g[n].content[i], t.children[i], path[1..], s);
    if n in Reach(g, s.node, s.tree) {
      ReachRanked(g, nodes, rank, g[n].content[i], t.children[i], n);
    }
    forall j | 0 <= j < |t.children| && j != i
      ensures Reach(g, s.node, s.tree) !! Reach(g, g[n].content[j], t.children[j])
    {
      OpenBeside(g, nodes, rank, shared, n, t, path, i, s, j);
    }
  }

  lemma {:induction false} OpenBeside<T>(g: Heap<T>, nodes: set<T>, rank: map<T, nat>, shared: set<Tree>, n: T, t: Tree,
                                         path: seq<Move>, i: nat, s: Spot<T>, j: nat)
    requires Laid(g, nodes, rank, shared) && n in nodes && Repr(g, n, t) && path != [] && i < |t.children|
    requires Open(t.children[i], path[1..], shared) && s in Spots(g, g[n].content[i], t.children[i], path[1..])
    requires Repr(g, s.node, s.tree) && j < |t.children| && j != i
    ensures Reach(g, s.node, s.tree) !! Reach(g, g[n].content[j], t.children[j])
  {
    ChildRanked(g, nodes, rank, n, t, i);
    ChildRanked(g, nodes, rank, n, t, j);
    SpotFound(g, g[n].content[i], t.children[i], path[1..], s);
    OpenClear(t.children[i], path[1..], shared);
    ClearAt(t.children[i], path[1..], shared);
    Siblings(g, nodes, rank, shared, n, t, i, j);
    hide Open, Clear, Found, Spots, Laid, Ranked;
    forall x | x in Reach(g, s.node, s.tree)
      ensures x !in Reach(g, g[n].content[j], t.children[j])
    {
      if x in Reach(g, g[n].content[j], t.children[j]) {
        RelatedOpen(g, nodes, rank, shared, g[n].content[i], t.children[i], path[1..], s, x, g[n].content[j],
            t.children[j]);
      }
    }
  }

  // ----- documents without any of the trees

  /** Without trees to share, laid out documents are the documents without sharing. */
  lemma {:induction false} NothingShared<T>(g: Heap<T>, n: T, t: Tree, rank: map<T, nat>)
    requires LaidDoc(g, n, t, rank, {})
    ensures TreeShaped(g, n, t)
  {
    ReachInHeap(g, n, t);
    FreeOfNothing(t);
    FreeShaped(g, Reach(g, n, t), rank, {}, n, t);
  }

  lemma {:induction false} FreeOfNothing(t: Tree)
    ensures Free(t, {})
    decreases t
  {
    forall c | c in t.children
      ensures Free(c, {})
    {
      FreeOfNothing(c);
    }
  }

  lemma {:induction false} OpenOfNothing(t: Tree, path: seq<Move>)
    ensures Open(t, path, {})
    decreases |path|
  {
    if path == [] {
      FreeOfNothing(t);
    } else {
      forall i | 0 <= i < |t.children|
        ensures Open(t.children[i], path[1..], {})
      {
        OpenOfNothing(t.children[i], path[1..]);
      }
    }
  }
}
