/**
 A heap of YAML nodes at one moment, which tree a node stands for, and how edits of single nodes change
 that tree. The type T stands for node identities.
 */
module Graph {
  import opened Trees

  datatype Rec<T> = Rec(kind: Kind, value: string, content: seq<T>)

  type Heap<T> = map<T, Rec<T>>

  /** The node stands for the tree. */
  ghost predicate Repr<T>(g: Heap<T>, n: T, t: Tree)
    decreases t
  {
    && n in g && g[n].kind == t.kind && g[n].value == t.value && |g[n].content| == |t.children|
    && forall i :: 0 <= i < |t.children| ==> Repr(g, g[n].content[i], t.children[i])
  }

  /** The nodes the tree is made of. */
  ghost function Reach<T>(g: Heap<T>, n: T, t: Tree): set<T>
    requires Repr(g, n, t)
    decreases t
  {
    {n} + set i, x | 0 <= i < |t.children| && x in Reach(g, g[n].content[i], t.children[i]) :: x
  }

  /** No node occurs twice in the tree. */
  ghost predicate TreeShaped<T>(g: Heap<T>, n: T, t: Tree)
    requires Repr(g, n, t)
    decreases t
  {
    && (forall i :: 0 <= i < |t.children| ==> TreeShaped(g, g[n].content[i], t.children[i]))
    && (forall i :: 0 <= i < |t.children| ==> n !in Reach(g, g[n].content[i], t.children[i]))
    && (forall i, j :: 0 <= i < j < |t.children| ==>
         Reach(g, g[n].content[i], t.children[i]) !! Reach(g, g[n].content[j], t.children[j]))
  }

  lemma {:induction false} ReachChild<T>(g: Heap<T>, n: T, t: Tree, i: nat)
    requires Repr(g, n, t) && i < |t.children|
    ensures Repr(g, g[n].content[i], t.children[i])
    ensures Reach(g, g[n].content[i], t.children[i]) <= Reach(g, n, t)
  {
  }

  lemma {:induction false} ReachInHeap<T>(g: Heap<T>, n: T, t: Tree)
    requires Repr(g, n, t)
    ensures Reach(g, n, t) <= g.Keys && n in Reach(g, n, t)
    decreases t
  {
    forall i | 0 <= i < |t.children|
      ensures Reach(g, g[n].content[i], t.children[i]) <= g.Keys
    {
      ReachInHeap(g, g[n].content[i], t.children[i]);
    }
  }

  /** Two heaps agree on a set of nodes. */
  ghost predicate Same<T>(g: Heap<T>, g': Heap<T>, nodes: set<T>) {
    forall x :: x in nodes ==> x in g && x in g' && g'[x] == g[x]
  }

  /** A tree is untouched by changes outside of it. */
  lemma {:induction false} ReprFrame<T>(g: Heap<T>, g': Heap<T>, n: T, t: Tree)
    requires Repr(g, n, t) && Same(g, g', Reach(g, n, t))
    ensures Repr(g', n, t) && Reach(g', n, t) == Reach(g, n, t)
    ensures TreeShaped(g, n, t) ==> TreeShaped(g', n, t)
    decreases t
  {
    forall i | 0 <= i < |t.children|
      ensures Repr(g', g[n].content[i], t.children[i])
      ensures Reach(g', g[n].content[i], t.children[i]) == Reach(g, g[n].content[i], t.children[i])
      ensures TreeShaped(g, g[n].content[i], t.children[i]) ==> TreeShaped(g', g[n].content[i], t.children[i])
    {
      ReachChild(g, n, t, i);
      ReprFrame(g, g', g[n].content[i], t.children[i]);
    }
  }

  // ----- what a path leads to

  /** A place a path leads to: the node there and the tree it stands for. */
  datatype Spot<T> = Spot(node: T, tree: Tree)

  /** The places a path leads to, in document order. */
  ghost function Spots<T>(g: Heap<T>, n: T, t: Tree, path: seq<Move>): seq<Spot<T>>
    requires Repr(g, n, t)
    decreases |path|, |t.children| + 1
  {
    if path == [] then [Spot(n, t)] else SpotsFrom(g, n, t, path, 0)
  }

  ghost function SpotsFrom<T>(g: Heap<T>, n: T, t: Tree, path: seq<Move>, i: nat): seq<Spot<T>>
    requires Repr(g, n, t) && path != [] && i <= |t.children|
    decreases |path|, |t.children| - i
  {
    if i == |t.children| then []
    else
      (if Selects(t.kind, Values(t.children), path[0], i) then Spots(g, g[n].content[i], t.children[i], path[1..])
          else [])
      + SpotsFrom(g, n, t, path, i + 1)
  }

  /** The place lies below a selected child. */
  ghost predicate SpotBelow<T>(g: Heap<T>, n: T, t: Tree, path: seq<Move>, s: Spot<T>, i: nat)
    requires Repr(g, n, t) && path != []
  {
    && i < |t.children| && Selects(t.kind, Values(t.children), path[0], i)
    && s in Spots(g, g[n].content[i], t.children[i], path[1..])
  }

  lemma {:induction false} SpotsFromMembers<T>(g: Heap<T>, n: T, t: Tree, path: seq<Move>, i: nat, s: Spot<T>)
    requires Repr(g, n, t) && path != [] && i <= |t.children|
    ensures s in SpotsFrom(g, n, t, path, i) <==> exists j: nat :: i <= j && SpotBelow(g, n, t, path, s, j)
    decreases |t.children| - i
  {
    if i < |t.children| {
      SpotsFromMembers(g, n, t, path, i + 1, s);
      if s in SpotsFrom(g, n, t, path, i) && s !in SpotsFrom(g, n, t, path, i + 1) {
        assert SpotBelow(g, n, t, path, s, i);
      }
    }
  }

  lemma {:induction false} SpotsMembers<T>(g: Heap<T>, n: T, t: Tree, path: seq<Move>, s: Spot<T>)
    requires Repr(g, n, t) && path != []
    ensures s in Spots(g, n, t, path) <==> exists j: nat :: SpotBelow(g, n, t, path, s, j)
  {
    SpotsFromMembers(g, n, t, path, 0, s);
  }

  lemma {:induction false} SpotInReach<T>(g: Heap<T>, n: T, t: Tree, path: seq<Move>, s: Spot<T>)
    requires Repr(g, n, t) && s in Spots(g, n, t, path)
    ensures Repr(g, s.node, s.tree) && Reach(g, s.node, s.tree) <= Reach(g, n, t)
    decreases |path|
  {
    if path != [] {
      SpotsMembers(g, n, t, path, s);
      var i: nat :| SpotBelow(g, n, t, path, s, i);
      SpotInReach(g, g[n].content[i], t.children[i], path[1..], s);
      ReachChild(g, n, t, i);
    }
  }

  /** The places stand for the trees the path leads to. */
  lemma {:induction false} SpotsLookup<T>(g: Heap<T>, n: T, t: Tree, path: seq<Move>)
    requires Repr(g, n, t)
    ensures TreesOf(Spots(g, n, t, path)) == Lookup(t, path)
    decreases |path|, |t.children| + 1
  {
    if path != [] {
      SpotsFromLookup(g, n, t, path, 0);
    }
  }

  function TreesOf<T>(spots: seq<Spot<T>>): seq<Tree> {
    seq(|spots|, i requires 0 <= i < |spots| => spots[i].tree)
  }

  lemma {:induction false} SpotsFromLookup<T>(g: Heap<T>, n: T, t: Tree, path: seq<Move>, i: nat)
    requires Repr(g, n, t) && path != [] && i <= |t.children|
    ensures TreesOf(SpotsFrom(g, n, t, path, i)) == LookupFrom(t, path, i)
    decreases |path|, |t.children| - i
  {
    if i < |t.children| {
      SpotsFromLookup(g, n, t, path, i + 1);
      if Selects(t.kind, Values(t.children), path[0], i) {
        SpotsLookup(g, g[n].content[i], t.children[i], path[1..]);
      }
    }
  }

  lemma {:induction false} SpotsFrame<T>(g: Heap<T>, g': Heap<T>, n: T, t: Tree, path: seq<Move>)
    requires Repr(g, n, t) && Same(g, g', Reach(g, n, t))
    ensures Repr(g', n, t) && Spots(g', n, t, path) == Spots(g, n, t, path)
    decreases |path|, |t.children| + 1
  {
    ReprFrame(g, g', n, t);
    if path != [] {
      SpotsFromFrame(g, g', n, t, path, 0);
    }
  }

  lemma {:induction false} SpotsFromFrame<T>(g: Heap<T>, g': Heap<T>, n: T, t: Tree, path: seq<Move>, i: nat)
    requires Repr(g, n, t) && Repr(g', n, t) && Same(g, g', Reach(g, n, t)) && path != [] && i <= |t.children|
    ensures SpotsFrom(g', n, t, path, i) == SpotsFrom(g, n, t, path, i)
    decreases |path|, |t.children| - i
  {
    if i < |t.children| {
      hide Reach, Same, TreeShaped;
      SpotsFromFrame(g, g', n, t, path, i + 1);
      ChildFrame(g, g', n, t, i);
      SpotsFrame(g, g', g[n].content[i], t.children[i], path[1..]);
    }
  }

  lemma {:induction false} ChildFrame<T>(g: Heap<T>, g': Heap<T>, n: T, t: Tree, i: nat)
    requires Repr(g, n, t) && Repr(g', n, t) && Same(g, g', Reach(g, n, t)) && i < |t.children|
    ensures g'[n] == g[n] && Repr(g, g[n].content[i], t.children[i]) && Repr(g', g[n].content[i], t.children[i])
    ensures Same(g, g', Reach(g, g[n].content[i], t.children[i]))
  {
    ReachChild(g, n, t, i);
  }

  // ----- documents in which the places a path leads to are not shared

  /** Every place the path leads to is met once in the tree. */
  ghost predicate Lone<T>(g: Heap<T>, n: T, t: Tree, path: seq<Move>)
    requires Repr(g, n, t)
    decreases |path|, 1
  {
    if path == [] then forall q :: q in Reach(g, n, t) ==> q in g && n !in g[q].content
    else forall i: nat :: i < |t.children| && Selects(t.kind, Values(t.children), path[0], i) ==>
        LoneAt(g, n, t, path, i)
  }

  ghost predicate LoneAt<T>(g: Heap<T>, n: T, t: Tree, path: seq<Move>, i: nat)
    requires Repr(g, n, t) && path != [] && i < |t.children|
    decreases |path|, 0
  {
    && Lone(g, g[n].content[i], t.children[i], path[1..])
    && forall s :: s in Spots(g, g[n].content[i], t.children[i], path[1..]) ==>
         s.node != n && NotBesides(g, n, t, i, s.node)
  }

  ghost predicate NotBesides<T>(g: Heap<T>, n: T, t: Tree, i: nat, x: T)
    requires Repr(g, n, t)
  {
    forall j :: 0 <= j < |t.children| && j != i ==> x !in Reach(g, g[n].content[j], t.children[j])
  }

  /** A place whose node is met under child i lies below child i. */
  lemma {:induction false} OwnSpot<T>(g: Heap<T>, n: T, t: Tree, path: seq<Move>, s: Spot<T>, i: nat)
    requires Repr(g, n, t) && Lone(g, n, t, path) && path != [] && i < |t.children|
    requires s in Spots(g, n, t, path) && s.node in Reach(g, g[n].content[i], t.children[i])
    ensures SpotBelow(g, n, t, path, s, i)
  {
    SpotsMembers(g, n, t, path, s);
    var j: nat :| SpotBelow(g, n, t, path, s, j);
    assert LoneAt(g, n, t, path, j);
    assert i == j;
  }

  lemma {:induction false} SpotNotRoot<T>(g: Heap<T>, n: T, t: Tree, path: seq<Move>, s: Spot<T>)
    requires Repr(g, n, t) && Lone(g, n, t, path) && path != [] && s in Spots(g, n, t, path)
    ensures s.node != n
  {
    SpotsMembers(g, n, t, path, s);
    var j: nat :| SpotBelow(g, n, t, path, s, j);
    assert LoneAt(g, n, t, path, j);
  }

  /** No place lies inside another. */
  lemma {:induction false} NotNested<T>(g: Heap<T>, n: T, t: Tree, path: seq<Move>, s: Spot<T>, x: Spot<T>)
    requires Repr(g, n, t) && Lone(g, n, t, path) && s in Spots(g, n, t, path) && x in Spots(g, n, t, path)
    requires Repr(g, s.node, s.tree) && x.node in Reach(g, s.node, s.tree)
    ensures x == s
    decreases |path|
  {
    if path != [] {
      SpotsMembers(g, n, t, path, s);
      var i: nat :| SpotBelow(g, n, t, path, s, i);
      assert LoneAt(g, n, t, path, i);
      SpotInReach(g, g[n].content[i], t.children[i], path[1..], s);
      OwnSpot(g, n, t, path, x, i);
      NotNested(g, g[n].content[i], t.children[i], path[1..], s, x);
    }
  }

  ghost predicate DistinctNodes<T>(spots: seq<Spot<T>>) {
    forall i, j :: 0 <= i < j < |spots| ==> spots[i].node != spots[j].node
  }

  lemma {:induction false} SpotsDistinct<T>(g: Heap<T>, n: T, t: Tree, path: seq<Move>)
    requires Repr(g, n, t) && Lone(g, n, t, path)
    ensures DistinctNodes(Spots(g, n, t, path))
    decreases |path|, |t.children| + 1
  {
    if path != [] {
      SpotsFromDistinct(g, n, t, path, 0);
    }
  }

  lemma {:induction false} SpotsFromDistinct<T>(g: Heap<T>, n: T, t: Tree, path: seq<Move>, i: nat)
    requires Repr(g, n, t) && Lone(g, n, t, path) && path != [] && i <= |t.children|
    ensures DistinctNodes(SpotsFrom(g, n, t, path, i))
    decreases |path|, |t.children| - i
  {
    if i < |t.children| {
      SpotsFromDistinct(g, n, t, path, i + 1);
      if Selects(t.kind, Values(t.children), path[0], i) {
        assert LoneAt(g, n, t, path, i);
        SpotsDistinct(g, g[n].content[i], t.children[i], path[1..]);
        var first := Spots(g, g[n].content[i], t.children[i], path[1..]);
        var later := SpotsFrom(g, n, t, path, i + 1);
        forall s | s in later
          ensures s.node in Reach(g, n, t) && !exists r :: r in first && r.node == s.node
        {
          SpotsFromMembers(g, n, t, path, i + 1, s);
          var j: nat :| i + 1 <= j && SpotBelow(g, n, t, path, s, j);
          SpotInReach(g, g[n].content[j], t.children[j], path[1..], s);
          ReachChild(g, n, t, j);
        }
        ConcatDistinct(first, later);
      }
    }
  }

  lemma {:induction false} ConcatDistinct<T>(a: seq<Spot<T>>, b: seq<Spot<T>>)
    requires DistinctNodes(a) && DistinctNodes(b)
    requires forall s :: s in b ==> !exists r :: r in a && r.node == s.node
    ensures DistinctNodes(a + b)
  {
    forall i, j | 0 <= i < j < |a + b|
      ensures (a + b)[i].node != (a + b)[j].node
    {
      if i < |a| <= j {
        assert a[i] in a && b[j - |a|] in b;
      }
    }
  }

  /** Only one content list holds the node of a place, and only once. */
  lemma {:induction false} OneParent<T>(g: Heap<T>, n: T, t: Tree, path: seq<Move>, s: Spot<T>, p: T, q: T, i: nat,
                                        j: nat)
    requires Repr(g, n, t) && Lone(g, n, t, path) && s in Spots(g, n, t, path)
    requires p in Reach(g, n, t) && p in g && i < |g[p].content| && g[p].content[i] == s.node
    requires q in Reach(g, n, t) && q in g && j < |g[q].content| && g[q].content[j] == s.node
    ensures p == q && i == j
    decreases |path|, 1
  {
    if path == [] {
      NotInside(g, n, t, path, s, p, i);
    } else {
      OneBranch(g, n, t, path, s, p, q, i, j);
    }
  }

  lemma {:induction false} OneBranch<T>(g: Heap<T>, n: T, t: Tree, path: seq<Move>, s: Spot<T>, p: T, q: T, i: nat,
                                        j: nat)
    requires Repr(g, n, t) && Lone(g, n, t, path) && path != [] && s in Spots(g, n, t, path)
    requires p in Reach(g, n, t) && p in g && i < |g[p].content| && g[p].content[i] == s.node
    requires q in Reach(g, n, t) && q in g && j < |g[q].content| && g[q].content[j] == s.node
    ensures p == q && i == j
    decreases |path|, 0
  {
    var a := Branch(g, n, t, p, i);
    var b := Branch(g, n, t, q, j);
    OwnSpot(g, n, t, path, s, a);
    assert LoneAt(g, n, t, path, a);
    assert a == b;
    if p != n && q != n {
      OneParent(g, g[n].content[a], t.children[a], path[1..], s, p, q, i, j);
    } else if p != n {
      NotInside(g, g[n].content[a], t.children[a], path[1..], s, p, i);
    } else if q != n {
      NotInside(g, g[n].content[a], t.children[a], path[1..], s, q, j);
    }
  }

  /** The root of a part is not met inside it as a place. */
  lemma {:induction false} NotInside<T>(g: Heap<T>, n: T, t: Tree, path: seq<Move>, s: Spot<T>, p: T, i: nat)
    requires Repr(g, n, t) && Lone(g, n, t, path) && s in Spots(g, n, t, path)
    requires p in Reach(g, n, t) && p in g && i < |g[p].content| && g[p].content[i] == s.node
    ensures s.node != n
  {
    if path == [] {
      assert g[p].content[i] in g[p].content;
    } else {
      SpotNotRoot(g, n, t, path, s);
    }
  }

  /** The branch under which a content list is met: the position itself at the root. */
  lemma {:induction false} Branch<T>(g: Heap<T>, n: T, t: Tree, p: T, i: nat) returns (a: nat)
    requires Repr(g, n, t) && p in Reach(g, n, t) && p in g && i < |g[p].content|
    ensures a < |t.children| && g[p].content[i] in Reach(g, g[n].content[a], t.children[a])
    ensures if p == n then a == i else p in Reach(g, g[n].content[a], t.children[a])
  {
    if p == n {
      a := i;
    } else {
      a :| 0 <= a < |t.children| && p in Reach(g, g[n].content[a], t.children[a]);
      PointsWithin(g, g[n].content[a], t.children[a], p, i);
    }
  }

  /** What a node of the tree points to is in the tree. */
  lemma {:induction false} PointsWithin<T>(g: Heap<T>, n: T, t: Tree, p: T, i: nat)
    requires Repr(g, n, t) && p in Reach(g, n, t) && p in g && i < |g[p].content|
    ensures g[p].content[i] in Reach(g, n, t)
    decreases t
  {
    if p == n {
      ReachChild(g, n, t, i);
      assert g[n].content[i] in Reach(g, g[n].content[i], t.children[i]);
    } else {
      var a: nat :| a < |t.children| && p in Reach(g, g[n].content[a], t.children[a]);
      PointsWithin(g, g[n].content[a], t.children[a], p, i);
      ReachChild(g, n, t, a);
    }
  }

  lemma {:induction false} LoneFrame<T>(g: Heap<T>, g': Heap<T>, n: T, t: Tree, path: seq<Move>)
    requires Repr(g, n, t) && Same(g, g', Reach(g, n, t)) && Lone(g, n, t, path)
    ensures Repr(g', n, t) && Lone(g', n, t, path)
    decreases |path|
  {
    ReprFrame(g, g', n, t);
    if path != [] {
      forall i: nat | i < |t.children|
        ensures Reach(g', g[n].content[i], t.children[i]) == Reach(g, g[n].content[i], t.children[i])
      {
        ReachChild(g, n, t, i);
        ReprFrame(g, g', g[n].content[i], t.children[i]);
      }
      forall i: nat | i < |t.children| && Selects(t.kind, Values(t.children), path[0], i)
        ensures LoneAt(g', n, t, path, i)
      {
        assert LoneAt(g, n, t, path, i);
        ReachChild(g, n, t, i);
        SpotsFrame(g, g', g[n].content[i], t.children[i], path[1..]);
        LoneFrame(g, g', g[n].content[i], t.children[i], path[1..]);
      }
    }
  }

  // ----- sets of nodes that are places of a path

  ghost predicate IsSpot<T>(g: Heap<T>, n: T, t: Tree, path: seq<Move>, x: T)
    requires Repr(g, n, t)
  {
    exists s :: s in Spots(g, n, t, path) && s.node == x
  }

  /** Those of the nodes that the tree holds are places of the path. */
  ghost predicate OnSpots<T>(g: Heap<T>, n: T, t: Tree, path: seq<Move>, nodes: set<T>)
    requires Repr(g, n, t)
  {
    forall x :: x in nodes && x in Reach(g, n, t) ==> IsSpot(g, n, t, path, x)
  }

  lemma {:induction false} OnSpotsBelow<T>(g: Heap<T>, n: T, t: Tree, path: seq<Move>, nodes: set<T>, i: nat)
    requires Repr(g, n, t) && Lone(g, n, t, path) && path != [] && i < |t.children| && OnSpots(g, n, t, path, nodes)
    ensures n !in nodes
    ensures Selects(t.kind, Values(t.children), path[0], i) ==>
              Lone(g, g[n].content[i], t.children[i], path[1..])
                  && OnSpots(g, g[n].content[i], t.children[i], path[1..], nodes)
    ensures !Selects(t.kind, Values(t.children), path[0], i) ==> Reach(g, g[n].content[i], t.children[i]) !! nodes
  {
    OnSpotsRoot(g, n, t, path, nodes);
    if Selects(t.kind, Values(t.children), path[0], i) {
      assert LoneAt(g, n, t, path, i);
    }
    forall x | x in nodes && x in Reach(g, g[n].content[i], t.children[i])
      ensures Selects(t.kind, Values(t.children), path[0], i) && IsSpot(g, g[n].content[i], t.children[i], path[1..], x)
    {
      ReachChild(g, n, t, i);
      assert IsSpot(g, n, t, path, x);
      var s :| s in Spots(g, n, t, path) && s.node == x;
      OwnSpot(g, n, t, path, s, i);
    }
  }

  lemma {:induction false} OnSpotsRoot<T>(g: Heap<T>, n: T, t: Tree, path: seq<Move>, nodes: set<T>)
    requires Repr(g, n, t) && Lone(g, n, t, path) && path != [] && OnSpots(g, n, t, path, nodes)
    ensures n !in nodes
  {
    if n in nodes {
      assert IsSpot(g, n, t, path, n);
      var s :| s in Spots(g, n, t, path) && s.node == n;
      SpotNotRoot(g, n, t, path, s);
    }
  }

  /** The nodes of those among the first k places that meet the condition. */
  ghost function Chosen<T>(spots: seq<Spot<T>>, cond: Tree -> bool, k: nat): set<T>
    requires k <= |spots|
  {
    set j | 0 <= j < k && cond(spots[j].tree) :: spots[j].node
  }

  lemma {:induction false} ChosenOnSpots<T>(g: Heap<T>, n: T, t: Tree, path: seq<Move>, cond: Tree -> bool, k: nat)
    requires Repr(g, n, t) && Lone(g, n, t, path) && k <= |Spots(g, n, t, path)|
    ensures var spots := Spots(g, n, t, path);
      && OnSpots(g, n, t, path, Chosen(spots, cond, k)) && Chosen(spots, cond, k) <= Reach(g, n, t)
      && (k < |spots| ==> spots[k].node !in Chosen(spots, cond, k) && spots[k] in spots)
  {
    var spots := Spots(g, n, t, path);
    SpotsDistinct(g, n, t, path);
    forall x | x in Chosen(spots, cond, k)
      ensures IsSpot(g, n, t, path, x) && x in Reach(g, n, t)
    {
      var j :| 0 <= j < k && cond(spots[j].tree) && spots[j].node == x;
      assert spots[j] in spots;
      SpotInReach(g, n, t, path, spots[j]);
    }
  }

  lemma {:induction false} ChosenNext<T>(spots: seq<Spot<T>>, cond: Tree -> bool, k: nat)
    requires k < |spots|
    ensures Chosen(spots, cond, k + 1) == Chosen(spots, cond, k) + if cond(spots[k].tree) then {spots[k].node} else {}
  {
  }

  lemma {:induction false} ChosenAll<T>(spots: seq<Spot<T>>, cond: Tree -> bool, s: Spot<T>)
    requires DistinctNodes(spots) && s in spots
    ensures s.node in Chosen(spots, cond, |spots|) <==> cond(s.tree)
  {
    var k :| 0 <= k < |spots| && spots[k] == s;
  }

  // ----- documents in which no node is shared

  /** In a document without sharing every path is free of sharing. */
  lemma {:induction false} TreeLone<T>(g: Heap<T>, n: T, t: Tree, path: seq<Move>)
    requires Repr(g, n, t) && TreeShaped(g, n, t)
    ensures Lone(g, n, t, path)
    decreases |path|
  {
    if path == [] {
      forall q | q in Reach(g, n, t)
        ensures q in g && n !in g[q].content
      {
        ReachInHeap(g, n, t);
        if n in g[q].content {
          var i: nat :| i < |g[q].content| && g[q].content[i] == n;
          var _ := Branch(g, n, t, q, i);
        }
      }
    } else {
      forall i: nat | i < |t.children| && Selects(t.kind, Values(t.children), path[0], i)
        ensures LoneAt(g, n, t, path, i)
      {
        TreeLone(g, g[n].content[i], t.children[i], path[1..]);
        forall s | s in Spots(g, g[n].content[i], t.children[i], path[1..])
          ensures s.node != n && NotBesides(g, n, t, i, s.node)
        {
          SpotInReach(g, g[n].content[i], t.children[i], path[1..], s);
        }
      }
    }
  }
}
