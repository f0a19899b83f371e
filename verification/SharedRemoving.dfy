/** When the removals of one patch finish in documents whose nodes are shared. */
module SharedRemoving {
  import opened Strings
  import opened Trees
  import opened Graph
  import opened Removing
  import opened Holders
  import opened Removals

  // ----- documents in which every node has one depth

  /** No node is met at two depths: what a node of the set holds is in the set, one step deeper. */
  ghost predicate Ranked<T>(g: Heap<T>, nodes: set<T>, rank: map<T, nat>) {
    && nodes <= g.Keys && nodes <= rank.Keys
    && forall p, c :: p in nodes && c in g[p].content ==> c in nodes && rank[c] == rank[p] + 1
  }

  lemma {:induction false} ChildRanked<T>(g: Heap<T>, nodes: set<T>, rank: map<T, nat>, n: T, t: Tree, i: nat)
    requires Repr(g, n, t) && Ranked(g, nodes, rank) && n in nodes && i < |t.children|
    ensures g[n].content[i] in nodes && rank[g[n].content[i]] == rank[n] + 1
  {
    assert g[n].content[i] in g[n].content;
  }

  /** All places of a path are equally deep. */
  lemma {:induction false} SpotsRanked<T>(g: Heap<T>, nodes: set<T>, rank: map<T, nat>, n: T, t: Tree, path: seq<Move>,
                                          s: Spot<T>)
    requires Repr(g, n, t) && Ranked(g, nodes, rank) && n in nodes && s in Spots(g, n, t, path)
    ensures s.node in nodes && rank[s.node] == rank[n] + |path| && Repr(g, s.node, s.tree)
    decreases |path|
  {
    if path != [] {
      SpotsMembers(g, n, t, path, s);
      var i: nat :| SpotBelow(g, n, t, path, s, i);
      ChildRanked(g, nodes, rank, n, t, i);
      SpotsRanked(g, nodes, rank, g[n].content[i], t.children[i], path[1..], s);
    }
  }

  lemma {:induction false} ReachRanked<T>(g: Heap<T>, nodes: set<T>, rank: map<T, nat>, n: T, t: Tree, x: T)
    requires Repr(g, n, t) && Ranked(g, nodes, rank) && n in nodes && x in Reach(g, n, t)
    ensures x in nodes && rank[x] >= rank[n] && (x != n ==> rank[x] > rank[n])
    decreases t
  {
    if x != n {
      var i :| 0 <= i < |t.children| && x in Reach(g, g[n].content[i], t.children[i]);
      ChildRanked(g, nodes, rank, n, t, i);
      ReachRanked(g, nodes, rank, g[n].content[i], t.children[i], x);
    }
  }

  // ----- what the removals leave alone

  /** Only content lists one step above depth d have lost entries. */
  ghost predicate OnlyAbove<T>(g: Heap<T>, h: Heap<T>, nodes: set<T>, rank: map<T, nat>, d: nat) {
    && Thinner(g, h) && nodes <= rank.Keys && nodes <= g.Keys
    && forall p :: p in nodes && rank[p] + 1 != d ==> h[p] == g[p]
  }

  /** Nodes above depth d are still reached. */
  lemma {:induction false} StillReached<T>(g: Heap<T>, h: Heap<T>, nodes: set<T>, rank: map<T, nat>, d: nat, n: T,
                                           t: Tree, u: Tree, p: T)
    requires Repr(g, n, t) && Ranked(g, nodes, rank) && OnlyAbove(g, h, nodes, rank, d) && n in nodes && Repr(h, n, u)
    requires p in Reach(g, n, t) && p in nodes && rank[p] + 1 == d
    ensures p in Reach(h, n, u)
    decreases t
  {
    if p != n {
      ReachRanked(g, nodes, rank, n, t, p);
      assert h[n] == g[n];
      var i :| 0 <= i < |t.children| && p in Reach(g, g[n].content[i], t.children[i]);
      ChildRanked(g, nodes, rank, n, t, i);
      StillReached(g, h, nodes, rank, d, g[n].content[i], t.children[i], u.children[i], p);
      ReachChild(h, n, u, i);
    }
  }

  /** Nodes at depth d stand for what they stood for. */
  lemma {:induction false} StillStandsFor<T>(g: Heap<T>, h: Heap<T>, nodes: set<T>, rank: map<T, nat>, d: nat, x: T)
    requires Stands(g, x) && Ranked(g, nodes, rank) && OnlyAbove(g, h, nodes, rank, d) && x in nodes && rank[x] == d
    ensures Stands(h, x) && TreeOf(h, x) == TreeOf(g, x)
  {
    var t := TreeOf(g, x);
    forall y | y in Reach(g, x, t)
      ensures y in g && y in h && h[y] == g[y]
    {
      ReachRanked(g, nodes, rank, x, t, y);
    }
    ReprFrame(g, h, x, t);
    StandsFor(h, x, t);
  }

  /** A node at depth d has a holder as long as some content list of the document as it was still holds it. */
  lemma {:induction false} HolderExactly<T>(g: Heap<T>, h: Heap<T>, nodes: set<T>, rank: map<T, nat>, d: nat, n: T,
                                            t: Tree, x: T)
    requires Repr(g, n, t) && Ranked(g, nodes, rank) && OnlyAbove(g, h, nodes, rank, d) && Stands(h, n)
    requires nodes == Reach(g, n, t) && x in nodes && rank[x] == d
    ensures Holder(h, n, TreeOf(h, n), x).Some? <==> exists p :: p in nodes && x in h[p].content
    ensures var p := Holder(h, n, TreeOf(h, n), x); p.Some? ==>
        p.value in nodes && rank[p.value] + 1 == d && x in h[p.value].content
  {
    var u := TreeOf(h, n);
    HolderMeaning(h, n, u, x);
    ThinnerStands(g, h, n, t);
    ReachInHeap(g, n, t);
    forall p | p in nodes && x in h[p].content
      ensures rank[p] + 1 == d && p in Reach(h, n, u)
    {
      assert x in g[p].content;
      StillReached(g, h, nodes, rank, d, n, t, u, p);
    }
    var p := Holder(h, n, u, x);
    if p.Some? {
      assert p.value in Reach(h, n, u);
    }
  }

  // ----- how often a node can be taken out

  /** How often removals can find the node in this content list and take it out. */
  function CapacityAt<T(==)>(r: Rec<T>, x: T): nat {
    match r.kind
    case MappingNode => multiset(r.content)[x]
    case SequenceNode => if x in r.content then 1 else 0
    case _ => 0
  }

  /** The same over a list of nodes: positions in mappings, and sequences that hold the node. */
  function Capacity<T(==)>(g: Heap<T>, ps: seq<T>, x: T): nat
    requires forall p :: p in ps ==> p in g
  {
    if ps == [] then 0 else CapacityAt(g[ps[0]], x) + Capacity(g, ps[1..], x)
  }

  /** A node that is neither mapping nor sequence, such as a document, holds it; nothing is ever taken out of those. */
  predicate Pinned<T(==)>(g: Heap<T>, ps: seq<T>, x: T)
    requires forall p :: p in ps ==> p in g
  {
    exists p :: p in ps && g[p].kind != MappingNode && g[p].kind != SequenceNode && x in g[p].content
  }

  /** The list holds every node of the set once. */
  ghost predicate Lists<T>(ps: seq<T>, nodes: set<T>) {
    && (forall p :: p in ps ==> p in nodes) && (forall p :: p in nodes ==> p in ps)
    && forall i, j :: 0 <= i < j < |ps| ==> ps[i] != ps[j]
  }

  lemma {:induction false} Listing<T>(nodes: set<T>) returns (ps: seq<T>)
    ensures Lists(ps, nodes)
  {
    ps := [];
    var left := nodes;
    while left != {}
      invariant left <= nodes && Lists(ps, nodes - left)
    {
      var p :| p in left;
      left := left - {p};
      ps := ps + [p];
    }
  }

  lemma {:induction false} CapacityNone<T>(g: Heap<T>, ps: seq<T>, x: T)
    requires forall p :: p in ps ==> p in g
    ensures Capacity(g, ps, x) == 0 <==> forall p :: p in ps ==> CapacityAt(g[p], x) == 0
  {
    if ps != [] {
      CapacityNone(g, ps[1..], x);
      assert ps == [ps[0]] + ps[1..];
    }
  }

  lemma {:induction false} CapacityFrame<T>(g: Heap<T>, h: Heap<T>, ps: seq<T>, x: T)
    requires (forall p :: p in ps ==> p in g && p in h) && forall p :: p in ps ==>
        CapacityAt(h[p], x) == CapacityAt(g[p], x)
    ensures Capacity(h, ps, x) == Capacity(g, ps, x)
  {
    if ps != [] {
      CapacityFrame(g, h, ps[1..], x);
    }
  }

  /** One list entry more or less at one node of the list. */
  lemma {:induction false} CapacityStep<T>(g: Heap<T>, h: Heap<T>, ps: seq<T>, x: T, p: T)
    requires (forall q :: q in ps ==> q in g && q in h) && forall q :: q in ps && q != p ==> h[q] == g[q]
    requires p in ps && (forall i, j :: 0 <= i < j < |ps| ==> ps[i] != ps[j])
    ensures Capacity(h, ps, x) + CapacityAt(g[p], x) == Capacity(g, ps, x) + CapacityAt(h[p], x)
  {
    if ps[0] == p {
      CapacityFrame(g, h, ps[1..], x);
    } else {
      CapacityStep(g, h, ps[1..], x, p);
    }
  }

  // ----- keys stay apart from what is removed

  ghost predicate NeverKey<T>(g: Heap<T>, nodes: set<T>, x: T)
    requires nodes <= g.Keys
  {
    forall p, i :: p in nodes && g[p].kind == MappingNode && 0 <= i < |g[p].content| && !Odd(i) ==> g[p].content[i] != x
  }

  /** No node is a key in one place and a match in another. */
  ghost predicate KeysAside<T>(g: Heap<T>, nodes: set<T>, matches: seq<T>)
    requires nodes <= g.Keys
  {
    forall x :: x in matches ==> NeverKey(g, nodes, x)
  }

  /** Taking a value out of a mapping takes one occurrence, leaves the others, and leaves keys and values in place. */
  lemma {:induction false} MappingLoses<T>(content: seq<T>, x: T, y: T)
    requires x in content && Aside(content, x) && Aside(content, y)
    ensures var k := FirstAt(content, x);
      && content[0] != x && k > 0
      && multiset(Without(MappingNode, content, k))[y] == multiset(content)[y] - (if y == x then 1 else 0)
      && Aside(Without(MappingNode, content, k), y)
  {
    var k := FirstAt(content, x);
    assert Odd(k);
    var rest := Without(MappingNode, content, k);
    assert content == content[..k - 1] + [content[k - 1], content[k]] + content[k + 1..];
    assert content[k - 1] != x && content[k - 1] != y;
    forall i | 0 <= i < |rest| && !Odd(i)
      ensures rest[i] != y
    {
      assert rest[i] == if i < k - 1 then content[i] else content[i + 2];
    }
  }

  ghost predicate Aside<T>(content: seq<T>, x: T) {
    forall i :: 0 <= i < |content| && !Odd(i) ==> content[i] != x
  }

  /** One removal, as the condition sees it: one occurrence less of the node, all else equal. */
  lemma {:induction false} TakenCapacity<T>(g: Heap<T>, nodes: set<T>, ps: seq<T>, p: T, x: T, y: T)
    requires nodes <= g.Keys && Lists(ps, nodes) && p in nodes && x in g[p].content
    requires NeverKey(g, nodes, x) && NeverKey(g, nodes, y)
    ensures TakenFrom(g, p, x).Some?
    ensures var h := TakenFrom(g, p, x).value;
      && nodes <= h.Keys && NeverKey(h, nodes, y) && Pinned(h, ps, y) == Pinned(g, ps, y)
      && (!Pinned(g, ps, x) ==> Capacity(h, ps, y) == Capacity(g, ps, y) - (if y == x then 1 else 0))
      && (y != x ==> Capacity(h, ps, y) == Capacity(g, ps, y))
  {
    var content := g[p].content;
    if g[p].kind == MappingNode {
      assert Aside(content, x) && Aside(content, y);
      MappingLoses(content, x, y);
    } else {
      AllButAmong(content, x);
    }
    var h := TakenFrom(g, p, x).value;
    CapacityStep(g, h, ps, y, p);
  }

  // ----- when the removals finish

  /** The matches that meet the condition, as often as they are met. */
  ghost function Picked<T>(g: Heap<T>, matches: seq<T>, cond: Tree -> bool): seq<T>
    requires AllStand(g, matches)
  {
    if matches == [] then []
    else
      assert matches[0] in matches;
      (if cond(TreeOf(g, matches[0])) then [matches[0]] else []) + Picked(g, matches[1..], cond)
  }

  /** Every node is to be taken out at most as often as it can be. */
  ghost predicate Fits<T>(g: Heap<T>, ps: seq<T>, xs: seq<T>)
    requires forall p :: p in ps ==> p in g
  {
    forall x :: x in xs ==> Pinned(g, ps, x) || multiset(xs)[x] <= Capacity(g, ps, x)
  }

  /** The state of the loop over the matches: g is the document as it was, h as it is. */
  ghost predicate Underway<T>(g: Heap<T>, h: Heap<T>, nodes: set<T>, rank: map<T, nat>, d: nat, n: T, t: Tree,
                              matches: seq<T>) {
    && Repr(g, n, t) && nodes == Reach(g, n, t) && Ranked(g, nodes, rank) && OnlyAbove(g, h, nodes, rank, d)
    && AllStand(g, matches) && Stands(h, n) && AllStand(h, matches)
    && KeysAside(h, nodes, matches) && forall x :: x in matches ==> x in nodes && rank[x] == d
  }

  lemma {:induction false} UnderwayTail<T>(g: Heap<T>, h: Heap<T>, nodes: set<T>, rank: map<T, nat>, d: nat, n: T,
                                           t: Tree, matches: seq<T>)
    requires Underway(g, h, nodes, rank, d, n, t, matches) && matches != []
    ensures matches[0] in matches && matches[0] in nodes
    ensures Underway(g, h, nodes, rank, d, n, t, matches[1..])
    ensures TreeOf(h, matches[0]) == TreeOf(g, matches[0])
    ensures forall x :: x in matches[1..] ==> x in matches
  {
    StillStandsFor(g, h, nodes, rank, d, matches[0]);
  }

  /** Who holds the next match, and what is left once it is taken out. */
  lemma {:induction false} UnderwayHolder<T>(g: Heap<T>, h: Heap<T>, nodes: set<T>, rank: map<T, nat>, d: nat, n: T,
                                             t: Tree, matches: seq<T>)
    requires Underway(g, h, nodes, rank, d, n, t, matches) && matches != []
    ensures nodes <= h.Keys && KeysAside(h, nodes, matches) && NeverKey(h, nodes, matches[0])
    ensures Stands(h, n)
    ensures var p := Holder(h, n, TreeOf(h, n), matches[0]);
      && (p.None? <==> forall q :: q in nodes ==> matches[0] !in h[q].content)
      && (p.Some? ==> p.value in nodes && rank[p.value] + 1 == d && matches[0] in h[p.value].content)
  {
    assert matches[0] in matches;
    HolderExactly(g, h, nodes, rank, d, n, t, matches[0]);
    hide Repr, Reach, Ranked, Holder;
  }

  lemma {:induction false} KeysNext<T>(h: Heap<T>, nodes: set<T>, matches: seq<T>, p: T, x: T, rest: seq<T>)
    requires nodes <= h.Keys && KeysAside(h, nodes, matches) && p in nodes && x in h[p].content && x in matches
    requires forall y :: y in rest ==> y in matches
    ensures TakenFrom(h, p, x).Some? && nodes <= TakenFrom(h, p, x).value.Keys
        && KeysAside(TakenFrom(h, p, x).value, nodes, rest)
  {
    hide NeverKey, TakenFrom, Pinned, Capacity;
    var ps := Listing(nodes);
    TakenCapacity(h, nodes, ps, p, x, x);
    forall y | y in rest
      ensures NeverKey(TakenFrom(h, p, x).value, nodes, y)
    {
      TakenCapacity(h, nodes, ps, p, x, y);
    }
  }

  lemma {:induction false} UnderwayNext<T>(g: Heap<T>, h: Heap<T>, nodes: set<T>, rank: map<T, nat>, d: nat, n: T,
                                           t: Tree, matches: seq<T>, h': Heap<T>)
    requires Underway(g, h, nodes, rank, d, n, t, matches) && matches != []
    requires Stands(h, n) && TakenOut(h, n, matches[0]) == Some(h')
    ensures Underway(g, h', nodes, rank, d, n, t, matches[1..])
  {
    hide KeysAside, NeverKey, TakenFrom, Holder, AllStand, Repr, Reach, Ranked, Thinner, Stands;
    var x := matches[0];
    UnderwayTail(g, h, nodes, rank, d, n, t, matches);
    UnderwayHolder(g, h, nodes, rank, d, n, t, matches);
    TakenThinner(h, n, x);
    ThinnerAllStand(h, h', n, matches);
    AllStandTail(h', matches);
    var p := Holder(h, n, TreeOf(h, n), x).value;
    KeysNext(h, nodes, matches, p, x, matches[1..]);
    TakenElsewhere(h, p, x);
    ThinnerTwice(g, h, h');
  }

  lemma {:induction false} AllStandTail<T>(g: Heap<T>, matches: seq<T>)
    requires AllStand(g, matches) && matches != []
    ensures AllStand(g, matches[1..])
  {
  }

  lemma {:induction false} TakenElsewhere<T>(h: Heap<T>, p: T, x: T)
    requires p in h && x in h[p].content && TakenFrom(h, p, x).Some?
    ensures forall q :: q in h && q != p ==> q in TakenFrom(h, p, x).value && TakenFrom(h, p, x).value[q] == h[q]
  {
  }

  /** The condition before a removal is the condition after it. */
  lemma {:induction false} FitsNext<T>(g: Heap<T>, h: Heap<T>, ps: seq<T>, x: T, rest: seq<T>)
    requires (forall p :: p in ps ==> p in g && p in h) && (Pinned(g, ps, x) || Capacity(g, ps, x) > 0)
    requires forall y :: y == x || y in rest ==>
      && Pinned(h, ps, y) == Pinned(g, ps, y)
      && (!Pinned(g, ps, y) ==> Capacity(h, ps, y) == Capacity(g, ps, y) - (if y == x then 1 else 0))
    ensures Fits(g, ps, [x] + rest) <==> Fits(h, ps, rest)
  {
    var xs := [x] + rest;
    assert forall y :: multiset(xs)[y] == multiset(rest)[y] + (if y == x then 1 else 0);
    assert x in xs;
  }

  lemma {:induction false} RemovedFits<T>(g: Heap<T>, h: Heap<T>, nodes: set<T>, rank: map<T, nat>, d: nat, n: T,
                                          t: Tree, matches: seq<T>, cond: Tree -> bool, ps: seq<T>)
    requires Underway(g, h, nodes, rank, d, n, t, matches) && Lists(ps, nodes)
    ensures forall p :: p in ps ==> p in h
    ensures RemovedFrom(h, n, matches, cond).Some? <==> Fits(h, ps, Picked(g, matches, cond))
    decreases |matches|
  {
    if matches != [] {
      var x := matches[0];
      UnderwayTail(g, h, nodes, rank, d, n, t, matches);
      if !cond(TreeOf(g, x)) {
        RemovedFits(g, h, nodes, rank, d, n, t, matches[1..], cond, ps);
      } else {
        OneFits(g, h, nodes, rank, d, n, t, matches, cond, ps);
        if TakenOut(h, n, x).Some? {
          var h' := TakenOut(h, n, x).value;
          UnderwayNext(g, h, nodes, rank, d, n, t, matches, h');
          RemovedFits(g, h', nodes, rank, d, n, t, matches[1..], cond, ps);
        }
      }
    }
  }

  lemma {:induction false} OneFits<T>(g: Heap<T>, h: Heap<T>, nodes: set<T>, rank: map<T, nat>, d: nat, n: T, t: Tree,
                                      matches: seq<T>, cond: Tree -> bool, ps: seq<T>)
    requires Underway(g, h, nodes, rank, d, n, t, matches) && Lists(ps, nodes) && matches != []
    requires AllStand(g, matches) && AllStand(g, matches[1..])
    ensures forall p :: p in ps ==> p in h
    ensures var x, rest := matches[0], Picked(g, matches[1..], cond);
      var h' := TakenOut(h, n, x);
      && (h'.None? ==> !Fits(h, ps, [x] + rest))
      && (h'.Some? ==>
            && (forall p :: p in ps ==> p in h'.value)
            && (Fits(h, ps, [x] + rest) <==> Fits(h'.value, ps, rest)))
  {
    hide KeysAside, NeverKey, TakenFrom, Holder, AllStand, Repr, Reach, Ranked, Thinner, Stands, Fits, Pinned, Capacity,
         Picked;
    var x, rest := matches[0], Picked(g, matches[1..], cond);
    UnderwayTail(g, h, nodes, rank, d, n, t, matches);
    UnderwayHolder(g, h, nodes, rank, d, n, t, matches);
    PickedAmong(g, matches[1..], cond);
    var p := Holder(h, n, TreeOf(h, n), x);
    if p.Some? {
      HeldFits(h, nodes, matches, p.value, x, rest, ps);
    } else {
      UnheldFits(h, nodes, x, rest, ps);
    }
  }

  lemma {:induction false} UnheldFits<T>(h: Heap<T>, nodes: set<T>, x: T, rest: seq<T>, ps: seq<T>)
    requires nodes <= h.Keys && Lists(ps, nodes) && forall q :: q in nodes ==> x !in h[q].content
    ensures !Fits(h, ps, [x] + rest)
  {
    CapacityNone(h, ps, x);
    assert x in [x] + rest;
  }

  lemma {:induction false} HeldFits<T>(h: Heap<T>, nodes: set<T>, matches: seq<T>, p: T, x: T, rest: seq<T>, ps: seq<T>)
    requires nodes <= h.Keys && Lists(ps, nodes) && KeysAside(h, nodes, matches) && p in nodes && x in h[p].content
        && x in matches
    requires forall y :: y in rest ==> y in matches
    ensures TakenFrom(h, p, x).Some? && nodes <= TakenFrom(h, p, x).value.Keys
    ensures Fits(h, ps, [x] + rest) <==> Fits(TakenFrom(h, p, x).value, ps, rest)
  {
    hide NeverKey, TakenFrom, Capacity, Fits;
    TakenCapacity(h, nodes, ps, p, x, x);
    var h' := TakenFrom(h, p, x).value;
    forall y | y == x || y in rest
      ensures Pinned(h', ps, y) == Pinned(h, ps, y)
      ensures !Pinned(h, ps, y) ==> Capacity(h', ps, y) == Capacity(h, ps, y) - (if y == x then 1 else 0)
    {
      TakenCapacity(h, nodes, ps, p, x, y);
    }
    CapacityNone(h, ps, x);
    HeldCounts(h, ps, p, x);
    hide Pinned;
    FitsNext(h, h', ps, x, rest);
  }

  lemma {:induction false} HeldCounts<T>(h: Heap<T>, ps: seq<T>, p: T, x: T)
    requires p in ps && (forall q :: q in ps ==> q in h) && x in h[p].content
    ensures Pinned(h, ps, x) || CapacityAt(h[p], x) > 0
  {
  }

  lemma {:induction false} PickedAmong<T>(g: Heap<T>, matches: seq<T>, cond: Tree -> bool)
    requires AllStand(g, matches)
    ensures forall x :: x in Picked(g, matches, cond) ==> x in matches
  {
    if matches != [] {
      PickedAmong(g, matches[1..], cond);
    }
  }

  /**
   In a document in which no node is met at two depths the removals of a patch run through exactly if every
   match is to be taken out at most as often as the document holds it: in mappings once for each position, in
   sequences once for each sequence, in a document any number of times.
   */
  lemma {:induction false} FinishesExactly<T>(g: Heap<T>, n: T, t: Tree, path: seq<Move>, cond: Tree -> bool,
                                              rank: map<T, nat>, ps: seq<T>)
    requires Repr(g, n, t) && Ranked(g, Reach(g, n, t), rank) && Lists(ps, Reach(g, n, t))
    requires KeysAside(g, Reach(g, n, t), NodesAt(Spots(g, n, t, path)))
    ensures var matches := NodesAt(Spots(g, n, t, path));
      && AllStand(g, matches) && (forall p :: p in ps ==> p in g)
      && (Removal(g, n, t, path, cond).Some? <==> Fits(g, ps, Picked(g, matches, cond)))
  {
    var spots := Spots(g, n, t, path);
    var matches, d := NodesAt(spots), rank[n] + |path|;
    SpotsStand(g, n, t, path);
    forall x | x in matches
      ensures x in Reach(g, n, t) && rank[x] == d
    {
      var i :| 0 <= i < |spots| && matches[i] == x;
      assert spots[i] in spots;
      SpotsRanked(g, Reach(g, n, t), rank, n, t, path, spots[i]);
    }
    RemovedFits(g, g, Reach(g, n, t), rank, d, n, t, matches, cond, ps);
  }
}
