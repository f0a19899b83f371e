/** Where the patches do less than their names say: concrete documents. */
module PatchLimits {
  import opened Strings
  import opened OpPath
  import opened Trees
  import opened TreeLaws
  import opened Graph
  import opened Replacing
  import opened Removing
  import opened Holders
  import opened Removals
  import opened SharedRemoving
  import opened SharedDocuments
  import opened CreatePaths
  import opened Stripping

  // ----- removing below a shared value

  /** {x: ""} */
  function Inner(): Tree {
    Tree(MappingNode, "", [Scalar("x"), Scalar("")])
  }

  /** {a: v, b: w} */
  function Pair(v: Tree, w: Tree): Tree {
    Tree(DocumentNode, "", [Tree(MappingNode, "", [Scalar("a"), v, Scalar("b"), w])])
  }

  /** A document {a: "", b: ""} and, apart from it, the node 4 for {x: ""}. */
  function Before(): Heap<nat> {
    map[
      0 := Rec(DocumentNode, "", [1]),
      1 := Rec(MappingNode, "", [2, 7, 3, 8]),
      2 := Rec(ScalarNode, "a", []),
      3 := Rec(ScalarNode, "b", []),
      4 := Rec(MappingNode, "", [5, 6]),
      5 := Rec(ScalarNode, "x", []),
      6 := Rec(ScalarNode, "", []),
      7 := Rec(ScalarNode, "", []),
      8 := Rec(ScalarNode, "", [])
    ]
  }

  /** The same after both values were replaced by node 4. */
  ghost function Shared(): Heap<nat> {
    Sub(Before(), map[7 := 4, 8 := 4])
  }

  lemma {:induction false} SharedIs()
    ensures Shared() == Sub(Before(), map[7 := 4, 8 := 4])
  {
  }

  lemma {:induction false} SharedRows()
    ensures Shared() == Before()[1 := Rec(MappingNode, "", [2, 4, 3, 4])]
  {
    var ov: map<nat, nat> := map[7 := 4, 8 := 4];
    forall n | n in Before()
      ensures SubContent(Before()[n].content, ov) == if n == 1 then [2, 4, 3, 4] else Before()[n].content
    {
    }
  }

  /** A node stands for a tree if its children stand for the children. */
  lemma {:induction false} RowRepr(g: Heap<nat>, n: nat, t: Tree)
    requires n in g && g[n].kind == t.kind && g[n].value == t.value && |g[n].content| == |t.children|
    requires forall i :: 0 <= i < |t.children| ==> Repr(g, g[n].content[i], t.children[i])
    ensures Repr(g, n, t)
  {
  }

  lemma {:induction false} LeafRepr(g: Heap<nat>, n: nat)
    requires n in g && g[n].kind == ScalarNode && g[n].content == []
    ensures Repr(g, n, Scalar(g[n].value)) && Reach(g, n, Scalar(g[n].value)) == {n}
        && TreeShaped(g, n, Scalar(g[n].value))
  {
  }

  lemma {:induction false} BeforeIs()
    ensures Repr(Before(), 0, Pair(Scalar(""), Scalar(""))) && TreeShaped(Before(), 0, Pair(Scalar(""), Scalar("")))
  {
    var g := Before();
    assert g[0] == Rec(DocumentNode, "", [1]);
    hide Repr, Reach, TreeShaped;
    MiddleIs(g);
    hide Before;
    AboveShaped(g, 0, Pair(Scalar(""), Scalar("")));
  }

  lemma {:induction false} MiddleIs(g: Heap<nat>)
    requires {1, 2, 3, 7, 8} <= g.Keys && g[1] == Rec(MappingNode, "", [2, 7, 3, 8])
    requires g[2] == Rec(ScalarNode, "a", []) && g[3] == Rec(ScalarNode, "b", [])
    requires g[7] == Rec(ScalarNode, "", []) && g[8] == Rec(ScalarNode, "", [])
    ensures var m := Pair(Scalar(""), Scalar("")).children[0];
      Repr(g, 1, m) && TreeShaped(g, 1, m) && 0 !in Reach(g, 1, m)
  {
    hide Repr, Reach, TreeShaped;
    LeafRepr(g, 2);
    LeafRepr(g, 3);
    LeafRepr(g, 7);
    LeafRepr(g, 8);
    var m := Pair(Scalar(""), Scalar("")).children[0];
    RowRepr(g, 1, m);
    FlatShaped(g, 1, m);
  }

  lemma {:induction false} FlatShaped(g: Heap<nat>, n: nat, t: Tree)
    requires Repr(g, n, t) && forall i :: 0 <= i < |t.children| ==> t.children[i].children == []
    requires n !in g[n].content && forall i, j :: 0 <= i < j < |t.children| ==> g[n].content[i] != g[n].content[j]
    ensures TreeShaped(g, n, t) && forall x :: x in Reach(g, n, t) ==> x == n || x in g[n].content
  {
    forall i | 0 <= i < |t.children|
      ensures Reach(g, g[n].content[i], t.children[i]) == {g[n].content[i]}
    {
    }
  }

  lemma {:induction false} AboveShaped(g: Heap<nat>, n: nat, t: Tree)
    requires n in g && g[n].kind == t.kind && g[n].value == t.value && |g[n].content| == 1 == |t.children|
    requires Repr(g, g[n].content[0], t.children[0]) && TreeShaped(g, g[n].content[0], t.children[0])
    requires n !in Reach(g, g[n].content[0], t.children[0])
    ensures Repr(g, n, t) && TreeShaped(g, n, t)
  {
  }

  lemma {:induction false} InnerRepr(g: Heap<nat>)
    requires g == Shared()
    ensures Repr(g, 4, Inner())
  {
    SharedRows();
    LeafRepr(g, 5);
    LeafRepr(g, 6);
  }

  lemma {:induction false} SharedRepr()
    ensures Repr(Shared(), 1, Pair(Inner(), Inner()).children[0]) && Repr(Shared(), 0, Pair(Inner(), Inner()))
  {
    SharedRows();
    hide Repr, Reach, TreeShaped, Shared, Inner;
    InnerRepr(Shared());
    LeafRepr(Shared(), 2);
    LeafRepr(Shared(), 3);
    RowRepr(Shared(), 1, Pair(Inner(), Inner()).children[0]);
    RowRepr(Shared(), 0, Pair(Inner(), Inner()));
  }

  /** A path that takes one step leads to the only place it selects. */
  lemma {:induction false} OneSpot(g: Heap<nat>, n: nat, t: Tree, path: seq<Move>, i: nat, k: nat)
    requires Repr(g, n, t) && path != [] && i < |t.children| && k <= |t.children|
    requires forall j :: 0 <= j < |t.children| ==> (Selects(t.kind, Values(t.children), path[0], j) <==> j == i)
    ensures SpotsFrom(g, n, t, path, k) == if k <= i then Spots(g, g[n].content[i], t.children[i], path[1..]) else []
    decreases |t.children| - k
  {
    if k < |t.children| {
      OneSpot(g, n, t, path, i, k + 1);
    }
  }

  lemma {:induction false} InnerSpot()
    ensures Repr(Shared(), 4, Inner()) && Spots(Shared(), 4, Inner(), [Go(Key("x"))]) == [Spot(6, Scalar(""))]
  {
    SharedRows();
    InnerRepr(Shared());
    var t, path := Inner(), [Go(Key("x"))];
    assert Values(t.children)[0] == "x" && path[1..] == [];
    OneSpot(Shared(), 4, t, path, 1, 0);
  }

  lemma {:induction false} SharedSpots()
    ensures Repr(Shared(), 0, Pair(Inner(), Inner()))
    ensures Spots(Shared(), 0, Pair(Inner(), Inner()), [Unwrap, Go(Every), Go(Key("x"))])
        == [Spot(6, Scalar("")), Spot(6, Scalar(""))]
  {
    SharedRepr();
    SharedRows();
    MiddleSpots();
    var g, t := Shared(), Pair(Inner(), Inner());
    var path := [Unwrap, Go(Every), Go(Key("x"))];
    assert g[0].content == [1] && path[1..] == [Go(Every), Go(Key("x"))];
    hide Repr, Shared, SpotsFrom, Inner;
    OneSpot(g, 0, t, path, 0, 0);
  }

  lemma {:induction false} MiddleSpots()
    ensures var m := Pair(Inner(), Inner()).children[0];
      && Repr(Shared(), 1, m)
      && Spots(Shared(), 1, m, [Go(Every), Go(Key("x"))]) == [Spot(6, Scalar("")), Spot(6, Scalar(""))]
  {
    SharedRepr();
    SharedRows();
    InnerSpot();
    var g, m := Shared(), Pair(Inner(), Inner()).children[0];
    var path := [Go(Every), Go(Key("x"))];
    assert path[1..] == [Go(Key("x"))] && g[1].content == [2, 4, 3, 4];
    assert Odd(1) && Odd(3) && !Odd(0) && !Odd(2);
    hide Repr, Shared, Inner;
    assert SpotsFrom(g, 1, m, path, 4) == [];
    assert SpotsFrom(g, 1, m, path, 3) == [Spot(6, Scalar(""))];
    assert SpotsFrom(g, 1, m, path, 2) == [Spot(6, Scalar(""))];
    assert SpotsFrom(g, 1, m, path, 1) == [Spot(6, Scalar("")), Spot(6, Scalar(""))];
    assert SpotsFrom(g, 1, m, path, 0) == [Spot(6, Scalar("")), Spot(6, Scalar(""))];
  }

  /** Only one node of the list can give the node away. */
  lemma {:induction false} OneHolder<T>(g: Heap<T>, ps: seq<T>, x: T, p: T)
    requires (forall q :: q in ps ==> q in g) && p in ps && forall i, j :: 0 <= i < j < |ps| ==> ps[i] != ps[j]
    requires forall q :: q in ps && q != p ==> CapacityAt(g[q], x) == 0
    ensures Capacity(g, ps, x) == CapacityAt(g[p], x)
  {
    if ps[0] == p {
      CapacityNone(g, ps[1..], x);
    } else {
      OneHolder(g, ps[1..], x, p);
    }
  }

  /** What one node holds is in the set and one step deeper; its keys are in the one set, its values in the other. */
  ghost predicate GoodRow(g: Heap<nat>, nodes: set<nat>, rank: map<nat, nat>, keys: set<nat>, values: set<nat>, p: nat)
    {
    && p in g && p in rank
    && (forall c :: c in g[p].content ==> c in nodes && c in rank && rank[c] == rank[p] + 1)
    && (forall i: nat :: KeyEntry(g, p, i) ==> g[p].content[i] in keys)
    && (forall i: nat :: ValueEntry(g, p, i) ==> g[p].content[i] in values)
  }

  lemma {:induction false} EvenRows(g: Heap<nat>, nodes: set<nat>, rank: map<nat, nat>, keys: set<nat>,
                                    values: set<nat>)
    requires keys !! values && forall p :: p in nodes ==> GoodRow(g, nodes, rank, keys, values, p)
    ensures Even(g, nodes, rank)
  {
  }

  lemma {:induction false} LeafRow(g: Heap<nat>, nodes: set<nat>, rank: map<nat, nat>, keys: set<nat>, values: set<nat>,
                                   p: nat)
    requires p in g && p in rank && g[p].content == []
    ensures GoodRow(g, nodes, rank, keys, values, p)
  {
  }

  lemma {:induction false} TopRow(g: Heap<nat>, nodes: set<nat>, rank: map<nat, nat>, keys: set<nat>, values: set<nat>)
    requires 1 in g && g[1] == Rec(MappingNode, "", [2, 4, 3, 4]) && {2, 3, 4} <= nodes && 2 in keys && 3 in keys
        && 4 in values
    requires {1, 2, 3, 4} <= rank.Keys && rank[1] == 1 && rank[2] == 2 && rank[3] == 2 && rank[4] == 2
    ensures GoodRow(g, nodes, rank, keys, values, 1)
  {
  }

  lemma {:induction false} SharedRowsGood(g: Heap<nat>, nodes: set<nat>, rank: map<nat, nat>)
    requires nodes == {0, 1, 2, 3, 4, 5, 6} && rank == map[0 := 0, 1 := 1, 2 := 2, 3 := 2, 4 := 2, 5 := 3, 6 := 3]
        && nodes <= g.Keys
    requires g[0] == Rec(DocumentNode, "", [1]) && g[1] == Rec(MappingNode, "", [2, 4, 3, 4])
        && g[4] == Rec(MappingNode, "", [5, 6])
    requires g[2].content == [] && g[3].content == [] && g[5].content == [] && g[6].content == []
    ensures Even(g, nodes, rank)
  {
    var keys: set<nat>, values: set<nat> := {2, 3, 5}, {1, 4, 6};
    TopRow(g, nodes, rank, keys, values);
    assert GoodRow(g, nodes, rank, keys, values, 0);
    assert GoodRow(g, nodes, rank, keys, values, 4);
    LeafRow(g, nodes, rank, keys, values, 2);
    LeafRow(g, nodes, rank, keys, values, 3);
    LeafRow(g, nodes, rank, keys, values, 5);
    LeafRow(g, nodes, rank, keys, values, 6);
    hide GoodRow, Even;
    EvenRows(g, nodes, rank, keys, values);
  }

  lemma {:induction false} SharedEven() returns (rank: map<nat, nat>)
    ensures Repr(Shared(), 0, Pair(Inner(), Inner()))
        && Even(Shared(), Reach(Shared(), 0, Pair(Inner(), Inner())), rank)
  {
    SharedRepr();
    SharedRows();
    var nodes: set<nat> := {0, 1, 2, 3, 4, 5, 6};
    rank := map[0 := 0, 1 := 1, 2 := 2, 3 := 2, 4 := 2, 5 := 3, 6 := 3];
    hide Repr, Reach, Shared, Even, Pair;
    SharedRowsGood(Shared(), nodes, rank);
    EvenWithin(Shared(), nodes, rank, 0, Pair(Inner(), Inner()));
  }

  /** If one node of the list holds x, once, and no other node does, x can be taken out once. */
  lemma {:induction false} OneCapacity(g: Heap<nat>, ps: seq<nat>, x: nat, p: nat)
    requires (forall q :: q in ps ==> q in g) && p in ps && forall i, j :: 0 <= i < j < |ps| ==> ps[i] != ps[j]
    requires forall q :: q in g && q != p ==> x !in g[q].content
    requires (g[p].kind == MappingNode && multiset(g[p].content)[x] == 1)
        || (g[p].kind == SequenceNode && x in g[p].content)
    ensures !Pinned(g, ps, x) && Capacity(g, ps, x) == 1
  {
    OneHolder(g, ps, x, p);
  }

  lemma {:induction false} SharedReached()
    ensures Repr(Shared(), 0, Pair(Inner(), Inner())) && 4 in Reach(Shared(), 0, Pair(Inner(), Inner()))
    ensures Reach(Shared(), 0, Pair(Inner(), Inner())) <= Shared().Keys
  {
    SharedRepr();
    SharedRows();
    var g, t := Shared(), Pair(Inner(), Inner());
    assert g[0].content[0] == 1 && g[1].content[1] == 4;
    ReachInHeap(g, 0, t);
    ReachInHeap(g, 4, Inner());
    hide Reach, Repr, Shared;
    ReachChild(g, 0, t, 0);
    ReachChild(g, 1, t.children[0], 1);
  }

  /** Node 4 is met, and nothing else holds node 6. */
  lemma {:induction false} SharedCapacity(ps: seq<nat>)
    requires Repr(Shared(), 0, Pair(Inner(), Inner())) && Lists(ps, Reach(Shared(), 0, Pair(Inner(), Inner())))
    ensures forall p :: p in ps ==> p in Shared()
    ensures !Pinned(Shared(), ps, 6) && Capacity(Shared(), ps, 6) == 1
  {
    hide Repr, Reach, Shared, Pinned, Capacity, Pair;
    SharedReached();
    OnlyFour();
    OneCapacity(Shared(), ps, 6, 4);
  }

  lemma {:induction false} OnlyFour()
    ensures 4 in Shared() && Shared()[4].kind == MappingNode && multiset(Shared()[4].content)[6] == 1
    ensures forall q :: q in Shared() && q != 4 ==> 6 !in Shared()[q].content
  {
    SharedRows();
    hide Shared;
    assert Shared()[4] == Rec(MappingNode, "", [5, 6]) && multiset([5, 6])[6] == 1;
  }

  /** Both places of a path below the shared value are one node, held once: the second removal finds no holder. */
  lemma {:induction false} SharedRemovalCrashes()
    ensures Repr(Before(), 0, Pair(Scalar(""), Scalar(""))) && TreeShaped(Before(), 0, Pair(Scalar(""), Scalar("")))
    ensures Repr(Sub(Before(), map[7 := 4, 8 := 4]), 0, Pair(Inner(), Inner()))
    ensures var g, path := Shared(), [Unwrap, Go(Every), Go(Key("x"))];
      && Repr(g, 0, Pair(Inner(), Inner()))
           && Spots(g, 0, Pair(Inner(), Inner()), path) == [Spot(6, Scalar("")), Spot(6, Scalar(""))]
      && Removal(g, 0, Pair(Inner(), Inner()), path, Always()) == None
  {
    hide Before, Repr, Spots, Sub, TreeShaped, Pair, Reach, Shared, Removal, Capacity, Pinned, Even;
    BeforeIs();
    SharedSpots();
    SharedIs();
    var g, t, path := Shared(), Pair(Inner(), Inner()), [Unwrap, Go(Every), Go(Key("x"))];
    var rank := SharedEven();
    var ps := Listing(Reach(g, 0, t));
    SharedCapacity(ps);
    RemovalFinishes(g, 0, t, path, Always(), rank, ps);
    assert NodesAt(Spots(g, 0, t, path)) == [6, 6];
    PickedTwo(g, 6);
    assert multiset([6, 6])[6] == 2;
    assert 6 in [6, 6];
  }

  lemma {:induction false} PickedTwo<T>(g: Heap<T>, x: T)
    ensures AllStand(g, [x]) ==>
              AllStand(g, [x, x]) && Picked(g, [x, x], Always()) == [x, x] && Picked(g, [x], Always()) == [x]
    ensures AllStand(g, [x, x]) ==> AllStand(g, [x])
  {
    if AllStand(g, [x, x]) {
      assert x in [x, x];
    }
    if AllStand(g, [x]) {
      assert x in [x];
      assert [x, x][1..] == [x] && [x][1..] == [];
      assert Picked(g, [x], Always()) == [x] + Picked(g, [x][1..], Always());
      assert Picked(g, [x, x], Always()) == [x] + Picked(g, [x, x][1..], Always());
    }
  }

  lemma {:induction false} OnceSpots()
    ensures Repr(Shared(), 0, Pair(Inner(), Inner()))
    ensures Spots(Shared(), 0, Pair(Inner(), Inner()), [Unwrap, Go(Key("a")), Go(Key("x"))]) == [Spot(6, Scalar(""))]
  {
    hide Reach, TreeShaped;
    SharedRepr();
    SharedEdges();
    InnerSpot();
    hide Repr, Shared;
    var g, t := Shared(), Pair(Inner(), Inner());
    var m, path := t.children[0], [Unwrap, Go(Key("a")), Go(Key("x"))];
    assert path[1..] == [Go(Key("a")), Go(Key("x"))] && path[1..][1..] == [Go(Key("x"))];
    assert Values(m.children)[0] == "a" && Values(m.children)[2] == "b" && "a"[0] != "b"[0];
    assert g[0].content[0] == 1 && g[1].content[1] == 4;
    OneSpot(g, 1, m, path[1..], 1, 0);
    OneSpot(g, 0, t, path, 0, 0);
  }

  lemma {:induction false} SharedEdges()
    ensures 0 in Shared() && Shared()[0].content == [1] && 1 in Shared() && Shared()[1].content == [2, 4, 3, 4]
  {
    SharedRows();
    hide Shared;
  }

  // ----- removing a shared element

  /** {l: [v, w]} */
  function ListPair(v: Tree, w: Tree): Tree {
    Tree(DocumentNode, "", [Tree(MappingNode, "", [Scalar("l"), Tree(SequenceNode, "", [v, w])])])
  }

  /** {l: ["", ""]}, both elements the same node, as one replacement of both leaves it. */
  function SharedList(): Heap<nat> {
    map[
      0 := Rec(DocumentNode, "", [1]),
      1 := Rec(MappingNode, "", [2, 3]),
      2 := Rec(ScalarNode, "l", []),
      3 := Rec(SequenceNode, "", [4, 4]),
      4 := Rec(ScalarNode, "", [])
    ]
  }

  lemma {:induction false} SharedListRepr()
    ensures Repr(SharedList(), 0, ListPair(Scalar(""), Scalar("")))
    ensures Repr(SharedList(), 3, Tree(SequenceNode, "", [Scalar(""), Scalar("")]))
  {
    LeafRepr(SharedList(), 2);
    LeafRepr(SharedList(), 4);
    var t := ListPair(Scalar(""), Scalar(""));
    assert Repr(SharedList(), 3, Tree(SequenceNode, "", [Scalar(""), Scalar("")]));
    assert Repr(SharedList(), 1, t.children[0]);
  }

  lemma {:induction false} SharedListSpots()
    ensures Repr(SharedList(), 0, ListPair(Scalar(""), Scalar("")))
    ensures Spots(SharedList(), 0, ListPair(Scalar(""), Scalar("")), [Unwrap, Go(Key("l")), Go(Every)])
         == [Spot(4, Scalar("")), Spot(4, Scalar(""))]
  {
    SharedListRepr();
    var g, t := SharedList(), ListPair(Scalar(""), Scalar(""));
    var m, path := t.children[0], [Unwrap, Go(Key("l")), Go(Every)];
    var l, last := m.children[1], [Go(Every)];
    assert path[1..] == [Go(Key("l")), Go(Every)] && path[1..][1..] == last && last[1..] == [];
    assert Values(m.children)[0] == "l" && g[0].content[0] == 1 && g[1].content[1] == 3;
    assert SpotsFrom(g, 3, l, last, 2) == [];
    assert SpotsFrom(g, 3, l, last, 1) == [Spot(4, Scalar(""))];
    assert SpotsFrom(g, 3, l, last, 0) == [Spot(4, Scalar("")), Spot(4, Scalar(""))];
    hide Repr;
    OneSpot(g, 1, m, path[1..], 1, 0);
    OneSpot(g, 0, t, path, 0, 0);
  }

  /** In a sequence all occurrences go at once: the second match of the shared element has no holder any more. */
  lemma {:induction false} SharedElementCrashes()
    ensures var g, t, path := SharedList(), ListPair(Scalar(""), Scalar("")), [Unwrap, Go(Key("l")), Go(Every)];
      Repr(g, 0, t) && Removal(g, 0, t, path, Always()) == None
  {
    SharedListSpots();
    hide Repr, Spots, ListPair, Reach, SharedList, Removal, Capacity, Pinned, Even;
    var g, t, path := SharedList(), ListPair(Scalar(""), Scalar("")), [Unwrap, Go(Key("l")), Go(Every)];
    var rank := SharedListEven();
    var ps := Listing(Reach(g, 0, t));
    SharedListCapacity(ps);
    RemovalFinishes(g, 0, t, path, Always(), rank, ps);
    assert NodesAt(Spots(g, 0, t, path)) == [4, 4];
    PickedTwo(g, 4);
    assert multiset([4, 4])[4] == 2;
    assert 4 in [4, 4];
  }

  lemma {:induction false} SharedListRows(g: Heap<nat>, nodes: set<nat>, rank: map<nat, nat>)
    requires nodes == {0, 1, 2, 3, 4} == g.Keys && rank == map[0 := 0, 1 := 1, 2 := 2, 3 := 2, 4 := 3]
    requires g[0].content == [1] && g[1].content == [2, 3] && g[3].content == [4, 4] && g[2].content == []
        && g[4].content == []
    requires g[0].kind == DocumentNode && g[1].kind == MappingNode && g[3].kind == SequenceNode
    ensures Even(g, nodes, rank)
  {
    var keys: set<nat>, values: set<nat> := {2}, {1, 3, 4};
    assert GoodRow(g, nodes, rank, keys, values, 0);
    assert GoodRow(g, nodes, rank, keys, values, 1);
    assert GoodRow(g, nodes, rank, keys, values, 3);
    LeafRow(g, nodes, rank, keys, values, 2);
    LeafRow(g, nodes, rank, keys, values, 4);
    hide GoodRow, Even;
    EvenRows(g, nodes, rank, keys, values);
  }

  lemma {:induction false} SharedListEven() returns (rank: map<nat, nat>)
    ensures Repr(SharedList(), 0, ListPair(Scalar(""), Scalar("")))
    ensures Even(SharedList(), Reach(SharedList(), 0, ListPair(Scalar(""), Scalar(""))), rank)
  {
    SharedListRepr();
    var g, nodes: set<nat> := SharedList(), {0, 1, 2, 3, 4};
    rank := map[0 := 0, 1 := 1, 2 := 2, 3 := 2, 4 := 3];
    hide Repr, Reach, Even, ListPair;
    assert g[0].content == [1] && g[1].content == [2, 3] && g[3].content == [4, 4] && g[2].content == []
        && g[4].content == [];
    assert g[0].kind == DocumentNode && g[1].kind == MappingNode && g[3].kind == SequenceNode && nodes == g.Keys;
    hide SharedList;
    SharedListRows(g, nodes, rank);
    EvenWithin(g, nodes, rank, 0, ListPair(Scalar(""), Scalar("")));
  }

  lemma {:induction false} SharedListReached()
    ensures Repr(SharedList(), 0, ListPair(Scalar(""), Scalar("")))
        && 3 in Reach(SharedList(), 0, ListPair(Scalar(""), Scalar("")))
    ensures Reach(SharedList(), 0, ListPair(Scalar(""), Scalar(""))) <= SharedList().Keys
  {
    SharedListRepr();
    var g, t := SharedList(), ListPair(Scalar(""), Scalar(""));
    assert g[0].content[0] == 1 && g[1].content[1] == 3;
    ReachInHeap(g, 0, t);
    ReachInHeap(g, 3, t.children[0].children[1]);
    hide Reach, Repr, SharedList;
    ReachChild(g, 0, t, 0);
    ReachChild(g, 1, t.children[0], 1);
  }

  lemma {:induction false} SharedListCapacity(ps: seq<nat>)
    requires Repr(SharedList(), 0, ListPair(Scalar(""), Scalar("")))
    requires Lists(ps, Reach(SharedList(), 0, ListPair(Scalar(""), Scalar(""))))
    ensures forall p :: p in ps ==> p in SharedList()
    ensures !Pinned(SharedList(), ps, 4) && Capacity(SharedList(), ps, 4) == 1
  {
    SharedListReached();
    var g := SharedList();
    hide Repr, Reach, Pinned, Capacity, ListPair;
    assert forall q :: q in g && q != 3 ==> 4 !in g[q].content;
    OneCapacity(g, ps, 4, 3);
  }

  // ----- positions

  function ListOf(elements: seq<Tree>): Tree {
    Tree(DocumentNode, "", [Tree(MappingNode, "", [Scalar("l"), Tree(SequenceNode, "", elements)])])
  }

  lemma {:induction false} ListLookup(elements: seq<Tree>, i: nat, rest: seq<Move>)
    requires i < |elements|
    ensures Lookup(ListOf(elements), [Unwrap, Go(Key("l")), Go(At(i))] + rest) == Lookup(elements[i], rest)
  {
    var t := ListOf(elements);
    var m := t.children[0];
    var l := m.children[1];
    var path := [Unwrap, Go(Key("l")), Go(At(i))] + rest;
    assert path == [Unwrap] + ([Go(Key("l"))] + ([Go(At(i))] + rest));
    OneStep(t, Unwrap, [Go(Key("l"))] + ([Go(At(i))] + rest), 0);
    assert Values(m.children)[0] == "l";
    OneStep(m, Go(Key("l")), [Go(At(i))] + rest, 1);
    OneStep(l, Go(At(i)), rest, i);
  }

  /** Removing a path that leads nowhere changes nothing. */
  lemma {:induction false} DeleteNothing(t: Tree, path: seq<Move>, cond: Tree -> bool)
    requires !Found(t, path)
    ensures Delete(t, path, cond) == t
    decreases |path|
  {
    if |path| == 1 {
      assert path[1..] == [];
      var mask := DeleteMask(t, path[0], cond);
      forall i | 0 <= i < |mask|
        ensures !mask[i]
      {
        assert Selects(t.kind, Values(t.children), path[0], i) ==> Found(t.children[i], path[1..]);
      }
      DropNone(t.kind, t.children, mask);
    } else {
      var r := Delete(t, path, cond);
      forall i | 0 <= i < |t.children|
        ensures r.children[i] == t.children[i]
      {
        if Selects(t.kind, Values(t.children), path[0], i) {
          DeleteNothing(t.children[i], path[1..], cond);
        }
      }
      assert r.children == t.children;
    }
  }

  lemma {:induction false} DeleteFirst(a: Tree, rest: seq<Tree>)
    ensures Delete(ListOf([a] + rest), [Unwrap, Go(Key("l")), Go(At(0))], Always()) == ListOf(rest)
  {
    var l := Tree(SequenceNode, "", [a] + rest);
    var m := Tree(MappingNode, "", [Scalar("l"), l]);
    var p2, p1 := [Go(Key("l")), Go(At(0))], [Go(At(0))];
    assert [Unwrap, Go(Key("l")), Go(At(0))][1..] == p2 && p2[1..] == p1;
    FirstDropped(a, rest);
    assert Delete(l, p1, Always()) == Tree(SequenceNode, "", rest);
    assert Values(m.children)[0] == "l";
    assert Delete(m, p2, Always()).children == [Scalar("l"), Tree(SequenceNode, "", rest)];
    assert Delete(ListOf([a] + rest), [Unwrap, Go(Key("l")), Go(At(0))], Always()).children
        == [Delete(m, p2, Always())];
  }

  lemma {:induction false} FirstDropped(a: Tree, rest: seq<Tree>)
    ensures var l := Tree(SequenceNode, "", [a] + rest);
      Drop(SequenceNode, [a] + rest, DeleteMask(l, Go(At(0)), Always())) == rest
  {
    var l := Tree(SequenceNode, "", [a] + rest);
    var mask := DeleteMask(l, Go(At(0)), Always());
    assert l.children[0] == a && |mask| == |rest| + 1;
    assert Selects(l.kind, Values(l.children), Go(At(0)), 0);
    assert Always()(l.children[0]);
    assert mask[0];
    KeptAfterFirst(mask, |mask|);
  }

  lemma {:induction false} KeptAfterFirst(mask: seq<bool>, k: nat)
    requires 1 <= k <= |mask| && mask[0] && forall i :: 1 <= i < |mask| ==> !mask[i]
    ensures |Kept(SequenceNode, mask, k)| == k - 1 && forall i :: 0 <= i < k - 1 ==>
        Kept(SequenceNode, mask, k)[i] == i + 1
  {
    if k > 1 {
      KeptAfterFirst(mask, k - 1);
    } else {
      assert Kept(SequenceNode, mask, 0) == [];
    }
  }

  /** A reverse patch for a field of the first element, and one for the element. */
  function FieldThenElement(): seq<ReversePatch> {
    [ReversePatch(Some([Key("l"), At(0), Key("x")]), None), ReversePatch(Some([Key("l"), At(0)]), None)]
  }

  /** With positions a removal can bring a field back under a path that was removed before. */
  lemma {:induction false} PositionsLeak()
    ensures var t := ListOf([Scalar(""), Inner()]);
      Lookup(Stripped(t, FieldThenElement()), Moves(DocumentNode, [Key("l"), At(0), Key("x")])) == [Scalar("")]
  {
    var t := ListOf([Scalar(""), Inner()]);
    var ps := FieldThenElement();
    var moves: seq<Move> := [Unwrap, Go(Key("l")), Go(At(0))];
    var x: seq<Move> := [Go(Key("x"))];
    assert Moves(DocumentNode, ps[0].path.value) == moves + x && Moves(DocumentNode, ps[1].path.value) == moves;
    ListLookup([Scalar(""), Inner()], 0, x);
    FoundIsLookup(t, moves + x);
    assert Lookup(Scalar(""), x) == LookupFrom(Scalar(""), x, 0) == [];
    DeleteNothing(t, moves + x, Always());
    DeleteFirst(Scalar(""), [Inner()]);
    assert [Scalar("")] + [Inner()] == [Scalar(""), Inner()];
    assert ps[..1] == [ps[0]] && ps[..1][..0] == [] && ps[..0] == [];
    assert Stripped(t, []) == t;
    assert Stripped(t, ps[..1]) == t;
    assert Stripped(t, ps) == ListOf([Inner()]);
    ListLookup([Inner()], 0, x);
    InnerField();
  }

  lemma {:induction false} InnerField()
    ensures Lookup(Inner(), [Go(Key("x"))]) == [Scalar("")]
  {
    assert Values(Inner().children)[0] == "x";
    assert [Go(Key("x"))] + [] == [Go(Key("x"))];
    OneStep(Inner(), Go(Key("x")), [], 1);
  }

  // ----- numbers as keys

  /** A number as the key of a mapping that is not there yet becomes an element of a sequence, not found by the path. */
  lemma {:induction false} NumberKeyLost(v: Tree)
    ensures var t, path := Tree(DocumentNode, "", [Tree(MappingNode, "", [])]), [Key("a"), Key("1")];
      && IsObject(t) && Lookup(t, Below(path)) == [] && Lookup(Create(t, path, v), Below(path)) != [v]
  {
    var m := Tree(MappingNode, "", []);
    var t, path := Tree(DocumentNode, "", [m]), [Key("a"), Key("1")];
    RootFound(t);
    assert Paired(m) && Paired(t) && Every !in path;
    assert Below(path) == [Unwrap] + [Go(Key("a")), Go(Key("1"))];
    assert Below(path[..1]) == [Unwrap] + [Go(Key("a"))];
    OneStep(t, Unwrap, [Go(Key("a")), Go(Key("1"))], 0);
    OneStep(t, Unwrap, [Go(Key("a"))], 0);
    assert Lookup(m, [Go(Key("a"))]) == LookupFrom(m, [Go(Key("a"))], 0) == [];
    assert Lookup(m, [Go(Key("a")), Go(Key("1"))]) == LookupFrom(m, [Go(Key("a")), Go(Key("1"))], 0) == [];
    assert path[..1][..0] == [] && path[..0] == [] && Depth(t, path) == 0;
    assert Deep(t, path) == m && path[1..] == [Key("1")];
    OneIsNumeric();
    assert !AllWrappable([Key("1")]) by {
      assert Key("1") in [Key("1")];
    }
    PutGet(t, path, v);
  }

  lemma {:induction false} OneIsNumeric()
    ensures Numeric(Key("1"))
  {
    assert "1"[..0] == "";
    assert ParseNat("1") == Some(1);
  }
}
