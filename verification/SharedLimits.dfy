/** Removals and replacements that run through and yet miss their place: documents that one replacement makes. */
module SharedLimits {
  import opened Strings
  import OpPath
  import opened Trees
  import opened Graph
  import opened Replacing
  import opened Removing
  import opened Holders
  import opened Removals
  import opened Placing
  import opened Patches
  import opened PatchLimits

  /** The document {a: v, b: v} of one replacement, and apart from it a node for the scalar "w". */
  ghost function Wider(): Heap<nat> {
    Sub(Before(), map[7 := 4, 8 := 4])[9 := Rec(ScalarNode, "w", [])]
  }

  function B(): seq<Move> {
    [Unwrap, Go(OpPath.Key("b"))]
  }

  ghost predicate TwoPlaces(g: Heap<nat>) {
    && {0, 1, 2, 3, 4, 5, 6} <= g.Keys
    && g[0] == Rec(DocumentNode, "", [1]) && g[1] == Rec(MappingNode, "", [2, 4, 3, 4])
    && g[2] == Rec(ScalarNode, "a", []) && g[3] == Rec(ScalarNode, "b", [])
    && g[4] == Rec(MappingNode, "", [5, 6]) && g[5] == Rec(ScalarNode, "x", []) && g[6] == Rec(ScalarNode, "", [])
  }

  lemma {:induction false} WiderTwoPlaces()
    ensures TwoPlaces(Shared()) && TwoPlaces(Wider()) && 9 in Wider() && Wider()[9] == Rec(ScalarNode, "w", [])
  {
    SharedRows();
    SharedIs();
  }

  lemma {:induction false} ValueRepr(g: Heap<nat>)
    requires 4 in g && 5 in g && 6 in g
    requires g[4] == Rec(MappingNode, "", [5, 6]) && g[5] == Rec(ScalarNode, "x", []) && g[6] == Rec(ScalarNode, "", [])
    ensures Repr(g, 4, Inner())
  {
    LeafRepr(g, 5);
    LeafRepr(g, 6);
    assert Inner().children == [Scalar("x"), Scalar("")];
  }

  /** {k: v} */
  function Single(key: string, v: Tree): Tree {
    Tree(DocumentNode, "", [Tree(MappingNode, "", [Scalar(key), v])])
  }

  lemma {:induction false} ReachClosed(g: Heap<nat>, nodes: set<nat>, n: nat, t: Tree)
    requires Repr(g, n, t) && n in nodes && forall p, c :: p in nodes && p in g && c in g[p].content ==> c in nodes
    ensures Reach(g, n, t) <= nodes
    decreases t
  {
    forall i | 0 <= i < |t.children|
      ensures Reach(g, g[n].content[i], t.children[i]) <= nodes
    {
      ReachClosed(g, nodes, g[n].content[i], t.children[i]);
    }
  }

  lemma {:induction false} TwoPlacesRepr(g: Heap<nat>)
    requires TwoPlaces(g)
    ensures var t := Pair(Inner(), Inner());
      Repr(g, 0, t) && Repr(g, 1, t.children[0]) && Repr(g, 4, Inner()) && Reach(g, 0, t) <= {0, 1, 2, 3, 4, 5, 6}
  {
    ValueRepr(g);
    LeafRepr(g, 2);
    LeafRepr(g, 3);
    var t := Pair(Inner(), Inner());
    var m := t.children[0];
    assert m.children == [Scalar("a"), Inner(), Scalar("b"), Inner()];
    assert Repr(g, 1, m);
    hide Inner, Reach;
    ReachClosed(g, {0, 1, 2, 3, 4, 5, 6}, 0, t);
  }

  lemma {:induction false} HolderTop(g: Heap<nat>, n: nat, t: Tree, x: nat)
    requires Repr(g, n, t) && x in g[n].content
    ensures Holder(g, n, t, x) == Some(n)
  {
  }

  lemma {:induction false} HolderDown(g: Heap<nat>, n: nat, t: Tree, x: nat, i: nat)
    requires Repr(g, n, t) && x !in g[n].content && i < |t.children|
    requires Holder(g, g[n].content[i], t.children[i], x).Some?
    requires forall j :: 0 <= j < i ==> Holder(g, g[n].content[j], t.children[j], x) == None
    ensures Holder(g, n, t, x) == Holder(g, g[n].content[i], t.children[i], x)
  {
    HolderOver(g, n, t, x, 0, i);
  }

  lemma {:induction false} HolderOver(g: Heap<nat>, n: nat, t: Tree, x: nat, k: nat, i: nat)
    requires Repr(g, n, t) && k <= i < |t.children|
    requires Holder(g, g[n].content[i], t.children[i], x).Some?
    requires forall j :: k <= j < i ==> Holder(g, g[n].content[j], t.children[j], x) == None
    ensures HolderFrom(g, n, t, x, k) == Holder(g, g[n].content[i], t.children[i], x)
    decreases i - k
  {
    hide Repr, Holder;
    if k < i {
      HolderOver(g, n, t, x, k + 1, i);
    }
  }

  /** The path `$.b` leads to the shared node, whose first holder is the mapping. */
  lemma {:induction false} BSpot(g: Heap<nat>)
    requires TwoPlaces(g)
    ensures var t := Pair(Inner(), Inner());
      && Repr(g, 0, t) && Spots(g, 0, t, B()) == [Spot(4, Inner())] && Holder(g, 0, t, 4) == Some(1)
  {
    TwoPlacesRepr(g);
    var t := Pair(Inner(), Inner());
    assert g[0].content == [1] && g[1].content == [2, 4, 3, 4];
    hide Repr, Reach, TwoPlaces, Inner, Spots, Holder;
    BHolder(g, t);
    assert B()[1..] == [Go(OpPath.Key("b"))];
    MiddleSpot(g, t.children[0]);
    hide SpotsFrom;
    TopSpot(g, t);
    FromSpots(g, 0, t, B());
  }

  lemma {:induction false} BHolder(g: Heap<nat>, t: Tree)
    requires Repr(g, 0, t) && g[0].content == [1] && 1 in g && g[1].content == [2, 4, 3, 4]
    ensures Holder(g, 0, t, 4) == Some(1)
  {
    ReachChild(g, 0, t, 0);
    hide Repr, Holder;
    HolderTop(g, 1, t.children[0], 4);
    HolderDown(g, 0, t, 4, 0);
  }

  lemma {:induction false} TopSpot(g: Heap<nat>, t: Tree)
    requires Repr(g, 0, t) && g[0].content == [1] && t.kind == DocumentNode && |t.children| == 1
    ensures Repr(g, 1, t.children[0]) && SpotsFrom(g, 0, t, B(), 0) == Spots(g, 1, t.children[0], B()[1..])
  {
    ReachChild(g, 0, t, 0);
    hide Repr;
    OneSpot(g, 0, t, B(), 0, 0);
  }

  lemma {:induction false} FromSpots(g: Heap<nat>, n: nat, t: Tree, path: seq<Move>)
    requires Repr(g, n, t) && path != []
    ensures Spots(g, n, t, path) == SpotsFrom(g, n, t, path, 0)
  {
  }

  lemma {:induction false} BSelects()
    ensures var m := Pair(Inner(), Inner()).children[0];
      forall j :: 0 <= j < |m.children| ==> (Selects(m.kind, Values(m.children), Go(OpPath.Key("b")), j) <==> j == 3)
  {
    hide Inner;
    var m := Pair(Inner(), Inner()).children[0];
    assert Values(m.children)[0] == "a" && Values(m.children)[2] == "b" && "a"[0] != "b"[0];
  }

  lemma {:induction false} MiddleSpot(g: Heap<nat>, m: Tree)
    requires Repr(g, 1, m) && g[1].content == [2, 4, 3, 4] && m == Pair(Inner(), Inner()).children[0]
    ensures Repr(g, 4, Inner()) && Spots(g, 1, m, [Go(OpPath.Key("b"))]) == [Spot(4, Inner())]
  {
    ReachChild(g, 1, m, 3);
    BSelects();
    var last: seq<Move> := [Go(OpPath.Key("b"))];
    assert last[1..] == [];
    hide Repr, Inner;
    OneSpot(g, 1, m, last, 3, 0);
  }

  lemma {:induction false} OneRemoved(g: Heap<nat>, t: Tree, path: seq<Move>, x: nat, s: Tree)
    requires Repr(g, 0, t) && Spots(g, 0, t, path) == [Spot(x, s)]
    ensures Stands(g, 0) && Removal(g, 0, t, path, Always()) == TakenOut(g, 0, x)
  {
    SpotsStand(g, 0, t, path);
    var nodes := NodesAt(Spots(g, 0, t, path));
    assert nodes == [x] && nodes[0..] == nodes && nodes[1..] == [];
    hide TakenOut;
    RemovedStep(g, 0, nodes, 0, Always());
  }

  /**
   The field that is to go stays and the other one goes: of {a: v, b: v} without `$.b` the entry b is left, and the
   path still leads to the value. Nothing crashes.
   */
  lemma {:induction false} OtherFieldGoes()
    ensures var g, t := Shared(), Pair(Inner(), Inner());
      Repr(g, 0, t) && Removal(g, 0, t, B(), Always()).Some?
    ensures var h := Removal(Shared(), 0, Pair(Inner(), Inner()), B(), Always()).value;
      Repr(h, 0, Single("b", Inner())) && Lookup(Single("b", Inner()), B()) == [Inner()]
    ensures Delete(Pair(Inner(), Inner()), B(), Always()) == Single("a", Inner())
  {
    var g, t := Shared(), Pair(Inner(), Inner());
    WiderTwoPlaces();
    BSpot(g);
    OneRemoved(g, t, B(), 4, Inner());
    hide Removal, TakenOut, Shared, Spots, Lookup, Inner;
    FourTaken(g);
    var h := g[1 := Rec(MappingNode, "", [3, 4])];
    SingleRepr(h, 3, "b", 4);
    SingleLookup("b", Inner());
    PairDelete();
  }

  lemma {:induction false} FourTaken(g: Heap<nat>)
    requires TwoPlaces(g) && Repr(g, 0, Pair(Inner(), Inner())) && Holder(g, 0, Pair(Inner(), Inner()), 4) == Some(1)
    ensures Stands(g, 0) && TakenOut(g, 0, 4) == Some(g[1 := Rec(MappingNode, "", [3, 4])])
  {
    StandsFor(g, 0, Pair(Inner(), Inner()));
    hide Repr, Holder;
    var row := [2, 4, 3, 4];
    FirstIs(row, 1, 4);
    assert Without(MappingNode, row, 1) == [3, 4];
    assert g[1].content == row;
  }

  lemma {:induction false} SingleRepr(h: Heap<nat>, k: nat, key: string, v: nat)
    requires {0, 1, 4, 5, 6, k} <= h.Keys && h[0] == Rec(DocumentNode, "", [1]) && h[1] == Rec(MappingNode, "", [k, 4])
    requires h[k] == Rec(ScalarNode, key, []) && v == 4
    requires h[4] == Rec(MappingNode, "", [5, 6]) && h[5] == Rec(ScalarNode, "x", []) && h[6] == Rec(ScalarNode, "", [])
    ensures Repr(h, 0, Single(key, Inner()))
  {
    ValueRepr(h);
    LeafRepr(h, k);
    var m := Tree(MappingNode, "", [Scalar(key), Inner()]);
    hide Inner;
    assert Repr(h, 1, m);
  }

  lemma {:induction false} SingleLookup(key: string, v: Tree)
    ensures Lookup(Single(key, v), [Unwrap, Go(OpPath.Key(key))]) == [v]
  {
    var t := Single(key, v);
    var m, path: seq<Move> := t.children[0], [Unwrap, Go(OpPath.Key(key))];
    assert path[1..] == [Go(OpPath.Key(key))] && path[1..][1..] == [];
    assert Values(m.children)[0] == key;
    assert LookupFrom(m, path[1..], 2) == [] && LookupFrom(m, path[1..], 1) == [v]
        && LookupFrom(m, path[1..], 0) == [v];
    assert LookupFrom(t, path, 1) == [] && LookupFrom(t, path, 0) == [v];
  }

  lemma {:induction false} FirstPairKept(mask: seq<bool>)
    requires |mask| == 4 && !mask[1] && mask[3]
    ensures Kept(MappingNode, mask, 4) == [0, 1]
  {
    assert Kept(MappingNode, mask, 0) == [] && Kept(MappingNode, mask, 2) == [0, 1];
  }

  lemma {:induction false} PairDelete()
    ensures Delete(Pair(Inner(), Inner()), B(), Always()) == Single("a", Inner())
  {
    hide Inner;
    var t := Pair(Inner(), Inner());
    var m := t.children[0];
    var last := B()[1..];
    assert last == [Go(OpPath.Key("b"))];
    assert Values(m.children)[0] == "a" && Values(m.children)[2] == "b" && "a"[0] != "b"[0];
    var mask := DeleteMask(m, last[0], Always());
    assert Always()(m.children[3]) && Odd(3) && Odd(1);
    assert |mask| == 4 && !mask[0] && !mask[1] && !mask[2] && mask[3];
    FirstPairKept(mask);
    assert Drop(MappingNode, m.children, mask) == [Scalar("a"), Inner()] by {
      hide Kept;
    }
    hide Kept, Drop;
    assert Delete(m, last, Always()).children == [Scalar("a"), Inner()];
    assert Delete(t, B(), Always()).children == [Delete(m, last, Always())];
  }

  // ----- a second replacement

  /** The replacement of `$.b` puts the value under a. */
  lemma {:induction false} OtherFieldReplaced()
    ensures var g, t := Wider(), Pair(Inner(), Inner());
      && Beside(g, 0, t, 9, Scalar("w"))
      && Repr(Placement(g, 0, t, B(), Always(), 9, Scalar("w")), 0, Pair(Scalar("w"), Inner()))
      && Rewrite(t, B(), Given(Always(), Scalar("w"))) == Pair(Inner(), Scalar("w")) != Pair(Scalar("w"), Inner())
  {
    var g, t, w := Wider(), Pair(Inner(), Inner()), Scalar("w");
    WiderTwoPlaces();
    hide Wider, Inner;
    WIsBeside(g);
    BSpot(g);
    OnePlaced(g, t, B(), 4, Inner());
    hide Repr, Reach, Spots, Placement, Rewrite;
    PutFour(g);
    PutRepr1(g[1 := Rec(MappingNode, "", [2, 9, 3, 4])]);
    PairRewrite();
  }

  lemma {:induction false} WIsBeside(g: Heap<nat>)
    requires TwoPlaces(g) && 9 in g && g[9] == Rec(ScalarNode, "w", [])
    ensures Beside(g, 0, Pair(Inner(), Inner()), 9, Scalar("w"))
  {
    TwoPlacesRepr(g);
    LeafRepr(g, 9);
    hide Inner, TwoPlaces, Repr, Reach, Pair, Scalar;
    NotNine(Reach(g, 0, Pair(Inner(), Inner())), Reach(g, 9, Scalar("w")));
  }

  lemma {:induction false} NotNine(a: set<nat>, b: set<nat>)
    requires a <= {0, 1, 2, 3, 4, 5, 6} && b == {9}
    ensures a !! b
  {
    assert 9 !in a;
  }

  lemma {:induction false} PutFour(g: Heap<nat>)
    requires TwoPlaces(g) && Repr(g, 0, Pair(Inner(), Inner())) && Holder(g, 0, Pair(Inner(), Inner()), 4) == Some(1)
    ensures Stands(g, 0) && PutIn(g, 0, 4, 9) == g[1 := Rec(MappingNode, "", [2, 9, 3, 4])]
  {
    StandsFor(g, 0, Pair(Inner(), Inner()));
    hide Repr, Holder;
    var row := [2, 4, 3, 4];
    FirstIs(row, 1, 4);
    assert Spliced(row, 1, [9]) == [2, 9, 3, 4];
    assert g[1].content == row;
  }

  lemma {:induction false} OnePlaced(g: Heap<nat>, t: Tree, path: seq<Move>, x: nat, s: Tree)
    requires Beside(g, 0, t, 9, Scalar("w")) && Repr(g, 0, t) && Spots(g, 0, t, path) == [Spot(x, s)]
    ensures Stands(g, 0) && Placement(g, 0, t, path, Always(), 9, Scalar("w")) == PutIn(g, 0, x, 9)
  {
    SpotsForeign(g, 0, t, path, 9, Scalar("w"));
    var nodes := NodesAt(Spots(g, 0, t, path));
    assert nodes == [x] && nodes[0..] == nodes && nodes[1..] == [];
    hide PutIn;
    PutStep(g, 0, nodes, 0, Always(), 9);
  }

  lemma {:induction false} PutRepr1(h: Heap<nat>)
    requires {0, 1, 2, 3, 4, 5, 6, 9} <= h.Keys && h[0] == Rec(DocumentNode, "", [1])
    requires h[1] == Rec(MappingNode, "", [2, 9, 3, 4])
    requires h[2] == Rec(ScalarNode, "a", []) && h[3] == Rec(ScalarNode, "b", []) && h[9] == Rec(ScalarNode, "w", [])
    requires h[4] == Rec(MappingNode, "", [5, 6]) && h[5] == Rec(ScalarNode, "x", []) && h[6] == Rec(ScalarNode, "", [])
    ensures Repr(h, 0, Pair(Scalar("w"), Inner()))
  {
    ValueRepr(h);
    LeafRepr(h, 2);
    LeafRepr(h, 3);
    LeafRepr(h, 9);
    var m := Pair(Scalar("w"), Inner()).children[0];
    hide Inner;
    assert Repr(h, 1, m);
  }

  lemma {:induction false} PairRewrite()
    ensures Rewrite(Pair(Inner(), Inner()), B(), Given(Always(), Scalar("w"))) == Pair(Inner(), Scalar("w"))
    ensures Pair(Inner(), Scalar("w")) != Pair(Scalar("w"), Inner())
  {
    assert Inner().kind != Scalar("w").kind;
    hide Inner;
    var t, f := Pair(Inner(), Inner()), Given(Always(), Scalar("w"));
    var m := t.children[0];
    var last := B()[1..];
    assert last == [Go(OpPath.Key("b"))] && last[1..] == [];
    assert Values(m.children)[0] == "a" && Values(m.children)[2] == "b" && "a"[0] != "b"[0];
    assert Rewrite(Inner(), [], f) == Scalar("w");
    assert Rewrite(m, last, f).children == [Scalar("a"), Inner(), Scalar("b"), Scalar("w")];
    assert Rewrite(t, B(), f).children == [Rewrite(m, last, f)];
    var p, q := Pair(Inner(), Scalar("w")), Pair(Scalar("w"), Inner());
    assert p.children[0].children[1] != q.children[0].children[1];
  }

  // ----- inside the value

  /** Removing `$.a.x` empties the value at both places. */
  lemma {:induction false} BothPlacesEmptied()
    ensures var g, t, path := Shared(), Pair(Inner(), Inner()), [Unwrap, Go(OpPath.Key("a")), Go(OpPath.Key("x"))];
      Repr(g, 0, t) && Removal(g, 0, t, path, Always()).Some?
    ensures var path, empty := [Unwrap, Go(OpPath.Key("a")), Go(OpPath.Key("x"))], Tree(MappingNode, "", []);
      var h := Removal(Shared(), 0, Pair(Inner(), Inner()), path, Always()).value;
      && Repr(h, 0, Pair(empty, empty))
      && Delete(Pair(Inner(), Inner()), path, Always()) == Pair(empty, Inner()) != Pair(empty, empty)
  {
    var g, t, path := Shared(), Pair(Inner(), Inner()), [Unwrap, Go(OpPath.Key("a")), Go(OpPath.Key("x"))];
    WiderTwoPlaces();
    TwoPlacesRepr(g);
    OnceSpots();
    OneRemoved(g, t, path, 6, Scalar(""));
    hide Removal, TakenOut, Shared, Spots, Inner;
    SixTaken(g);
    var h := g[4 := Rec(MappingNode, "", [])];
    EmptyRepr(h);
    InnerDelete();
  }

  lemma {:induction false} SixTaken(g: Heap<nat>)
    requires TwoPlaces(g) && Repr(g, 0, Pair(Inner(), Inner()))
    ensures Stands(g, 0) && TakenOut(g, 0, 6) == Some(g[4 := Rec(MappingNode, "", [])])
  {
    StandsFor(g, 0, Pair(Inner(), Inner()));
    XHolder(g);
    hide Repr, Holder;
    var row := [5, 6];
    FirstIs(row, 1, 6);
    assert Without(MappingNode, row, 1) == [];
    assert g[4].content == row;
  }

  lemma {:induction false} XHolder(g: Heap<nat>)
    requires TwoPlaces(g) && Repr(g, 0, Pair(Inner(), Inner()))
    ensures Holder(g, 0, Pair(Inner(), Inner()), 6) == Some(4)
  {
    TwoPlacesRepr(g);
    var t := Pair(Inner(), Inner());
    var m := t.children[0];
    LeafRepr(g, 2);
    assert Holder(g, 2, Scalar("a"), 6) == None;
    assert g[0].content == [1] && g[1].content == [2, 4, 3, 4] && g[4].content == [5, 6];
    hide Repr, Inner, Holder, TwoPlaces;
    HolderTop(g, 4, Inner(), 6);
    HolderDown(g, 1, m, 6, 1);
    HolderDown(g, 0, t, 6, 0);
  }

  lemma {:induction false} EmptyRepr(h: Heap<nat>)
    requires {0, 1, 2, 3, 4} <= h.Keys && h[0] == Rec(DocumentNode, "", [1])
    requires h[1] == Rec(MappingNode, "", [2, 4, 3, 4]) && h[4] == Rec(MappingNode, "", [])
    requires h[2] == Rec(ScalarNode, "a", []) && h[3] == Rec(ScalarNode, "b", [])
    ensures var empty := Tree(MappingNode, "", []); Repr(h, 0, Pair(empty, empty))
  {
    var empty := Tree(MappingNode, "", []);
    LeafRepr(h, 2);
    LeafRepr(h, 3);
    assert Repr(h, 4, empty);
    var m := Pair(empty, empty).children[0];
    assert Repr(h, 1, m);
  }

  lemma {:induction false} InnerDelete()
    ensures var path, empty := [Unwrap, Go(OpPath.Key("a")), Go(OpPath.Key("x"))], Tree(MappingNode, "", []);
      Delete(Pair(Inner(), Inner()), path, Always()) == Pair(empty, Inner()) != Pair(empty, empty)
  {
    var path, empty := [Unwrap, Go(OpPath.Key("a")), Go(OpPath.Key("x"))], Tree(MappingNode, "", []);
    var t := Pair(Inner(), Inner());
    var m, last := t.children[0], [Go(OpPath.Key("x"))];
    assert path[1..] == [Go(OpPath.Key("a")), Go(OpPath.Key("x"))] && path[1..][1..] == last;
    var mask := DeleteMask(Inner(), last[0], Always());
    assert Values(Inner().children)[0] == "x";
    assert Always()(Inner().children[1]) && Odd(1);
    assert |mask| == 2 && mask[1];
    assert Kept(MappingNode, mask, 0) == [] && Kept(MappingNode, mask, 2) == [];
    assert Delete(Inner(), last, Always()) == empty;
    assert Values(m.children)[0] == "a" && Values(m.children)[2] == "b" && "a"[0] != "b"[0];
    assert Delete(m, path[1..], Always()).children == [Scalar("a"), empty, Scalar("b"), Inner()];
    assert Delete(t, path, Always()).children == [Delete(m, path[1..], Always())];
    assert Pair(empty, Inner()).children[0].children[3] != Pair(empty, empty).children[0].children[3];
  }
}
