/** The positions of a document one step above the places of a path, and removals from documents with sharing. */
module Marking {
  import opened Strings
  import opened Trees
  import opened Graph
  import opened Removing
  import opened Holders
  import opened Removals
  import opened SharedRemoving
  import opened Scans

  // ----- positions in document order

  predicate ValueAt(kind: Kind, i: nat) {
    kind == MappingNode ==> Odd(i)
  }

  /**
   All positions of values as deep as the places of the path, in document order; chosen are those the path leads
   to, if on says that it has led here, and that meet the condition. With whole, positions of a list that hold the
   same node go together.
   */
  ghost function Marks<T>(g: Heap<T>, n: T, t: Tree, path: seq<Move>, on: bool, cond: Tree -> bool, whole: bool := true)
    : seq<Mark<T>>
    requires Repr(g, n, t) && path != []
    decreases |path|, |t.children| + 1
  {
    MarksFrom(g, n, t, path, on, cond, 0, whole)
  }

  ghost function MarksFrom<T>(g: Heap<T>, n: T, t: Tree, path: seq<Move>, on: bool, cond: Tree -> bool, i: nat,
                              whole: bool := true): seq<Mark<T>>
    requires Repr(g, n, t) && path != [] && i <= |t.children|
    decreases |path|, |t.children| - i
  {
    if i == |t.children| then []
    else MarksAt(g, n, t, path, on, cond, i, whole) + MarksFrom(g, n, t, path, on, cond, i + 1, whole)
  }

  ghost function MarksAt<T>(g: Heap<T>, n: T, t: Tree, path: seq<Move>, on: bool, cond: Tree -> bool, i: nat,
                            whole: bool := true): seq<Mark<T>>
    requires Repr(g, n, t) && path != [] && i < |t.children|
    decreases |path|, 0
  {
    var selected := on && Selects(t.kind, Values(t.children), path[0], i);
    if |path| > 1 then Marks(g, g[n].content[i], t.children[i], path[1..], selected, cond, whole)
    else if ValueAt(t.kind, i) then
      [Mark(n, i, g[n].content[i], whole && t.kind == SequenceNode, selected && cond(t.children[i]))]
    else []
  }

  lemma {:induction false} SelectsValue(kind: Kind, keys: seq<string>, move: Move, i: nat)
    requires i < |keys| && Selects(kind, keys, move, i)
    ensures ValueAt(kind, i)
  {
  }

  lemma {:induction false} PickedConcat<T>(g: Heap<T>, a: seq<T>, b: seq<T>, cond: Tree -> bool)
    requires AllStand(g, a) && AllStand(g, b)
    ensures AllStand(g, a + b) && Picked(g, a + b, cond) == Picked(g, a, cond) + Picked(g, b, cond)
  {
    if a == [] {
      assert a + b == b;
    } else {
      assert (a + b)[1..] == a[1..] + b && (a + b)[0] == a[0];
      assert forall x :: x in a + b <==> x in a || x in b;
      assert AllStand(g, a[1..]);
      PickedConcat(g, a[1..], b, cond);
      var head := if cond(TreeOf(g, a[0])) then [a[0]] else [];
      assert Picked(g, a + b, cond) == head + Picked(g, a[1..] + b, cond);
      assert Picked(g, a, cond) == head + Picked(g, a[1..], cond);
    }
  }

  /** The matches that meet the condition are the nodes of the chosen positions. */
  lemma {:induction false} PickedAreChosen<T>(g: Heap<T>, n: T, t: Tree, path: seq<Move>, on: bool, cond: Tree -> bool,
                                              whole: bool := true)
    requires Repr(g, n, t) && path != []
    ensures AllStand(g, NodesAt(Spots(g, n, t, path)))
    ensures ChosenNodes(Marks(g, n, t, path, on, cond, whole))
         == if on then Picked(g, NodesAt(Spots(g, n, t, path)), cond) else []
    decreases |path|, |t.children| + 1
  {
    SpotsStand(g, n, t, path);
    PickedFrom(g, n, t, path, on, cond, 0, whole);
  }

  ghost function SpotsAt<T>(g: Heap<T>, n: T, t: Tree, path: seq<Move>, i: nat): seq<Spot<T>>
    requires Repr(g, n, t) && path != [] && i < |t.children|
  {
    if Selects(t.kind, Values(t.children), path[0], i) then Spots(g, g[n].content[i], t.children[i], path[1..]) else []
  }

  lemma {:induction false} SpotsStep<T>(g: Heap<T>, n: T, t: Tree, path: seq<Move>, i: nat)
    requires Repr(g, n, t) && path != [] && i < |t.children|
    ensures NodesAt(SpotsFrom(g, n, t, path, i))
         == NodesAt(SpotsAt(g, n, t, path, i)) + NodesAt(SpotsFrom(g, n, t, path, i + 1))
  {
    assert SpotsFrom(g, n, t, path, i) == SpotsAt(g, n, t, path, i) + SpotsFrom(g, n, t, path, i + 1);
  }

  lemma {:induction false} PickedFrom<T>(g: Heap<T>, n: T, t: Tree, path: seq<Move>, on: bool, cond: Tree -> bool,
                                         i: nat, whole: bool := true)
    requires Repr(g, n, t) && path != [] && i <= |t.children|
    ensures AllStand(g, NodesAt(SpotsFrom(g, n, t, path, i)))
    ensures ChosenNodes(MarksFrom(g, n, t, path, on, cond, i, whole))
         == if on then Picked(g, NodesAt(SpotsFrom(g, n, t, path, i)), cond) else []
    decreases |path|, |t.children| - i
  {
    if i < |t.children| {
      PickedFrom(g, n, t, path, on, cond, i + 1, whole);
      PickedAt(g, n, t, path, on, cond, i, whole);
      SpotsStep(g, n, t, path, i);
      MarksStep(g, n, t, path, on, cond, i, whole);
      hide *;
      PickedJoin(g, NodesAt(SpotsAt(g, n, t, path, i)), NodesAt(SpotsFrom(g, n, t, path, i + 1)),
          NodesAt(SpotsFrom(g, n, t, path, i)), cond);
    }
  }

  lemma {:induction false} PickedJoin<T>(g: Heap<T>, a: seq<T>, b: seq<T>, ab: seq<T>, cond: Tree -> bool)
    requires AllStand(g, a) && AllStand(g, b) && ab == a + b
    ensures AllStand(g, ab) && Picked(g, ab, cond) == Picked(g, a, cond) + Picked(g, b, cond)
  {
    PickedConcat(g, a, b, cond);
  }

  lemma {:induction false} MarksStep<T>(g: Heap<T>, n: T, t: Tree, path: seq<Move>, on: bool, cond: Tree -> bool,
                                        i: nat, whole: bool := true)
    requires Repr(g, n, t) && path != [] && i < |t.children|
    ensures ChosenNodes(MarksFrom(g, n, t, path, on, cond, i, whole))
         == ChosenNodes(MarksAt(g, n, t, path, on, cond, i, whole)) + ChosenNodes(MarksFrom(g, n, t, path, on, cond,
             i + 1, whole))
  {
    ChosenConcat(MarksAt(g, n, t, path, on, cond, i, whole), MarksFrom(g, n, t, path, on, cond, i + 1, whole));
  }

  lemma {:induction false} PickedAt<T>(g: Heap<T>, n: T, t: Tree, path: seq<Move>, on: bool, cond: Tree -> bool, i: nat,
                                       whole: bool := true)
    requires Repr(g, n, t) && path != [] && i < |t.children|
    ensures var here := SpotsAt(g, n, t, path, i);
      && AllStand(g, NodesAt(here))
      && ChosenNodes(MarksAt(g, n, t, path, on, cond, i, whole)) == if on then Picked(g, NodesAt(here), cond) else []
    decreases |path|, 0
  {
    var c, tc := g[n].content[i], t.children[i];
    var selected := on && Selects(t.kind, Values(t.children), path[0], i);
    if |path| > 1 {
      PickedAreChosen(g, c, tc, path[1..], selected, cond, whole);
    } else {
      if Selects(t.kind, Values(t.children), path[0], i) {
        SelectsValue(t.kind, Values(t.children), path[0], i);
      }
      assert Spots(g, c, tc, path[1..]) == [Spot(c, tc)];
      assert NodesAt([Spot(c, tc)]) == [c];
      StandsFor(g, c, tc);
      PickedOne(g, c, cond);
    }
  }

  lemma {:induction false} PickedOne<T>(g: Heap<T>, c: T, cond: Tree -> bool)
    requires Stands(g, c)
    ensures AllStand(g, [c]) && Picked(g, [c], cond) == if cond(TreeOf(g, c)) then [c] else []
  {
    assert c in [c];
    assert [c][1..] == [];
    assert Picked(g, [c][1..], cond) == [];
  }

  // ----- documents without some positions

  ghost function UnitAt<T>(g: Heap<T>, p: T, i: nat, whole: bool := true): Unit<T>
    requires p in g && i < |g[p].content|
  {
    Unit(p, g[p].content[i], if whole && g[p].kind == SequenceNode then 0 else i)
  }

  ghost function MaskAt<T>(g: Heap<T>, p: T, units: set<Unit<T>>): seq<bool>
    requires p in g
  {
    seq(|g[p].content|, i requires 0 <= i < |g[p].content| => UnitAt(g, p, i) in units)
  }

  /** The heap once every content list has lost the positions, in mappings together with their keys. */
  ghost function DelAt<T>(g: Heap<T>, units: set<Unit<T>>): Heap<T> {
    map p | p in g :: g[p].(content := Drop(g[p].kind, g[p].content, MaskAt(g, p, units)))
  }

  /** Positions of values of mappings and lists. */
  ghost predicate Values1<T>(g: Heap<T>, units: set<Unit<T>>) {
    forall p, i: nat :: p in g && i < |g[p].content| && UnitAt(g, p, i) in units ==>
      (g[p].kind == MappingNode && Odd(i)) || g[p].kind == SequenceNode
  }

  /** What is left of a content list, and where it was. */
  lemma {:induction false} LeftOf<T>(g: Heap<T>, p: T, units: set<Unit<T>>, x: T)
    requires p in g && Values1(g, units) && (g[p].kind == MappingNode ==> Aside(g[p].content, x))
    ensures p in DelAt(g, units) && DelAt(g, units)[p].kind == g[p].kind && DelAt(g, units)[p].value == g[p].value
    ensures x in DelAt(g, units)[p].content
        <==> exists i :: 0 <= i < |g[p].content| && g[p].content[i] == x && UnitAt(g, p, i) !in units
  {
    var mask := MaskAt(g, p, units);
    var kept, content := Kept(g[p].kind, mask, |mask|), DelAt(g, units)[p].content;
    KeptPairs(mask, |mask|);
    KeptUnmasked(mask, |mask|);
    if x in content {
      var k :| 0 <= k < |content| && content[k] == x;
      assert g[p].content[kept[k]] == x;
      assert UnitAt(g, p, kept[k]) !in units by {
        if g[p].kind == MappingNode {
          assert Odd(kept[k]) && !mask[kept[k]];
        } else if g[p].kind == SequenceNode {
          assert !mask[kept[k]];
        }
      }
    }
    if i :| 0 <= i < |g[p].content| && g[p].content[i] == x && UnitAt(g, p, i) !in units {
      assert !mask[i];
      var at := KeptHas(g[p].kind, mask, |mask|, i);
      assert content[at] == x;
    }
  }

  /** Taking the first occurrence of x that is left, in a list every occurrence, takes one more unit. */
  lemma {:induction false} TakenAt<T>(g: Heap<T>, p: T, units: set<Unit<T>>, x: T, i: nat)
    requires p in g && Values1(g, units) && (g[p].kind == MappingNode ==> Aside(g[p].content, x))
    requires g[p].kind == MappingNode || g[p].kind == SequenceNode
    requires i < |g[p].content| && g[p].content[i] == x && UnitAt(g, p, i) !in units
    requires forall j :: 0 <= j < i && g[p].content[j] == x ==> UnitAt(g, p, j) in units
    ensures p in DelAt(g, units) && x in DelAt(g, units)[p].content
    ensures TakenFrom(DelAt(g, units), p, x) == Some(DelAt(g, units + {UnitAt(g, p, i)}))
  {
    LeftOf(g, p, units, x);
    if g[p].kind == MappingNode {
      MappingTaken(g, p, units, x, i);
    } else {
      ListTaken(g, p, units, x, i);
    }
  }

  lemma {:induction false} OtherRows<T>(g: Heap<T>, p: T, units: set<Unit<T>>, u: Unit<T>)
    requires u.holder == p && p in g
    ensures forall q :: q in g && q != p ==> DelAt(g, units + {u})[q] == DelAt(g, units)[q]
  {
    forall q | q in g && q != p
      ensures MaskAt(g, q, units + {u}) == MaskAt(g, q, units)
    {
    }
  }

  /** The first occurrence of x in what is left of a mapping is the first position of x that is left. */
  lemma {:induction false} FirstKept<T>(content: seq<T>, mask: seq<bool>, x: T, i: nat) returns (k: nat)
    requires |mask| == |content| && Aside(content, x) && i < |content| && content[i] == x && !mask[i]
    requires forall j :: 0 <= j < i && content[j] == x ==> mask[j]
    ensures k < |Kept(MappingNode, mask, |mask|)| && Kept(MappingNode, mask, |mask|)[k] == i && Odd(i)
    ensures var left := Drop(MappingNode, content, mask);
      x in left && FirstAt(left, x) == k && left[0] != x
  {
    var kept, left := Kept(MappingNode, mask, |mask|), Drop(MappingNode, content, mask);
    KeptPairs(mask, |mask|);
    KeptOrdered(MappingNode, mask, |mask|);
    assert Odd(i);
    k := KeptHas(MappingNode, mask, |mask|, i);
    hide Kept, Drop;
    forall j | 0 <= j < k
      ensures left[j] != x
    {
      assert kept[j] < kept[k] && left[j] == content[kept[j]];
      assert Odd(kept[j]) == Odd(j) && (Odd(j) ==> !mask[kept[j]]);
    }
    assert left[k] == x && x !in left[..k];
    FirstIs(left, k, x);
    assert !Odd(kept[0]) && left[0] == content[kept[0]];
  }

  lemma {:induction false} MappingTaken<T>(g: Heap<T>, p: T, units: set<Unit<T>>, x: T, i: nat)
    requires p in g && g[p].kind == MappingNode && Aside(g[p].content, x)
    requires i < |g[p].content| && g[p].content[i] == x && UnitAt(g, p, i) !in units
    requires forall j :: 0 <= j < i && g[p].content[j] == x ==> UnitAt(g, p, j) in units
    requires p in DelAt(g, units) && x in DelAt(g, units)[p].content
    ensures TakenFrom(DelAt(g, units), p, x) == Some(DelAt(g, units + {UnitAt(g, p, i)}))
  {
    var mask, now := MaskAt(g, p, units), DelAt(g, units);
    assert now[p] == g[p].(content := Drop(MappingNode, g[p].content, mask));
    var k := FirstKept(g[p].content, mask, x, i);
    DropStep(MappingNode, g[p].content, mask, i, k);
    assert MaskAt(g, p, units + {UnitAt(g, p, i)}) == mask[i := true];
    OtherRows(g, p, units, UnitAt(g, p, i));
    assert DelAt(g, units + {UnitAt(g, p, i)})[p] == g[p].(content := Drop(MappingNode, g[p].content, mask[i := true]));
    hide Kept, Drop, MaskAt, DelAt;
    SameRest(now, DelAt(g, units + {UnitAt(g, p, i)}), p, Without(MappingNode, now[p].content, k));
  }

  lemma {:induction false} SameRest<T>(now: Heap<T>, next: Heap<T>, p: T, content: seq<T>)
    requires p in now && next.Keys == now.Keys && next[p] == now[p].(content := content)
    requires forall q :: q in now && q != p ==> next[q] == now[q]
    ensures WithContent(now, p, content) == next
  {
  }

  /** Dropping every occurrence of x from what is left of a list is dropping it from the list. */
  lemma {:induction false} DropAllBut<T>(content: seq<T>, mask: seq<bool>, more: seq<bool>, x: T, k: nat)
    requires |mask| == |content| == |more| && k <= |content|
    requires forall i :: 0 <= i < |content| ==> (more[i] <==> mask[i] || content[i] == x)
    ensures AllBut(Pick(content, Kept(SequenceNode, mask, k)), x) == Pick(content, Kept(SequenceNode, more, k))
    decreases k
  {
    if k > 0 {
      DropAllBut(content, mask, more, x, k - 1);
      var before, now := Pick(content, Kept(SequenceNode, mask, k - 1)), Pick(content, Kept(SequenceNode, mask, k));
      if mask[k - 1] {
        assert now == before;
      } else {
        assert now == before + [content[k - 1]];
        assert now[..|now| - 1] == before;
        assert more[k - 1] <==> content[k - 1] == x;
      }
      var left := Pick(content, Kept(SequenceNode, more, k - 1));
      assert Pick(content, Kept(SequenceNode, more, k)) == if more[k - 1] then left else left + [content[k - 1]];
    }
  }

  lemma {:induction false} ListTaken<T>(g: Heap<T>, p: T, units: set<Unit<T>>, x: T, i: nat)
    requires p in g && g[p].kind == SequenceNode && i < |g[p].content| && g[p].content[i] == x
    requires p in DelAt(g, units) && x in DelAt(g, units)[p].content
    ensures TakenFrom(DelAt(g, units), p, x) == Some(DelAt(g, units + {UnitAt(g, p, i)}))
  {
    var u := UnitAt(g, p, i);
    var mask, more, now := MaskAt(g, p, units), MaskAt(g, p, units + {u}), DelAt(g, units);
    forall j | 0 <= j < |mask|
      ensures more[j] <==> mask[j] || g[p].content[j] == x
    {
    }
    DropAllBut(g[p].content, mask, more, x, |mask|);
    OtherRows(g, p, units, u);
    assert now[p] == g[p].(content := Drop(SequenceNode, g[p].content, mask));
    assert DelAt(g, units + {u})[p] == g[p].(content := Drop(SequenceNode, g[p].content, more));
    hide Kept, MaskAt, Pick, DelAt;
    SameRest(now, DelAt(g, units + {u}), p, AllBut(now[p].content, x));
  }

  /** Removing positions only loses entries. */
  lemma {:induction false} DelAtThinner<T>(g: Heap<T>, units: set<Unit<T>>)
    ensures Thinner(g, DelAt(g, units))
  {
    forall x | x in g
      ensures Among(DelAt(g, units)[x].content, g[x].content)
    {
      DropAmong(g[x].kind, g[x].content, MaskAt(g, x, units));
    }
  }

  lemma {:induction false} DropAmong<T>(kind: Kind, content: seq<T>, mask: seq<bool>)
    requires |mask| == |content|
    ensures Among(Drop(kind, content, mask), content)
  {
    forall c | c in Drop(kind, content, mask)
      ensures c in content
    {
      var i :| 0 <= i < |Drop(kind, content, mask)| && Drop(kind, content, mask)[i] == c;
      assert c == content[Kept(kind, mask, |mask|)[i]];
    }
  }

  // ----- who is searched first

  /** The positions that go are one step above depth d, and values of mappings and lists. */
  ghost predicate Level<T>(g: Heap<T>, nodes: set<T>, rank: map<T, nat>, d: nat, units: set<Unit<T>>) {
    && nodes <= rank.Keys && nodes <= g.Keys && Values1(g, units)
    && forall u :: u in units ==> u.holder in nodes && rank[u.holder] + 1 == d
  }

  lemma {:induction false} RowKept<T>(g: Heap<T>, nodes: set<T>, rank: map<T, nat>, d: nat, units: set<Unit<T>>, p: T)
    requires Level(g, nodes, rank, d, units) && p in nodes && rank[p] + 1 != d
    ensures DelAt(g, units)[p] == g[p]
  {
    var mask := MaskAt(g, p, units);
    forall i | 0 <= i < |mask|
      ensures !mask[i]
    {
    }
    DropNone(g[p].kind, g[p].content, mask);
  }

  lemma {:induction false} ThinnerRanked<T>(g: Heap<T>, h: Heap<T>, nodes: set<T>, rank: map<T, nat>)
    requires Ranked(g, nodes, rank) && Thinner(g, h)
    ensures Ranked(h, nodes, rank)
  {
  }

  /** Nothing at depth d or below holds a node of depth d. */
  lemma {:induction false} NoneBelow<T>(h: Heap<T>, nodes: set<T>, rank: map<T, nat>, n: T, u: Tree, x: T)
    requires Ranked(h, nodes, rank) && Repr(h, n, u) && n in nodes && x in nodes && rank[x] <= rank[n]
    ensures Holder(h, n, u, x) == None
  {
    HolderMeaning(h, n, u, x);
    var p := Holder(h, n, u, x);
    if p.Some? {
      ReachRanked(h, nodes, rank, n, u, p.value);
    }
  }

  /** The node is still in the content list of the holder, at a position that is left. */
  ghost predicate StillAt<T>(g: Heap<T>, p: T, units: set<Unit<T>>, x: T, whole: bool)
    requires p in g
  {
    exists i :: 0 <= i < |g[p].content| && g[p].content[i] == x && UnitAt(g, p, i, whole) !in units
  }

  /** Of the content lists only those one step above depth d have changed, and they hold x where it is left. */
  ghost predicate LeftIn<T>(g: Heap<T>, h: Heap<T>, nodes: set<T>, rank: map<T, nat>, d: nat, units: set<Unit<T>>, x: T,
                            whole: bool) {
    && nodes <= g.Keys && nodes <= h.Keys && nodes <= rank.Keys
    && forall p :: p in nodes ==>
         if rank[p] + 1 == d then (x in h[p].content <==> StillAt(g, p, units, x, whole)) else h[p] == g[p]
  }

  lemma {:induction false} DelLeftIn<T>(g: Heap<T>, nodes: set<T>, rank: map<T, nat>, d: nat, units: set<Unit<T>>, x: T)
    requires Level(g, nodes, rank, d, units) && NeverKey(g, nodes, x)
    ensures LeftIn(g, DelAt(g, units), nodes, rank, d, units, x, true)
  {
    forall p | p in nodes
      ensures p in DelAt(g, units)
      ensures if rank[p] + 1 == d then (x in DelAt(g, units)[p].content <==> StillAt(g, p, units, x, true))
              else DelAt(g, units)[p] == g[p]
    {
      if rank[p] + 1 == d {
        LeftOf(g, p, units, x);
      } else {
        RowKept(g, nodes, rank, d, units, p);
      }
    }
  }

  /** What the search needs to know; all are the nodes of the heap h. */
  ghost predicate Searching<T>(g: Heap<T>, h: Heap<T>, nodes: set<T>, all: set<T>, rank: map<T, nat>, d: nat,
                               units: set<Unit<T>>, n: T, t: Tree, u: Tree, path: seq<Move>, x: T, whole: bool := true)
    {
    && Repr(g, n, t) && Repr(h, n, u) && LeftIn(g, h, nodes, rank, d, units, x, whole)
    && Ranked(g, nodes, rank) && Ranked(h, all, rank) && nodes <= all && n in nodes && path != []
    && rank[n] + |path| == d && x in nodes && rank[x] == d && NeverKey(g, nodes, x)
  }

  /** The search ends at the holder of the first position that is left. */
  lemma {:induction false} HolderIsFirst<T>(g: Heap<T>, h: Heap<T>, nodes: set<T>, all: set<T>, rank: map<T, nat>,
                                            d: nat, units: set<Unit<T>>, n: T, t: Tree, u: Tree, path: seq<Move>,
                                            on: bool, cond: Tree -> bool, x: T, whole: bool := true)
    requires Searching(g, h, nodes, all, rank, d, units, n, t, u, path, x, whole)
    ensures var m := FirstLeft(Marks(g, n, t, path, on, cond, whole), units, x);
      Holder(h, n, u, x) == if m.None? then None else Some(m.value.holder)
    decreases |path|, |t.children| + 1
  {
    if |path| == 1 {
      LastHolder(g, h, nodes, all, rank, d, units, n, t, u, path, on, cond, x, whole);
    } else {
      assert x !in h[n].content;
      HolderFromIsFirst(g, h, nodes, all, rank, d, units, n, t, u, path, on, cond, x, 0, whole);
    }
  }

  lemma {:induction false} MarksFromIs<T>(g: Heap<T>, n: T, t: Tree, path: seq<Move>, on: bool, cond: Tree -> bool,
                                          i: nat, whole: bool := true)
    requires Repr(g, n, t) && path != [] && i < |t.children|
    ensures MarksFrom(g, n, t, path, on, cond, i, whole)
         == MarksAt(g, n, t, path, on, cond, i, whole) + MarksFrom(g, n, t, path, on, cond, i + 1, whole)
  {
  }

  lemma {:induction false} MarksAtIs<T>(g: Heap<T>, n: T, t: Tree, path: seq<Move>, on: bool, cond: Tree -> bool,
                                        i: nat, whole: bool := true)
    requires Repr(g, n, t) && |path| > 1 && i < |t.children|
    ensures MarksAt(g, n, t, path, on, cond, i, whole)
         == Marks(g, g[n].content[i], t.children[i], path[1..],
              on && Selects(t.kind, Values(t.children), path[0], i), cond, whole)
  {
  }

  lemma {:induction false} SearchingChild<T>(g: Heap<T>, h: Heap<T>, nodes: set<T>, all: set<T>, rank: map<T, nat>,
                                             d: nat, units: set<Unit<T>>, n: T, t: Tree, u: Tree, path: seq<Move>, x: T,
                                             i: nat, whole: bool := true)
    requires Searching(g, h, nodes, all, rank, d, units, n, t, u, path, x, whole) && |path| > 1
    requires h[n] == g[n] && i < |t.children| && |u.children| == |t.children|
    ensures Searching(g, h, nodes, all, rank, d, units, g[n].content[i], t.children[i], u.children[i], path[1..], x,
        whole)
  {
    ChildRanked(g, nodes, rank, n, t, i);
  }

  lemma {:induction false} HolderFromIsFirst<T>(g: Heap<T>, h: Heap<T>, nodes: set<T>, all: set<T>, rank: map<T, nat>,
                                                d: nat, units: set<Unit<T>>, n: T, t: Tree, u: Tree, path: seq<Move>,
                                                on: bool, cond: Tree -> bool, x: T, i: nat, whole: bool := true)
    requires Searching(g, h, nodes, all, rank, d, units, n, t, u, path, x, whole) && |path| > 1
    requires Repr(g, n, t) && Repr(h, n, u)
    requires h[n] == g[n] && i <= |t.children| && |u.children| == |t.children|
    ensures var m := FirstLeft(MarksFrom(g, n, t, path, on, cond, i, whole), units, x);
      HolderFrom(h, n, u, x, i) == if m.None? then None else Some(m.value.holder)
    decreases |path|, |t.children| - i
  {
    hide Searching, Marks, MarksAt;
    if i < |t.children| {
      SearchingChild(g, h, nodes, all, rank, d, units, n, t, u, path, x, i, whole);
      assert MarksAt(g, n, t, path, on, cond, i, whole) == Marks(g, g[n].content[i], t.children[i], path[1..],
          on && Selects(t.kind, Values(t.children), path[0], i), cond, whole) by {
        MarksAtIs(g, n, t, path, on, cond, i, whole);
      }
      var selected := on && Selects(t.kind, Values(t.children), path[0], i);
      HolderIsFirst(g, h, nodes, all, rank, d, units, g[n].content[i], t.children[i], u.children[i], path[1..],
          selected,
          cond, x, whole);
      HolderFromIsFirst(g, h, nodes, all, rank, d, units, n, t, u, path, on, cond, x, i + 1, whole);
      FirstLeftConcat(MarksAt(g, n, t, path, on, cond, i, whole), MarksFrom(g, n, t, path, on, cond, i + 1, whole),
          units, x);
    }
  }

  /** The first position of one content list that is left. */
  lemma {:induction false} RowFirst<T>(g: Heap<T>, n: T, t: Tree, path: seq<Move>, on: bool, cond: Tree -> bool,
                                       units: set<Unit<T>>, x: T, i: nat, whole: bool := true)
    requires Repr(g, n, t) && |path| == 1 && i <= |t.children| && (t.kind == MappingNode ==> Aside(g[n].content, x))
    ensures var m := FirstLeft(MarksFrom(g, n, t, path, on, cond, i, whole), units, x);
      && (m.None? <==> forall j :: i <= j < |g[n].content| && g[n].content[j] == x ==> UnitAt(g, n, j, whole) in units)
      && (m.Some? ==>
            && m.value.holder == n && i <= m.value.index < |g[n].content| && g[n].content[m.value.index] == x
            && UnitOf(m.value) == UnitAt(g, n, m.value.index, whole) && UnitAt(g, n, m.value.index, whole) !in units
            && forall j :: i <= j < m.value.index && g[n].content[j] == x ==> UnitAt(g, n, j, whole) in units)
    decreases |t.children| - i
  {
    if i < |t.children| {
      RowFirst(g, n, t, path, on, cond, units, x, i + 1, whole);
      FirstLeftConcat(MarksAt(g, n, t, path, on, cond, i, whole), MarksFrom(g, n, t, path, on, cond, i + 1, whole),
          units, x);
      var here := MarksAt(g, n, t, path, on, cond, i, whole);
      if here != [] {
        assert here[1..] == [];
      }
    }
  }

  lemma {:induction false} LastHolder<T>(g: Heap<T>, h: Heap<T>, nodes: set<T>, all: set<T>, rank: map<T, nat>, d: nat,
                                         units: set<Unit<T>>, n: T, t: Tree, u: Tree, path: seq<Move>, on: bool,
                                         cond: Tree -> bool, x: T, whole: bool := true)
    requires Searching(g, h, nodes, all, rank, d, units, n, t, u, path, x, whole) && |path| == 1
    ensures var m := FirstLeft(Marks(g, n, t, path, on, cond, whole), units, x);
      Holder(h, n, u, x) == if m.None? then None else Some(m.value.holder)
  {
    assert t.kind == MappingNode ==> Aside(g[n].content, x);
    RowFirst(g, n, t, path, on, cond, units, x, 0, whole);
    assert x in h[n].content <==> StillAt(g, n, units, x, whole);
    if x !in h[n].content {
      NoneFrom(h, all, rank, n, u, x, 0);
    }
  }

  lemma {:induction false} NoneFrom<T>(h: Heap<T>, nodes: set<T>, rank: map<T, nat>, n: T, u: Tree, x: T, i: nat)
    requires Ranked(h, nodes, rank) && Repr(h, n, u) && n in nodes && x in nodes && rank[x] <= rank[n] + 1
    requires i <= |u.children|
    ensures HolderFrom(h, n, u, x, i) == None
    decreases |u.children| - i
  {
    if i < |u.children| {
      ChildRanked(h, nodes, rank, n, u, i);
      NoneBelow(h, nodes, rank, h[n].content[i], u.children[i], x);
      NoneFrom(h, nodes, rank, n, u, x, i + 1);
    }
  }
}
