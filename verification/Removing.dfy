/** Removing nodes of a document: what single removals add up to, and the tree that results. */
module Removing {
  import opened Strings
  import opened Trees
  import opened Graph
  import opened Replacing

  function Mask<T(==)>(content: seq<T>, gone: set<T>): seq<bool> {
    seq(|content|, i requires 0 <= i < |content| => content[i] in gone)
  }

  /** The heap once every content list has lost the nodes in gone, in a mapping together with their keys. */
  ghost function Del<T>(g: Heap<T>, gone: set<T>): Heap<T> {
    map n | n in g :: g[n].(content := Drop(g[n].kind, g[n].content, Mask(g[n].content, gone)))
  }

  ghost function Pruned<T>(g: Heap<T>, n: T, t: Tree, gone: set<T>): seq<Tree>
    requires Repr(g, n, t)
    decreases t, 0
  {
    seq(|t.children|, i requires 0 <= i < |t.children| => DelOver(g, g[n].content[i], t.children[i], gone))
  }

  ghost function DelOver<T>(g: Heap<T>, n: T, t: Tree, gone: set<T>): Tree
    requires Repr(g, n, t)
    decreases t, 1
  {
    t.(children := Drop(t.kind, Pruned(g, n, t, gone), Mask(g[n].content, gone)))
  }

  /** The children of a node that stay. */
  ghost function Stay<T>(g: Heap<T>, n: T, gone: set<T>): seq<nat>
    requires n in g
  {
    Kept(g[n].kind, Mask(g[n].content, gone), |g[n].content|)
  }

  lemma {:induction false} DelChildren<T>(g: Heap<T>, n: T, t: Tree, gone: set<T>)
    requires Repr(g, n, t)
    ensures var stay, h, r := Stay(g, n, gone), Del(g, gone), DelOver(g, n, t, gone);
      && n in h && h[n].kind == r.kind && h[n].value == r.value && r.kind == t.kind && r.value == t.value
      && |h[n].content| == |stay| && |r.children| == |stay|
      && (forall i :: 0 <= i < |stay| ==> stay[i] < |t.children| && h[n].content[i] == g[n].content[stay[i]])
      && (forall i :: 0 <= i < |stay| ==> r.children[i] == DelOver(g, g[n].content[stay[i]], t.children[stay[i]], gone))
  {
  }

  lemma {:induction false} DelRepr<T>(g: Heap<T>, n: T, t: Tree, gone: set<T>)
    requires Repr(g, n, t)
    ensures Repr(Del(g, gone), n, DelOver(g, n, t, gone))
    decreases t
  {
    hide Stay, Del, DelOver;
    DelChildren(g, n, t, gone);
    var stay := Stay(g, n, gone);
    forall i | 0 <= i < |stay|
      ensures Repr(Del(g, gone), Del(g, gone)[n].content[i], DelOver(g, n, t, gone).children[i])
    {
      DelRepr(g, g[n].content[stay[i]], t.children[stay[i]], gone);
    }
  }

  // ----- the result is the tree without the places removed

  lemma {:induction false} KeptAll(kind: Kind, mask: seq<bool>, k: nat)
    requires k <= |mask| && forall i :: 0 <= i < k ==> !mask[i]
    ensures |Kept(kind, mask, k)| == k && forall i :: 0 <= i < k ==> Kept(kind, mask, k)[i] == i
    decreases k
  {
    if k > 0 {
      KeptAll(kind, mask, k - 1);
      if kind == MappingNode && k % 2 == 0 {
        KeptAll(kind, mask, k - 2);
      }
    }
  }

  lemma {:induction false} DropNone<X>(kind: Kind, xs: seq<X>, mask: seq<bool>)
    requires |mask| == |xs| && forall i :: 0 <= i < |mask| ==> !mask[i]
    ensures Drop(kind, xs, mask) == xs
  {
    KeptAll(kind, mask, |mask|);
  }

  /** No content list of the tree holds one of the nodes. */
  ghost predicate HoldsNone<T>(g: Heap<T>, n: T, t: Tree, gone: set<T>)
    requires Repr(g, n, t)
  {
    forall p, i :: p in Reach(g, n, t) && p in g && 0 <= i < |g[p].content| ==> g[p].content[i] !in gone
  }

  lemma {:induction false} DelUntouched<T>(g: Heap<T>, n: T, t: Tree, gone: set<T>)
    requires Repr(g, n, t) && HoldsNone(g, n, t, gone)
    ensures DelOver(g, n, t, gone) == t
    decreases t
  {
    forall i | 0 <= i < |t.children|
      ensures Pruned(g, n, t, gone)[i] == t.children[i]
    {
      ReachChild(g, n, t, i);
      DelUntouched(g, g[n].content[i], t.children[i], gone);
    }
    assert Pruned(g, n, t, gone) == t.children;
    DropNone(t.kind, t.children, Mask(g[n].content, gone));
  }

  /** What no place lies strictly below stays as it is. */
  lemma {:induction false} PartUntouched<T>(g: Heap<T>, n: T, t: Tree, gone: set<T>)
    requires Repr(g, n, t) && Lone(g, n, t, []) && OnSpots(g, n, t, [], gone)
    ensures DelOver(g, n, t, gone) == t
  {
    forall x | x in gone && x in Reach(g, n, t)
      ensures x == n
    {
      assert IsSpot(g, n, t, [], x);
    }
    forall p, i | p in Reach(g, n, t) && p in g && 0 <= i < |g[p].content|
      ensures g[p].content[i] !in gone
    {
      PointsWithin(g, n, t, p, i);
      assert g[p].content[i] in g[p].content;
    }
    DelUntouched(g, n, t, gone);
  }

  lemma {:induction false} DisjointUntouched<T>(g: Heap<T>, n: T, t: Tree, gone: set<T>)
    requires Repr(g, n, t) && Reach(g, n, t) !! gone
    ensures DelOver(g, n, t, gone) == t
  {
    forall p, i | p in Reach(g, n, t) && p in g && 0 <= i < |g[p].content|
      ensures g[p].content[i] !in gone
    {
      PointsWithin(g, n, t, p, i);
    }
    DelUntouched(g, n, t, gone);
  }

  /** The nodes removed are those of the places that meet the condition. */
  ghost predicate RemovedSpots<T>(spots: seq<Spot<T>>, cond: Tree -> bool, gone: set<T>) {
    forall s :: s in spots ==> (s.node in gone <==> cond(s.tree))
  }

  lemma {:induction false} DelIsDelete<T>(g: Heap<T>, n: T, t: Tree, path: seq<Move>, cond: Tree -> bool, gone: set<T>)
    requires Repr(g, n, t) && Lone(g, n, t, path) && path != []
    requires OnSpots(g, n, t, path, gone) && RemovedSpots(Spots(g, n, t, path), cond, gone)
    ensures DelOver(g, n, t, gone) == Delete(t, path, cond)
    decreases |path|
  {
    hide Drop;
    if |path| == 1 {
      forall i | 0 <= i < |t.children|
        ensures Pruned(g, n, t, gone)[i] == t.children[i]
        ensures Mask(g[n].content, gone)[i] == DeleteMask(t, path[0], cond)[i]
      {
        LastStep(g, n, t, path, cond, gone, i);
      }
      assert Pruned(g, n, t, gone) == t.children;
      assert Mask(g[n].content, gone) == DeleteMask(t, path[0], cond);
    } else {
      var r := Delete(t, path, cond);
      forall i | 0 <= i < |t.children|
        ensures !Mask(g[n].content, gone)[i] && Pruned(g, n, t, gone)[i] == r.children[i]
      {
        InnerStep(g, n, t, path, cond, gone, i);
      }
      DropNone(t.kind, Pruned(g, n, t, gone), Mask(g[n].content, gone));
      assert Pruned(g, n, t, gone) == r.children;
    }
  }

  lemma {:induction false} LastStep<T>(g: Heap<T>, n: T, t: Tree, path: seq<Move>, cond: Tree -> bool, gone: set<T>,
                                       i: nat)
    requires Repr(g, n, t) && Lone(g, n, t, path) && |path| == 1 && i < |t.children|
    requires OnSpots(g, n, t, path, gone) && RemovedSpots(Spots(g, n, t, path), cond, gone)
    ensures Pruned(g, n, t, gone)[i] == t.children[i]
    ensures Mask(g[n].content, gone)[i] == DeleteMask(t, path[0], cond)[i]
  {
    var c := g[n].content[i];
    OnSpotsBelow(g, n, t, path, gone, i);
    assert path[1..] == [];
    assert c in Reach(g, c, t.children[i]);
    if Selects(t.kind, Values(t.children), path[0], i) {
      PartUntouched(g, c, t.children[i], gone);
      var s := Spot(c, t.children[i]);
      assert SpotBelow(g, n, t, path, s, i);
      SpotsMembers(g, n, t, path, s);
    } else {
      DisjointUntouched(g, c, t.children[i], gone);
    }
  }

  lemma {:induction false} InnerStep<T>(g: Heap<T>, n: T, t: Tree, path: seq<Move>, cond: Tree -> bool, gone: set<T>,
                                        i: nat)
    requires Repr(g, n, t) && Lone(g, n, t, path) && |path| > 1 && i < |t.children|
    requires OnSpots(g, n, t, path, gone) && RemovedSpots(Spots(g, n, t, path), cond, gone)
    ensures g[n].content[i] !in gone
    ensures DelOver(g, g[n].content[i], t.children[i], gone)
         == if Selects(t.kind, Values(t.children), path[0], i) then Delete(t.children[i], path[1..], cond)
             else t.children[i]
    decreases |path|, 0
  {
    var c := g[n].content[i];
    OnSpotsBelow(g, n, t, path, gone, i);
    assert c in Reach(g, c, t.children[i]);
    if Selects(t.kind, Values(t.children), path[0], i) {
      OnSpotsRoot(g, c, t.children[i], path[1..], gone);
      forall s | s in Spots(g, c, t.children[i], path[1..])
        ensures s in Spots(g, n, t, path)
      {
        assert SpotBelow(g, n, t, path, s, i);
        SpotsMembers(g, n, t, path, s);
      }
      DelIsDelete(g, c, t.children[i], path[1..], cond, gone);
    } else {
      DisjointUntouched(g, c, t.children[i], gone);
    }
  }

  // ----- the places not removed yet

  lemma {:induction false} KeptHas(kind: Kind, mask: seq<bool>, k: nat, i: nat) returns (at: nat)
    requires i < k <= |mask| && !mask[i] && (kind == MappingNode ==> Odd(i))
    ensures at < |Kept(kind, mask, k)| && Kept(kind, mask, k)[at] == i
    decreases k
  {
    if i == k - 1 {
      at := |Kept(kind, mask, k)| - 1;
    } else {
      at := KeptHas(kind, mask, if kind == MappingNode && k % 2 == 0 then k - 2 else k - 1, i);
    }
  }

  /** Where a document holds the node of a place; in a mapping, as a value. */
  ghost predicate HeldAt<T>(g: Heap<T>, x: T, p: T, i: nat) {
    p in g && i < |g[p].content| && g[p].content[i] == x && (g[p].kind == MappingNode ==> Odd(i))
  }

  /** A child selected and not removed stays. */
  lemma {:induction false} ChildStays<T>(g: Heap<T>, n: T, t: Tree, gone: set<T>, a: nat) returns (at: nat)
    requires Repr(g, n, t) && a < |t.children| && g[n].content[a] !in gone && (t.kind == MappingNode ==> Odd(a))
    ensures Repr(Del(g, gone), n, DelOver(g, n, t, gone))
    ensures at < |DelOver(g, n, t, gone).children| && Del(g, gone)[n].content[at] == g[n].content[a]
    ensures DelOver(g, n, t, gone).children[at] == DelOver(g, g[n].content[a], t.children[a], gone)
  {
    DelRepr(g, n, t, gone);
    DelChildren(g, n, t, gone);
    at := KeptHas(t.kind, Mask(g[n].content, gone), |t.children|, a);
  }

  /** The parent of a place stays in the document until the place is removed. */
  lemma {:induction false} StillHeld<T>(g: Heap<T>, n: T, t: Tree, path: seq<Move>, s: Spot<T>, gone: set<T>)
    returns (p: T, i: nat)
    requires Repr(g, n, t) && Lone(g, n, t, path) && path != []
    requires OnSpots(g, n, t, path, gone) && s in Spots(g, n, t, path) && s.node !in gone
    ensures Repr(Del(g, gone), n, DelOver(g, n, t, gone))
    ensures p in Reach(Del(g, gone), n, DelOver(g, n, t, gone)) && p in Reach(g, n, t)
    ensures HeldAt(g, s.node, p, i) && p in Del(g, gone) && s.node in Del(g, gone)[p].content
    decreases |path|
  {
    hide Stay, Del, DelOver;
    SpotsMembers(g, n, t, path, s);
    var a: nat :| SpotBelow(g, n, t, path, s, a);
    OnSpotsBelow(g, n, t, path, gone, a);
    var c := g[n].content[a];
    assert c in Reach(g, c, t.children[a]);
    if |path| == 1 {
      var at := ChildStays(g, n, t, gone, a);
      p, i := n, a;
      assert Del(g, gone)[n].content[at] == s.node;
    } else {
      OnSpotsRoot(g, c, t.children[a], path[1..], gone);
      p, i := StillHeld(g, c, t.children[a], path[1..], s, gone);
      ReachChild(g, n, t, a);
      var at := ChildStays(g, n, t, gone, a);
      ReachChild(Del(g, gone), n, DelOver(g, n, t, gone), at);
    }
  }

  /** A place not removed yet stands for the tree it stood for. */
  lemma {:induction false} StillWhole<T>(g: Heap<T>, n: T, t: Tree, path: seq<Move>, s: Spot<T>, gone: set<T>)
    requires Repr(g, n, t) && Lone(g, n, t, path)
    requires OnSpots(g, n, t, path, gone) && s in Spots(g, n, t, path) && s.node !in gone
    ensures Repr(Del(g, gone), s.node, s.tree)
  {
    SpotInReach(g, n, t, path, s);
    forall x | x in gone && x in Reach(g, s.node, s.tree)
      ensures false
    {
      assert IsSpot(g, n, t, path, x);
      var y :| y in Spots(g, n, t, path) && y.node == x;
      NotNested(g, n, t, path, s, y);
    }
    DisjointUntouched(g, s.node, s.tree, gone);
    DelRepr(g, s.node, s.tree, gone);
  }

  /** A content list without one position, in a mapping also without the key before it. */
  function Without<T>(kind: Kind, content: seq<T>, k: nat): seq<T>
    requires k < |content| && (kind == MappingNode ==> k > 0)
  {
    if kind == MappingNode then content[..k - 1] + content[k + 1..]
    else if kind == SequenceNode then content[..k] + content[k + 1..]
    else content
  }

  function Less(kind: Kind, k: nat): (r: nat)
    requires k > 0
    ensures r < k
  {
    if kind == MappingNode && k % 2 == 0 then k - 2 else k - 1
  }

  /** What the last positions add to those that stay. */
  function Tail(kind: Kind, gone: bool, k: nat): seq<nat>
    requires k > 0
  {
    if kind == MappingNode && k % 2 == 0 then (if gone then [] else [k - 2, k - 1])
    else if kind == SequenceNode && gone then []
    else [k - 1]
  }

  lemma {:induction false} KeptUnfold(kind: Kind, mask: seq<bool>, k: nat)
    requires 0 < k <= |mask|
    ensures Kept(kind, mask, k) == Kept(kind, mask, Less(kind, k)) + Tail(kind, mask[k - 1], k)
  {
  }

  lemma {:induction false} SlicesAppend<T>(a: seq<T>, b: seq<T>, i: nat, j: nat)
    requires i <= |a| && j <= |a|
    ensures (a + b)[..i] == a[..i] && (a + b)[j..] == a[j..] + b
  {
  }

  lemma {:induction false} WithoutAppend<T>(kind: Kind, a: seq<T>, b: seq<T>, at: nat)
    requires at < |a| && (kind == MappingNode ==> at > 0)
    ensures Without(kind, a + b, at) == Without(kind, a, at) + b
  {
    var from := if kind == MappingNode then at - 1 else at;
    SlicesAppend(a, b, from, at + 1);
    Assoc(a[..from], a[at + 1..], b);
  }

  lemma {:induction false} WithoutTail(kind: Kind, a: seq<nat>, k: nat, at: nat)
    requires k > 0 && (kind == MappingNode ==> k % 2 == 0) && forall j :: 0 <= j < |a| ==> a[j] < Less(kind, k)
    requires at < |a + Tail(kind, false, k)| && (a + Tail(kind, false, k))[at] == k - 1
    ensures kind == MappingNode ==> at > 0
    ensures Without(kind, a + Tail(kind, false, k), at) == a + Tail(kind, true, k)
  {
    assert at >= |a|;
    var r := a + Tail(kind, false, k);
    assert r[at + 1..] == [];
    if kind == MappingNode {
      assert r[..at - 1] == a;
    } else if kind == SequenceNode {
      assert r[..at] == a;
    }
  }

  lemma {:induction false} KeptStep(kind: Kind, mask: seq<bool>, k: nat, i: nat, at: nat)
    requires i < k <= |mask| && !mask[i] && (kind == MappingNode ==> Odd(i))
    requires at < |Kept(kind, mask, k)| && Kept(kind, mask, k)[at] == i
    ensures kind == MappingNode ==> at > 0
    ensures Kept(kind, mask[i := true], k) == Without(kind, Kept(kind, mask, k), at)
    decreases k
  {
    var m, less := mask[i := true], Less(kind, k);
    var kept := Kept(kind, mask, less);
    KeptUnfold(kind, mask, k);
    KeptUnfold(kind, m, k);
    hide Kept, Without;
    if i < less {
      assert m[k - 1] == mask[k - 1];
      assert at < |kept|;
      KeptStep(kind, mask, less, i, at);
      WithoutAppend(kind, kept, Tail(kind, mask[k - 1], k), at);
    } else {
      assert i == k - 1;
      KeptPrefix(kind, mask, less, i);
      WithoutTail(kind, kept, k, at);
    }
  }

  lemma {:induction false} KeptPrefix(kind: Kind, mask: seq<bool>, k: nat, i: nat)
    requires k <= i < |mask|
    ensures Kept(kind, mask[i := true], k) == Kept(kind, mask, k)
    decreases k
  {
    if k > 0 {
      KeptPrefix(kind, mask, if kind == MappingNode && k % 2 == 0 then k - 2 else k - 1, i);
    }
  }

  lemma {:induction false} MaskStep<T>(content: seq<T>, gone: set<T>, x: T)
    ensures x !in content ==> Mask(content, gone + {x}) == Mask(content, gone)
    ensures forall i ::
              0 <= i < |content| && content[i] == x && (forall j :: 0 <= j < |content| && content[j] == x ==> j == i)
              ==> Mask(content, gone + {x}) == Mask(content, gone)[i := true]
  {
  }

  lemma {:induction false} DropStep<T>(kind: Kind, content: seq<T>, mask: seq<bool>, i: nat, k: nat)
    requires |mask| == |content| && i < |mask| && !mask[i] && (kind == MappingNode ==> Odd(i))
    requires k < |Kept(kind, mask, |mask|)| && Kept(kind, mask, |mask|)[k] == i
    ensures kind == MappingNode ==> k > 0
    ensures k < |Drop(kind, content, mask)|
        && Drop(kind, content, mask[i := true]) == Without(kind, Drop(kind, content, mask), k)
  {
    hide Kept;
    KeptStep(kind, mask, |mask|, i, k);
  }

  /** Removing one more place where its parent holds it. */
  lemma {:induction false} DelStep<T>(g: Heap<T>, gone: set<T>, x: T, p: T, i: nat, k: nat)
    requires HeldAt(g, x, p, i) && x !in gone && OnlyAt(g, x, p, i)
    requires k < |Del(g, gone)[p].content| && Del(g, gone)[p].content[k] == x
    ensures g[p].kind == MappingNode ==> k > 0
    ensures var now := Del(g, gone);
      now[p := now[p].(content := Without(now[p].kind, now[p].content, k))] == Del(g, gone + {x})
  {
    var now, next := Del(g, gone), Del(g, gone + {x});
    var content, mask := g[p].content, Mask(g[p].content, gone);
    var kept := Kept(g[p].kind, mask, |mask|);
    assert content[kept[k]] == x;
    DropStep(g[p].kind, content, mask, i, k);
    hide Kept, Drop, Without, Mask;
    MaskStep(content, gone, x);
    forall q | q in g
      ensures next[q] == if q == p then now[p].(content := Without(now[p].kind, now[p].content, k)) else now[q]
    {
      if q != p {
        assert x !in g[q].content;
        MaskStep(g[q].content, gone, x);
      }
    }
  }

  // ----- removing keeps a document free of sharing

  lemma {:induction false} DelReach<T>(g: Heap<T>, n: T, t: Tree, gone: set<T>)
    requires Repr(g, n, t)
    ensures Repr(Del(g, gone), n, DelOver(g, n, t, gone))
    ensures Reach(Del(g, gone), n, DelOver(g, n, t, gone)) <= Reach(g, n, t)
    decreases t
  {
    hide Stay, Del, DelOver;
    DelRepr(g, n, t, gone);
    DelChildren(g, n, t, gone);
    var stay := Stay(g, n, gone);
    forall i | 0 <= i < |stay|
      ensures Reach(Del(g, gone), Del(g, gone)[n].content[i], DelOver(g, n, t, gone).children[i]) <= Reach(g, n, t)
    {
      DelReach(g, g[n].content[stay[i]], t.children[stay[i]], gone);
      ReachChild(g, n, t, stay[i]);
    }
  }

  lemma {:induction false} DelShaped<T>(g: Heap<T>, n: T, t: Tree, gone: set<T>)
    requires Repr(g, n, t) && TreeShaped(g, n, t)
    ensures Repr(Del(g, gone), n, DelOver(g, n, t, gone))
    ensures TreeShaped(Del(g, gone), n, DelOver(g, n, t, gone))
    decreases t
  {
    hide Del, DelOver;
    DelRepr(g, n, t, gone);
    DelChildren(g, n, t, gone);
    var h, r, stay := Del(g, gone), DelOver(g, n, t, gone), Stay(g, n, gone);
    KeptOrdered(t.kind, Mask(g[n].content, gone), |t.children|);
    hide Stay;
    assert Ascending(stay);
    forall i | 0 <= i < |stay|
      ensures TreeShaped(h, h[n].content[i], r.children[i])
      ensures Reach(h, h[n].content[i], r.children[i]) <= Reach(g, g[n].content[stay[i]], t.children[stay[i]])
    {
      DelReach(g, g[n].content[stay[i]], t.children[stay[i]], gone);
      DelShaped(g, g[n].content[stay[i]], t.children[stay[i]], gone);
    }
    forall i, j | 0 <= i < j < |stay|
      ensures Reach(h, h[n].content[i], r.children[i]) !! Reach(h, h[n].content[j], r.children[j])
    {
      assert stay[i] < stay[j];
    }
  }
}
