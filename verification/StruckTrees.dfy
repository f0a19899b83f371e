/** When removals from a document with shared nodes are the deletion they are meant to be. */
module StruckTrees {
  import opened Strings
  import opened Trees
  import opened Graph
  import opened Removing
  import opened Removals
  import opened SharedRemoving
  import opened SharedDocuments
  import opened Scans
  import opened Marking
  import opened Striking

  // ----- the tree without the units

  ghost function AtPruned<T>(g: Heap<T>, n: T, t: Tree, units: set<Unit<T>>): seq<Tree>
    requires Repr(g, n, t)
    decreases t, 0
  {
    seq(|t.children|, i requires 0 <= i < |t.children| => AtOver(g, g[n].content[i], t.children[i], units))
  }

  ghost function AtOver<T>(g: Heap<T>, n: T, t: Tree, units: set<Unit<T>>): Tree
    requires Repr(g, n, t)
    decreases t, 1
  {
    t.(children := Drop(t.kind, AtPruned(g, n, t, units), MaskAt(g, n, units)))
  }

  lemma {:induction false} AtRow<T>(g: Heap<T>, n: T, t: Tree, units: set<Unit<T>>)
    requires Repr(g, n, t)
    ensures var stay, h, r := Kept(t.kind, MaskAt(g, n, units), |t.children|), DelAt(g, units), AtOver(g, n, t, units);
      && n in h && h[n].kind == r.kind && h[n].value == r.value && |h[n].content| == |stay| && |r.children| == |stay|
      && (forall i :: 0 <= i < |stay| ==> stay[i] < |t.children| && h[n].content[i] == g[n].content[stay[i]])
      && (forall i :: 0 <= i < |stay| ==> r.children[i] == AtOver(g, g[n].content[stay[i]], t.children[stay[i]], units))
  {
  }

  lemma {:induction false} AtRepr<T>(g: Heap<T>, n: T, t: Tree, units: set<Unit<T>>)
    requires Repr(g, n, t)
    ensures Repr(DelAt(g, units), n, AtOver(g, n, t, units))
    decreases t
  {
    hide DelAt, AtOver, Kept;
    AtRow(g, n, t, units);
    var stay := Kept(t.kind, MaskAt(g, n, units), |t.children|);
    forall i | 0 <= i < |stay|
      ensures Repr(DelAt(g, units), DelAt(g, units)[n].content[i], AtOver(g, n, t, units).children[i])
    {
      AtRepr(g, g[n].content[stay[i]], t.children[stay[i]], units);
    }
  }

  /** Below depth d nothing goes. */
  lemma {:induction false} AtBelow<T>(g: Heap<T>, nodes: set<T>, rank: map<T, nat>, d: nat, units: set<Unit<T>>, n: T,
                                      t: Tree)
    requires Repr(g, n, t) && Ranked(g, nodes, rank) && Level(g, nodes, rank, d, units) && n in nodes && rank[n] >= d
    ensures AtOver(g, n, t, units) == t
    decreases t
  {
    forall i | 0 <= i < |t.children|
      ensures AtPruned(g, n, t, units)[i] == t.children[i]
    {
      ChildRanked(g, nodes, rank, n, t, i);
      AtBelow(g, nodes, rank, d, units, g[n].content[i], t.children[i]);
    }
    assert AtPruned(g, n, t, units) == t.children;
    MaskNone(g, nodes, rank, d, units, n);
    DropNone(t.kind, t.children, MaskAt(g, n, units));
  }

  lemma {:induction false} MaskNone<T>(g: Heap<T>, nodes: set<T>, rank: map<T, nat>, d: nat, units: set<Unit<T>>, p: T)
    requires Level(g, nodes, rank, d, units) && p in nodes && rank[p] + 1 != d
    ensures forall i :: 0 <= i < |g[p].content| ==> !MaskAt(g, p, units)[i]
  {
  }

  /** Above the last step all children stay. */
  lemma {:induction false} AtAbove<T>(g: Heap<T>, nodes: set<T>, rank: map<T, nat>, d: nat, units: set<Unit<T>>, n: T,
                                      t: Tree)
    requires Repr(g, n, t) && Level(g, nodes, rank, d, units) && n in nodes && rank[n] + 1 != d
    ensures AtOver(g, n, t, units) == t.(children := AtPruned(g, n, t, units))
  {
    MaskNone(g, nodes, rank, d, units, n);
    DropNone(t.kind, AtPruned(g, n, t, units), MaskAt(g, n, units));
  }

  /** At the last step children go but do not change. */
  lemma {:induction false} AtLast<T>(g: Heap<T>, nodes: set<T>, rank: map<T, nat>, d: nat, units: set<Unit<T>>, n: T,
                                     t: Tree)
    requires Repr(g, n, t) && Ranked(g, nodes, rank) && Level(g, nodes, rank, d, units) && n in nodes
    requires rank[n] + 1 == d
    ensures AtOver(g, n, t, units) == t.(children := Drop(t.kind, t.children, MaskAt(g, n, units)))
  {
    forall i | 0 <= i < |t.children|
      ensures AtPruned(g, n, t, units)[i] == t.children[i]
    {
      ChildRanked(g, nodes, rank, n, t, i);
      AtBelow(g, nodes, rank, d, units, g[n].content[i], t.children[i]);
    }
    assert AtPruned(g, n, t, units) == t.children;
  }

  // ----- what the deletion asks for

  /** What the deletion makes of a part of the document, if the path has led to it. */
  ghost function Meant(t: Tree, path: seq<Move>, on: bool, cond: Tree -> bool): Tree {
    if on then Delete(t, path, cond) else t
  }

  /** The positions the deletion takes at the last step. */
  ghost function WantMask(t: Tree, move: Move, on: bool, cond: Tree -> bool): seq<bool> {
    seq(|t.children|, i requires 0 <= i < |t.children| =>
      on && Selects(t.kind, Values(t.children), move, i) && cond(t.children[i]))
  }

  lemma {:induction false} MeantLast(t: Tree, path: seq<Move>, on: bool, cond: Tree -> bool)
    requires |path| == 1
    ensures Meant(t, path, on, cond) == t.(children := Drop(t.kind, t.children, WantMask(t, path[0], on, cond)))
  {
    if on {
      assert WantMask(t, path[0], on, cond) == DeleteMask(t, path[0], cond);
    } else {
      DropNone(t.kind, t.children, WantMask(t, path[0], on, cond));
    }
  }

  lemma {:induction false} MeantAbove(t: Tree, path: seq<Move>, on: bool, cond: Tree -> bool)
    requires |path| > 1
    ensures var r := Meant(t, path, on, cond);
      && r.kind == t.kind && r.value == t.value && |r.children| == |t.children| && r == t.(children := r.children)
      && forall i :: 0 <= i < |t.children| ==>
           r.children[i]
           == Meant(t.children[i], path[1..], on && Selects(t.kind, Values(t.children), path[0], i), cond)
  {
    assert t.(children := t.children) == t;
  }

  /** One row of marks, and which of them are in the list. */
  lemma {:induction false} RowMarks<T>(g: Heap<T>, n: T, t: Tree, path: seq<Move>, on: bool, cond: Tree -> bool, i: nat,
                                       whole: bool := true)
    requires Repr(g, n, t) && |path| == 1 && i <= |t.children|
    ensures forall m :: m in MarksFrom(g, n, t, path, on, cond, i, whole) ==>
              && m.holder == n && i <= m.index < |t.children| && ValueAt(t.kind, m.index)
              && UnitOf(m) == UnitAt(g, n, m.index, whole)
              && m.chosen == WantMask(t, path[0], on, cond)[m.index] && m.node == g[n].content[m.index]
              && (m.list <==> whole && t.kind == SequenceNode)
    ensures forall j :: i <= j < |t.children| && ValueAt(t.kind, j) ==>
              Mark(n, j, g[n].content[j], whole && t.kind == SequenceNode, WantMask(t, path[0], on, cond)[j])
              in MarksFrom(g, n, t, path, on, cond, i, whole)
    decreases |t.children| - i
  {
    if i < |t.children| {
      RowMarks(g, n, t, path, on, cond, i + 1, whole);
      var here, rest := MarksAt(g, n, t, path, on, cond, i, whole), MarksFrom(g, n, t, path, on, cond, i + 1, whole);
      assert MarksFrom(g, n, t, path, on, cond, i, whole) == here + rest;
      assert forall m :: m in here + rest <==> m in here || m in rest;
      if ValueAt(t.kind, i) {
        assert here == [Mark(n, i, g[n].content[i], whole && t.kind == SequenceNode,
            WantMask(t, path[0], on, cond)[i])];
      }
    }
  }

  ghost predicate Follows<T>(marks: seq<Mark<T>>, units: set<Unit<T>>) {
    forall m :: m in marks ==> (Taken(m, units) <==> m.chosen)
  }

  /** If exactly the chosen positions go, the tree becomes what the deletion says. */
  lemma {:induction false} TreeFollows<T>(g: Heap<T>, nodes: set<T>, rank: map<T, nat>, d: nat, units: set<Unit<T>>,
                                          n: T, t: Tree, path: seq<Move>, on: bool, cond: Tree -> bool)
    requires Repr(g, n, t) && Ranked(g, nodes, rank) && Level(g, nodes, rank, d, units) && n in nodes
    requires path != [] && rank[n] + |path| == d && Follows(Marks(g, n, t, path, on, cond), units)
    ensures AtOver(g, n, t, units) == Meant(t, path, on, cond)
    decreases |path|
  {
    if |path| == 1 {
      AtLast(g, nodes, rank, d, units, n, t);
      MeantLast(t, path, on, cond);
      RowMarks(g, n, t, path, on, cond, 0);
      hide AtOver, Meant;
      RowFollows(g, nodes, rank, d, units, n, t, path, on, cond);
    } else {
      AtAbove(g, nodes, rank, d, units, n, t);
      MeantAbove(t, path, on, cond);
      forall i: nat | i < |t.children|
        ensures AtPruned(g, n, t, units)[i] == Meant(t, path, on, cond).children[i]
      {
        ChildRanked(g, nodes, rank, n, t, i);
        MarksWithin(g, n, t, path, on, cond, i, 0);
        TreeFollows(g, nodes, rank, d, units, g[n].content[i], t.children[i], path[1..],
            on && Selects(t.kind, Values(t.children), path[0], i), cond);
      }
      assert AtPruned(g, n, t, units) == Meant(t, path, on, cond).children;
    }
  }

  lemma {:induction false} MarksWithin<T>(g: Heap<T>, n: T, t: Tree, path: seq<Move>, on: bool, cond: Tree -> bool,
                                          i: nat, k: nat)
    requires Repr(g, n, t) && |path| > 1 && k <= i < |t.children|
    ensures forall m ::
              m in Marks(g, g[n].content[i], t.children[i], path[1..],
                     on && Selects(t.kind, Values(t.children), path[0], i), cond)
              ==> m in MarksFrom(g, n, t, path, on, cond, k)
    decreases |t.children| - k
  {
    if k < i {
      MarksWithin(g, n, t, path, on, cond, i, k + 1);
    }
  }

  lemma {:induction false} RowFollows<T>(g: Heap<T>, nodes: set<T>, rank: map<T, nat>, d: nat, units: set<Unit<T>>,
                                         n: T, t: Tree, path: seq<Move>, on: bool, cond: Tree -> bool)
    requires Repr(g, n, t) && Level(g, nodes, rank, d, units) && |path| == 1
    requires Follows(Marks(g, n, t, path, on, cond), units)
    ensures MaskAt(g, n, units) == WantMask(t, path[0], on, cond)
  {
    RowMarks(g, n, t, path, on, cond, 0);
    var want := WantMask(t, path[0], on, cond);
    forall i: nat | i < |t.children|
      ensures MaskAt(g, n, units)[i] == want[i]
    {
      WantValue(t, path[0], on, cond, i);
      if ValueAt(t.kind, i) {
        var m := Mark(n, i, g[n].content[i], t.kind == SequenceNode, want[i]);
        assert m in Marks(g, n, t, path, on, cond) && UnitOf(m) == UnitAt(g, n, i);
      }
    }
  }

  lemma {:induction false} WantValue(t: Tree, move: Move, on: bool, cond: Tree -> bool, i: nat)
    requires i < |t.children|
    ensures WantMask(t, move, on, cond)[i] ==> ValueAt(t.kind, i)
  {
  }

  // ----- if the tree is what the deletion says

  lemma {:induction false} PairAt(mask: seq<bool>, at: nat)
    requires Odd(at) && at < |Kept(MappingNode, mask, |mask|)|
    ensures var kept := Kept(MappingNode, mask, |mask|);
      at > 0 && kept[at - 1] + 1 == kept[at] < |mask| && !mask[kept[at]] && !Odd(kept[at - 1])
  {
    KeptPairs(mask, |mask|);
  }

  lemma {:induction false} PairOf(mask: seq<bool>, i: nat) returns (at: nat)
    requires i < |mask| && Odd(i) && !mask[i]
    ensures Odd(at) && at < |Kept(MappingNode, mask, |mask|)| && Kept(MappingNode, mask, |mask|)[at] == i
  {
    KeptPairs(mask, |mask|);
    at := KeptHas(MappingNode, mask, |mask|, i);
  }

  /** In a mapping without repeated keys what is left tells what is gone. */
  lemma {:induction false} SameKeysLeft(children: seq<Tree>, a: seq<bool>, b: seq<bool>, i: nat)
    requires |a| == |b| == |children| && DistinctKeys(Values(children))
    requires Drop(MappingNode, children, a) == Drop(MappingNode, children, b)
    requires i < |children| && Odd(i) && !a[i]
    ensures !b[i]
  {
    var ka, kb, left := Kept(MappingNode, a, |a|), Kept(MappingNode, b, |b|), Drop(MappingNode, children, a);
    var at := PairOf(a, i);
    PairAt(a, at);
    assert |kb| == |left| == |ka|;
    PairAt(b, at);
    assert left[at - 1] == children[i - 1] && left[at - 1] == children[kb[at - 1]];
    hide Kept, Drop;
    assert Values(children)[kb[at - 1]] == Values(children)[i - 1];
    assert kb[at - 1] == i - 1;
  }

  function CountTrue(mask: seq<bool>, k: nat): nat
    requires k <= |mask|
  {
    if k == 0 then 0 else CountTrue(mask, k - 1) + if mask[k - 1] then 1 else 0
  }

  lemma {:induction false} KeptCount(mask: seq<bool>, k: nat)
    requires k <= |mask|
    ensures |Kept(SequenceNode, mask, k)| + CountTrue(mask, k) == k
    decreases k
  {
    if k > 0 {
      KeptCount(mask, k - 1);
    }
  }

  lemma {:induction false} CountWithin(a: seq<bool>, b: seq<bool>, k: nat)
    requires |a| == |b| && k <= |a| && forall j :: 0 <= j < k && b[j] ==> a[j]
    ensures CountTrue(b, k) <= CountTrue(a, k)
    ensures (exists j :: 0 <= j < k && a[j] && !b[j]) ==> CountTrue(b, k) < CountTrue(a, k)
    decreases k
  {
    if k > 0 {
      CountWithin(a, b, k - 1);
    }
  }

  /** Of two ways to shorten a list equally, if one takes a position the other takes one that the first does not. */
  lemma {:induction false} OtherGoes(children: seq<Tree>, a: seq<bool>, b: seq<bool>, i: nat) returns (j: nat)
    requires |a| == |b| == |children| && Drop(SequenceNode, children, a) == Drop(SequenceNode, children, b)
    requires i < |children| && a[i] && !b[i]
    ensures j < |children| && b[j] && !a[j]
  {
    KeptCount(a, |a|);
    KeptCount(b, |b|);
    hide Kept;
    assert |Drop(SequenceNode, children, a)| == |Kept(SequenceNode, a, |a|)|;
    assert |Drop(SequenceNode, children, b)| == |Kept(SequenceNode, b, |b|)|;
    if forall j :: 0 <= j < |a| && b[j] ==> a[j] {
      CountWithin(a, b, |a|);
      assert false;
    }
    j :| 0 <= j < |a| && b[j] && !a[j];
  }

  /** A chosen position that stays has an earlier one of its node that goes without being chosen. */
  ghost predicate Coherent<T>(marks: seq<Mark<T>>, units: set<Unit<T>>) {
    forall k :: 0 <= k < |marks| && marks[k].chosen && !Taken(marks[k], units) ==> HasStray(marks, units, k)
  }

  ghost predicate HasStray<T>(marks: seq<Mark<T>>, units: set<Unit<T>>, k: nat)
    requires k < |marks|
  {
    exists j :: 0 <= j < k && marks[j].node == marks[k].node && Taken(marks[j], units) && !marks[j].chosen
  }

  ghost predicate NoStray<T>(marks: seq<Mark<T>>, units: set<Unit<T>>) {
    forall m :: m in marks && Taken(m, units) ==> m.chosen
  }

  /** In a row that comes out as meant no position goes without being chosen, if none did before. */
  lemma {:induction false} RowStraight<T>(g: Heap<T>, nodes: set<T>, rank: map<T, nat>, d: nat, units: set<Unit<T>>,
                                          n: T, t: Tree, path: seq<Move>, on: bool, cond: Tree -> bool,
                                          before: seq<Mark<T>>, after: seq<Mark<T>>)
    requires Repr(g, n, t) && Ranked(g, nodes, rank) && Level(g, nodes, rank, d, units) && n in nodes
    requires |path| == 1 && rank[n] + 1 == d && UniqueKeys(t)
    requires Coherent(before + Marks(g, n, t, path, on, cond) + after, units) && NoStray(before, units)
    requires AtOver(g, n, t, units) == Meant(t, path, on, cond)
    ensures NoStray(Marks(g, n, t, path, on, cond), units)
  {
    var row, mask, want := Marks(g, n, t, path, on, cond), MaskAt(g, n, units), WantMask(t, path[0], on, cond);
    AtLast(g, nodes, rank, d, units, n, t);
    MeantLast(t, path, on, cond);
    assert Drop(t.kind, t.children, mask) == Drop(t.kind, t.children, want);
    RowMarks(g, n, t, path, on, cond, 0);
    hide AtOver, Meant, Marks, MarksFrom, Drop, Ranked;
    forall m | m in row && Taken(m, units)
      ensures m.chosen
    {
      var i := m.index;
      assert mask[i];
      if !want[i] {
        if t.kind == MappingNode {
          assert Odd(i);
          SameKeysLeft(t.children, want, mask, i);
        } else {
          assert t.kind == SequenceNode;
          var j := OtherGoes(t.children, mask, want, i);
          ListStraight(g, n, t, units, before, row, after, j, want[j]);
        }
      }
    }
  }

  /** In a list a chosen position cannot stay while an earlier one of its node goes without being chosen. */
  lemma {:induction false} ListStraight<T>(g: Heap<T>, n: T, t: Tree, units: set<Unit<T>>, before: seq<Mark<T>>,
                                           row: seq<Mark<T>>, after: seq<Mark<T>>, j: nat, chosen: bool)
    requires Repr(g, n, t) && t.kind == SequenceNode && j < |t.children| && chosen
    requires Coherent(before + row + after, units) && NoStray(before, units)
    requires forall m :: m in row ==> m.holder == n && m.list
    requires Mark(n, j, g[n].content[j], true, chosen) in row
    ensures MaskAt(g, n, units)[j]
  {
    var m, all := Mark(n, j, g[n].content[j], true, chosen), before + row + after;
    var r :| 0 <= r < |row| && row[r] == m;
    var k := |before| + r;
    assert all[k] == m;
    forall s | 0 <= s < k
      ensures all[s] in before || all[s] in row
    {
      assert all[s] == if s < |before| then before[s] else row[s - |before|];
    }
    assert !HasStray(all, units, k) || Taken(m, units);
    assert UnitOf(m) == UnitAt(g, n, j);
  }

  lemma {:induction false} Straight<T>(g: Heap<T>, nodes: set<T>, rank: map<T, nat>, d: nat, units: set<Unit<T>>, n: T,
                                       t: Tree, path: seq<Move>, on: bool, cond: Tree -> bool, before: seq<Mark<T>>,
                                       after: seq<Mark<T>>)
    requires Repr(g, n, t) && Ranked(g, nodes, rank) && Level(g, nodes, rank, d, units) && n in nodes
    requires path != [] && rank[n] + |path| == d && UniqueKeys(t)
    requires Coherent(before + Marks(g, n, t, path, on, cond) + after, units) && NoStray(before, units)
    requires AtOver(g, n, t, units) == Meant(t, path, on, cond)
    ensures NoStray(Marks(g, n, t, path, on, cond), units)
    decreases |path|, |t.children| + 1
  {
    if |path| == 1 {
      RowStraight(g, nodes, rank, d, units, n, t, path, on, cond, before, after);
    } else {
      AtAbove(g, nodes, rank, d, units, n, t);
      MeantAbove(t, path, on, cond);
      StraightFrom(g, nodes, rank, d, units, n, t, path, on, cond, before, after, 0);
    }
  }

  lemma {:induction false} StraightFrom<T>(g: Heap<T>, nodes: set<T>, rank: map<T, nat>, d: nat, units: set<Unit<T>>,
                                           n: T, t: Tree, path: seq<Move>, on: bool, cond: Tree -> bool,
                                           before: seq<Mark<T>>, after: seq<Mark<T>>, i: nat)
    requires Repr(g, n, t) && Ranked(g, nodes, rank) && Level(g, nodes, rank, d, units) && n in nodes
    requires |path| > 1 && rank[n] + |path| == d && UniqueKeys(t) && i <= |t.children|
    requires Coherent(before + MarksFrom(g, n, t, path, on, cond, i) + after, units) && NoStray(before, units)
    requires RowMeant(g, n, t, path, on, cond, units)
    ensures NoStray(MarksFrom(g, n, t, path, on, cond, i), units)
    decreases |path|, |t.children| - i
  {
    hide Repr, Ranked, Level, AtOver, Meant, RowMeant, Coherent, MarksFrom, MarksAt, Marks, NoStray, UniqueKeys;
    MarksGoOn(g, n, t, path, on, cond, i);
    if i == |t.children| {
      NoStrayAtAll<T>(units);
    } else {
      var selected := on && Selects(t.kind, Values(t.children), path[0], i);
      var here, rest := MarksAt(g, n, t, path, on, cond, i), MarksFrom(g, n, t, path, on, cond, i + 1);
      StepDown(g, nodes, rank, d, units, n, t, path, on, cond, i);
      Regroup(before, here, rest, after);
      Straight(g, nodes, rank, d, units, g[n].content[i], t.children[i], path[1..], selected, cond, before,
          rest + after);
      NoStrayBoth(before, here, units);
      StraightFrom(g, nodes, rank, d, units, n, t, path, on, cond, before + here, after, i + 1);
      NoStrayBoth(here, rest, units);
    }
  }

  /** Every child of a row comes out as meant. */
  ghost predicate RowMeant<T>(g: Heap<T>, n: T, t: Tree, path: seq<Move>, on: bool, cond: Tree -> bool,
                              units: set<Unit<T>>)
    requires Repr(g, n, t) && path != []
  {
    forall k :: 0 <= k < |t.children| ==>
      AtOver(g, g[n].content[k], t.children[k], units)
      == Meant(t.children[k], path[1..], on && Selects(t.kind, Values(t.children), path[0], k), cond)
  }

  /** A child of such a row is again what the search asks for. */
  lemma {:induction false} StepDown<T>(g: Heap<T>, nodes: set<T>, rank: map<T, nat>, d: nat, units: set<Unit<T>>, n: T,
                                       t: Tree, path: seq<Move>, on: bool, cond: Tree -> bool, i: nat)
    requires Repr(g, n, t) && Ranked(g, nodes, rank) && n in nodes && |path| > 1 && rank[n] + |path| == d
    requires UniqueKeys(t) && RowMeant(g, n, t, path, on, cond, units) && i < |t.children|
    ensures n in g && |g[n].content| == |t.children|
    ensures Repr(g, g[n].content[i], t.children[i]) && UniqueKeys(t.children[i])
    ensures g[n].content[i] in nodes && path[1..] != [] && rank[g[n].content[i]] + |path[1..]| == d
    ensures var selected := on && Selects(t.kind, Values(t.children), path[0], i);
      && AtOver(g, g[n].content[i], t.children[i], units) == Meant(t.children[i], path[1..], selected, cond)
      && MarksAt(g, n, t, path, on, cond, i) == Marks(g, g[n].content[i], t.children[i], path[1..], selected, cond)
  {
    ChildRanked(g, nodes, rank, n, t, i);
    MarksAtIs(g, n, t, path, on, cond, i);
    hide Ranked, AtOver, Meant, Marks, MarksAt, Selects;
    assert t.children[i] in t.children;
  }

  lemma {:induction false} MarksGoOn<T>(g: Heap<T>, n: T, t: Tree, path: seq<Move>, on: bool, cond: Tree -> bool,
                                        i: nat)
    requires Repr(g, n, t) && |path| > 1 && i <= |t.children|
    ensures MarksFrom(g, n, t, path, on, cond, i)
         == if i == |t.children| then []
            else MarksAt(g, n, t, path, on, cond, i) + MarksFrom(g, n, t, path, on, cond, i + 1)
  {
  }

  lemma {:induction false} NoStrayAtAll<T>(units: set<Unit<T>>)
    ensures NoStray([], units)
  {
  }

  lemma {:induction false} NoStrayBoth<T>(a: seq<Mark<T>>, b: seq<Mark<T>>, units: set<Unit<T>>)
    requires NoStray(a, units) && NoStray(b, units)
    ensures NoStray(a + b, units)
  {
  }

  lemma {:induction false} Regroup<X>(a: seq<X>, b: seq<X>, c: seq<X>, d: seq<X>)
    ensures a + (b + c) + d == a + b + (c + d) && a + (b + c) + d == (a + b) + c + d
  {
  }

  // ----- the exact condition

  lemma {:induction false} StruckIsGoing<T>(marks: seq<Mark<T>>, m: Mark<T>)
    requires Struck(marks, {}, ChosenNodes(marks)).Some?
    ensures Taken(m, Struck(marks, {}, ChosenNodes(marks)).value) <==> Taken(m, Going(marks, m.node))
  {
    StruckMeaning(marks, {}, ChosenNodes(marks), UnitOf(m));
    WantedTimes(marks, m.node);
  }

  lemma {:induction false} StruckCoherent<T>(marks: seq<Mark<T>>)
    requires Struck(marks, {}, ChosenNodes(marks)).Some?
    ensures Coherent(marks, Struck(marks, {}, ChosenNodes(marks)).value)
  {
    var units := Struck(marks, {}, ChosenNodes(marks)).value;
    forall k: nat | k < |marks| && marks[k].chosen && !Taken(marks[k], units)
      ensures HasStray(marks, units, k)
    {
      var y := marks[k].node;
      StruckIsGoing(marks, marks[k]);
      forall j | 0 <= j < k && marks[j].node == y
        ensures Taken(marks[j], units) <==> Taken(marks[j], Going(marks, y))
      {
        StruckIsGoing(marks, marks[j]);
      }
      if !HasStray(marks, units, k) {
        EarlierStray(marks, y, Wanted(marks, y), {}, k);
      }
    }
  }

  lemma {:induction false} StruckEnough<T>(marks: seq<Mark<T>>)
    ensures Struck(marks, {}, ChosenNodes(marks)).Some? <==> Enough(marks)
  {
    var xs := ChosenNodes(marks);
    StruckFinishes(marks, {}, xs);
    forall y | y in xs
      ensures Times(xs, y) == Wanted(marks, y)
    {
      WantedTimes(marks, y);
    }
  }

  lemma {:induction false} AgreeFollows<T>(marks: seq<Mark<T>>)
    requires Struck(marks, {}, ChosenNodes(marks)).Some?
    ensures Follows(marks, Struck(marks, {}, ChosenNodes(marks)).value) <==> Agree(marks)
  {
    var units := Struck(marks, {}, ChosenNodes(marks)).value;
    forall m | m in marks
      ensures Taken(m, units) <==> Taken(m, Going(marks, m.node))
    {
      StruckIsGoing(marks, m);
    }
    assert forall k :: 0 <= k < |marks| ==> marks[k] in marks;
    hide Going;
  }

  /**
   In a document in which every node has one depth the removals of a patch run through and leave the tree
   without exactly the chosen places, if and only if among all positions as deep as the places, in document order,
   the chosen ones of every node come first and none of them goes together with another one: no list holds the
   node twice, and no holder is met twice.
   */
  lemma {:induction false} RemovalIsDeletion<T>(g: Heap<T>, n: T, t: Tree, path: seq<Move>, cond: Tree -> bool,
                                                rank: map<T, nat>)
    requires Repr(g, n, t) && Even(g, Reach(g, n, t), rank) && Nested(t) && Inside(t, path) && UniqueKeys(t)
    ensures var h := Removal(g, n, t, path, cond);
      var marks := Marks(g, n, t, path, true, cond);
      h.Some? && Repr(h.value, n, Delete(t, path, cond)) <==> Foremost(marks) && Singly(marks)
  {
    var marks := Marks(g, n, t, path, true, cond);
    var s := Struck(marks, {}, ChosenNodes(marks));
    NestedLoose(g, n, t, path, rank);
    RemovalStrikes(g, n, t, path, cond, rank);
    StruckEnough(marks);
    OrderlyExactly(marks);
    hide Marks, Struck, Foremost, Singly, Enough;
    if s.Some? {
      AgreeFollows(marks);
      ResultIs(g, n, t, path, cond, rank, s.value);
      if Repr(DelAt(g, s.value), n, Delete(t, path, cond)) {
        StruckCoherent(marks);
        ResultFollows(g, n, t, path, cond, rank, marks, s.value);
      }
      if Agree(marks) {
        TreeFollows(g, Reach(g, n, t), rank, rank[n] + |path|, s.value, n, t, path, true, cond);
      }
    }
  }

  /** The same direction without asking for unique keys, and what the heap is then. */
  lemma {:induction false} OrderlyRemoval<T>(g: Heap<T>, n: T, t: Tree, path: seq<Move>, cond: Tree -> bool,
                                             rank: map<T, nat>)
    requires Repr(g, n, t) && Even(g, Reach(g, n, t), rank) && path != [] && LooseSpots(g, n, t, path)
    requires var marks := Marks(g, n, t, path, true, cond); Foremost(marks) && Singly(marks)
    ensures var marks := Marks(g, n, t, path, true, cond);
      var s := Struck(marks, {}, ChosenNodes(marks));
      && s.Some? && n in rank && Level(g, Reach(g, n, t), rank, rank[n] + |path|, s.value)
      && Follows(marks, s.value) && Removal(g, n, t, path, cond) == Some(DelAt(g, s.value))
      && AtOver(g, n, t, s.value) == Delete(t, path, cond)
  {
    var marks := Marks(g, n, t, path, true, cond);
    var s := Struck(marks, {}, ChosenNodes(marks));
    ReachInHeap(g, n, t);
    RemovalStrikes(g, n, t, path, cond, rank);
    StruckEnough(marks);
    OrderlyExactly(marks);
    hide Marks, Struck, Foremost, Singly, Enough;
    AgreeFollows(marks);
    TreeFollows(g, Reach(g, n, t), rank, rank[n] + |path|, s.value, n, t, path, true, cond);
  }

  lemma {:induction false} ResultIs<T>(g: Heap<T>, n: T, t: Tree, path: seq<Move>, cond: Tree -> bool,
                                       rank: map<T, nat>, units: set<Unit<T>>)
    requires Repr(g, n, t) && path != []
    ensures Repr(DelAt(g, units), n, AtOver(g, n, t, units))
    ensures Repr(DelAt(g, units), n, Delete(t, path, cond)) <==> AtOver(g, n, t, units) == Meant(t, path, true, cond)
  {
    AtRepr(g, n, t, units);
    if Repr(DelAt(g, units), n, Delete(t, path, cond)) {
      OneTree(DelAt(g, units), n, AtOver(g, n, t, units), Delete(t, path, cond));
    }
  }

  lemma {:induction false} ResultFollows<T>(g: Heap<T>, n: T, t: Tree, path: seq<Move>, cond: Tree -> bool,
                                            rank: map<T, nat>, marks: seq<Mark<T>>, units: set<Unit<T>>)
    requires Repr(g, n, t) && Even(g, Reach(g, n, t), rank) && path != [] && UniqueKeys(t) && n in rank
    requires Level(g, Reach(g, n, t), rank, rank[n] + |path|, units) && Coherent(marks, units)
    requires AtOver(g, n, t, units) == Meant(t, path, true, cond) && marks == Marks(g, n, t, path, true, cond)
    ensures Follows(marks, units)
  {
    assert [] + marks + [] == marks;
    Straight(g, Reach(g, n, t), rank, rank[n] + |path|, units, n, t, path, true, cond, [], []);
    hide Marks;
    forall k: nat | k < |marks| && marks[k].chosen
      ensures Taken(marks[k], units)
    {
      assert forall j :: 0 <= j < k ==> marks[j] in marks;
      assert !HasStray(marks, units, k);
    }
  }

  // ----- where the path leads afterwards

  lemma {:induction false} RowFound<T>(g: Heap<T>, n: T, t: Tree, units: set<Unit<T>>, move: Move, o: nat)
    requires Repr(g, n, t) && UniqueKeys(t) && move.Go? && !move.seg.At? && o < |t.children|
    requires Selects(t.kind, Values(t.children), move, o) && !MaskAt(g, n, units)[o]
    ensures var r := Drop(t.kind, t.children, MaskAt(g, n, units));
      exists i :: 0 <= i < |r| && Selects(t.kind, Values(r), move, i)
  {
    var mask := MaskAt(g, n, units);
    var r := Drop(t.kind, t.children, mask);
    var at := KeptHas(t.kind, mask, |mask|, o);
    DropKeeps(t, mask);
    if t.kind == MappingNode {
      KeptPairs(mask, |mask|);
      if move.seg.Key? {
        PairDropped(t, mask, at);
        hide Kept, Drop;
        FirstByUnique(Values(r), move.seg.name, at);
      }
    }
    assert Selects(t.kind, Values(r), move, at);
  }

  ghost predicate Left<T>(marks: seq<Mark<T>>, units: set<Unit<T>>) {
    exists m :: m in marks && m.chosen && !Taken(m, units)
  }

  lemma {:induction false} RowLeads<T>(g: Heap<T>, nodes: set<T>, rank: map<T, nat>, d: nat, units: set<Unit<T>>, n: T,
                                       t: Tree, path: seq<Move>)
    requires Repr(g, n, t) && Ranked(g, nodes, rank) && Level(g, nodes, rank, d, units) && n in nodes && UniqueKeys(t)
    requires |path| == 1 && rank[n] + 1 == d && path[0].Go? && !path[0].seg.At?
    ensures Found(AtOver(g, n, t, units), path) <==> Left(Marks(g, n, t, path, true, Always()), units)
  {
    var marks, want, mask := Marks(g, n, t, path, true, Always()), WantMask(t, path[0], true, Always()),
        MaskAt(g, n, units);
    AtLast(g, nodes, rank, d, units, n, t);
    RowMarks(g, n, t, path, true, Always(), 0);
    var r := AtOver(g, n, t, units);
    hide Marks, MarksFrom, Ranked, Level, AtOver;
    assert path[1..] == [];
    if Found(r, path) {
      var i :| 0 <= i < |r.children| && Selects(r.kind, Values(r.children), path[0], i);
      SelectedBefore(t, mask, path[0], i);
      var o := Kept(t.kind, mask, |mask|)[i];
      SelectsValue(t.kind, Values(t.children), path[0], o);
      var m := Mark(n, o, g[n].content[o], t.kind == SequenceNode, want[o]);
      assert m in marks && m.chosen && !Taken(m, units);
    }
    if Left(marks, units) {
      var m :| m in marks && m.chosen && !Taken(m, units);
      RowFound(g, n, t, units, path[0], m.index);
    }
  }

  lemma {:induction false} LeadsOn<T>(g: Heap<T>, nodes: set<T>, rank: map<T, nat>, d: nat, units: set<Unit<T>>, n: T,
                                      t: Tree, path: seq<Move>)
    requires Repr(g, n, t) && Ranked(g, nodes, rank) && Level(g, nodes, rank, d, units) && n in nodes && UniqueKeys(t)
    requires path != [] && rank[n] + |path| == d && path[|path| - 1].Go? && !path[|path| - 1].seg.At?
    ensures Found(AtOver(g, n, t, units), path) <==> Left(Marks(g, n, t, path, true, Always()), units)
    decreases |path|, |t.children| + 1
  {
    if |path| == 1 {
      RowLeads(g, nodes, rank, d, units, n, t, path);
    } else {
      AtAbove(g, nodes, rank, d, units, n, t);
      var r := AtOver(g, n, t, units);
      assert Values(r.children) == Values(t.children);
      LeadsOnFrom(g, nodes, rank, d, units, n, t, path, r, 0);
      assert Found(r, path) <==> FoundBelow(r, path, 0);
    }
  }

  /** Nothing that was not chosen counts. */
  lemma {:induction false} OffLeft<T>(g: Heap<T>, n: T, t: Tree, path: seq<Move>, cond: Tree -> bool,
                                      units: set<Unit<T>>)
    requires Repr(g, n, t) && path != []
    ensures !Left(Marks(g, n, t, path, false, cond), units)
  {
    PickedAreChosen(g, n, t, path, false, cond);
    var marks := Marks(g, n, t, path, false, cond);
    hide Marks;
    forall m | m in marks
      ensures !m.chosen
    {
      var k: nat :| k < |marks| && marks[k] == m;
      if m.chosen {
        WantedSome(marks, k);
      }
    }
  }

  lemma {:induction false} LeftConcat<T>(a: seq<Mark<T>>, b: seq<Mark<T>>, units: set<Unit<T>>)
    ensures Left(a + b, units) <==> Left(a, units) || Left(b, units)
  {
    assert forall m :: m in a + b <==> m in a || m in b;
    if m :| m in a && m.chosen && !Taken(m, units) {
      assert m in a + b;
    }
    if m :| m in b && m.chosen && !Taken(m, units) {
      assert m in a + b;
    }
  }

  /** The path leads on below one of the children from position i on. */
  ghost predicate FoundBelow(r: Tree, path: seq<Move>, i: nat)
    requires path != []
  {
    exists k ::
      i <= k < |r.children| && Selects(r.kind, Values(r.children), path[0], k) && Found(r.children[k], path[1..])
  }

  lemma {:induction false} FoundBelowStep(r: Tree, path: seq<Move>, i: nat)
    requires path != [] && i < |r.children|
    ensures FoundBelow(r, path, i)
      <==> (Selects(r.kind, Values(r.children), path[0], i) && Found(r.children[i], path[1..]))
           || FoundBelow(r, path, i + 1)
  {
  }

  lemma {:induction false} LeadsOnFrom<T>(g: Heap<T>, nodes: set<T>, rank: map<T, nat>, d: nat, units: set<Unit<T>>,
                                          n: T, t: Tree, path: seq<Move>, r: Tree, i: nat)
    requires Repr(g, n, t) && Ranked(g, nodes, rank) && Level(g, nodes, rank, d, units) && n in nodes && UniqueKeys(t)
    requires |path| > 1 && rank[n] + |path| == d && path[|path| - 1].Go? && !path[|path| - 1].seg.At?
    requires r == t.(children := AtPruned(g, n, t, units)) && Values(r.children) == Values(t.children)
    requires i <= |t.children|
    ensures Left(MarksFrom(g, n, t, path, true, Always(), i), units) <==> FoundBelow(r, path, i)
    decreases |path|, |t.children| - i
  {
    if i < |t.children| {
      assert t.children[i] in t.children && r.children[i] == AtOver(g, g[n].content[i], t.children[i], units);
      ChildRanked(g, nodes, rank, n, t, i);
      hide Ranked, Level, AtOver, Left, Marks, MarksFrom, MarksAt, FoundBelow, AtPruned, Found;
      LeadsOnFrom(g, nodes, rank, d, units, n, t, path, r, i + 1);
      LeadsOnAt(g, nodes, rank, d, units, n, t, path, i);
      FoundBelowStep(r, path, i);
      MarksFromIs(g, n, t, path, true, Always(), i);
      LeftConcat(MarksAt(g, n, t, path, true, Always(), i), MarksFrom(g, n, t, path, true, Always(), i + 1), units);
    }
  }

  lemma {:induction false} LeadsOnAt<T>(g: Heap<T>, nodes: set<T>, rank: map<T, nat>, d: nat, units: set<Unit<T>>, n: T,
                                        t: Tree, path: seq<Move>, i: nat)
    requires Repr(g, n, t) && Ranked(g, nodes, rank) && Level(g, nodes, rank, d, units) && n in nodes && UniqueKeys(t)
    requires |path| > 1 && rank[n] + |path| == d && path[|path| - 1].Go? && !path[|path| - 1].seg.At?
    requires i < |t.children|
    ensures Left(MarksAt(g, n, t, path, true, Always(), i), units)
      <==> Selects(t.kind, Values(t.children), path[0], i)
           && Found(AtOver(g, g[n].content[i], t.children[i], units), path[1..])
    decreases |path|, 0
  {
    var c, tc := g[n].content[i], t.children[i];
    assert tc in t.children;
    ChildRanked(g, nodes, rank, n, t, i);
    hide Ranked, Level, AtOver, Left, Marks, Found;
    MarksAtIs(g, n, t, path, true, Always(), i);
    if Selects(t.kind, Values(t.children), path[0], i) {
      LeadsOn(g, nodes, rank, d, units, c, tc, path[1..]);
    } else {
      OffLeft(g, c, tc, path[1..], Always(), units);
    }
  }

  /**
   Once the removals of a path have run through, the path leads nowhere exactly if every chosen position is among
   the first units of its node, as many as the node was chosen: for places in mappings that are met once, exactly
   if the chosen ones come first.
   */
  lemma {:induction false} LeadsNowhere<T>(g: Heap<T>, n: T, t: Tree, path: seq<Move>, rank: map<T, nat>)
    requires Repr(g, n, t) && Even(g, Reach(g, n, t), rank) && Nested(t) && Inside(t, path) && UniqueKeys(t)
    requires path[|path| - 1].Go? && !path[|path| - 1].seg.At? && Removal(g, n, t, path, Always()).Some?
    ensures var h, marks := Removal(g, n, t, path, Always()).value, Marks(g, n, t, path, true, Always());
      && Stands(h, n)
      && (!Found(TreeOf(h, n), path) <==> AllGo(marks))
  {
    var marks := Marks(g, n, t, path, true, Always());
    var s := Struck(marks, {}, ChosenNodes(marks));
    NestedLoose(g, n, t, path, rank);
    RemovalStrikes(g, n, t, path, Always(), rank);
    var units := s.value;
    AtRepr(g, n, t, units);
    StandsFor(DelAt(g, units), n, AtOver(g, n, t, units));
    LeadsOn(g, Reach(g, n, t), rank, rank[n] + |path|, units, n, t, path);
    hide Marks, Struck, AtOver, DelAt, Reach, Going;
    forall m | m in marks
      ensures Taken(m, units) <==> Taken(m, Going(marks, m.node))
    {
      StruckIsGoing(marks, m);
    }
    assert forall k :: 0 <= k < |marks| ==> marks[k] in marks;
  }
}
