/** What removing the places of a path does to the document seen through this path and through others. */
module DeletionLaws {
  import opened OpPath
  import opened Trees
  import opened TreeLaws

  /** The trees that do not meet the condition. */
  function Unmet(ts: seq<Tree>, cond: Tree -> bool): seq<Tree> {
    if ts == [] then []
    else Unmet(ts[..|ts| - 1], cond) + if cond(ts[|ts| - 1]) then [] else [ts[|ts| - 1]]
  }

  lemma {:induction false} UnmetConcat(a: seq<Tree>, b: seq<Tree>, cond: Tree -> bool)
    ensures Unmet(a + b, cond) == Unmet(a, cond) + Unmet(b, cond)
  {
    if b == [] {
      assert a + b == a;
    } else {
      var init := b[..|b| - 1];
      assert (a + b)[..|a + b| - 1] == a + init;
      UnmetConcat(a, init, cond);
    }
  }

  /** What is left of a list is just what does not meet the condition, in order and as often as before. */
  lemma {:induction false} UnmetMeaning(ts: seq<Tree>, cond: Tree -> bool)
    ensures forall s :: multiset(Unmet(ts, cond))[s] == if cond(s) then 0 else multiset(ts)[s]
  {
    if ts != [] {
      UnmetMeaning(ts[..|ts| - 1], cond);
      assert ts == ts[..|ts| - 1] + [ts[|ts| - 1]];
    }
  }

  // ----- prefixes of the children

  /** What a path leads to through one child. */
  function StepTo(t: Tree, path: seq<Move>, i: nat): seq<Tree>
    requires path != [] && i < |t.children|
  {
    if Selects(t.kind, Values(t.children), path[0], i) then Lookup(t.children[i], path[1..]) else []
  }

  /** What it leads to through the first k children. */
  function LookupTo(t: Tree, path: seq<Move>, k: nat): seq<Tree>
    requires path != [] && k <= |t.children|
  {
    if k == 0 then [] else LookupTo(t, path, k - 1) + StepTo(t, path, k - 1)
  }

  lemma {:induction false} LookupOne(t: Tree, path: seq<Move>, k: nat)
    requires path != [] && 0 < k <= |t.children|
    ensures LookupTo(t, path, k) == LookupTo(t, path, k - 1) + StepTo(t, path, k - 1)
  {
  }

  lemma {:induction false} LookupSplit(t: Tree, path: seq<Move>, k: nat)
    requires path != [] && k <= |t.children|
    ensures Lookup(t, path) == LookupTo(t, path, k) + LookupFrom(t, path, k)
  {
    if k > 0 {
      LookupSplit(t, path, k - 1);
    }
  }

  lemma {:induction false} LookupWhole(t: Tree, path: seq<Move>)
    requires path != []
    ensures Lookup(t, path) == LookupTo(t, path, |t.children|)
  {
    LookupSplit(t, path, |t.children|);
  }

  /** The same, if the child is not masked. */
  function Part(t: Tree, path: seq<Move>, mask: seq<bool>, i: nat): seq<Tree>
    requires path != [] && i < |t.children| == |mask|
  {
    if mask[i] then [] else StepTo(t, path, i)
  }

  /** What it leads to through those of the first k children that are not masked. */
  function UnmaskedTo(t: Tree, path: seq<Move>, mask: seq<bool>, k: nat): seq<Tree>
    requires path != [] && k <= |t.children| == |mask|
  {
    if k == 0 then [] else UnmaskedTo(t, path, mask, k - 1) + Part(t, path, mask, k - 1)
  }

  // ----- what a step selects among the children that stay

  lemma {:induction false} KeptPrefix(kind: Kind, mask: seq<bool>, k: nat, n: nat)
    requires k <= n <= |mask| && (kind == MappingNode && Odd(k) ==> k == n)
    ensures Kept(kind, mask, k) <= Kept(kind, mask, n)
    decreases n
  {
    hide Kept;
    if k < n {
      var back := if kind == MappingNode && !Odd(n) then n - 2 else n - 1;
      KeptBack(kind, mask, n);
      KeptPrefix(kind, mask, k, back);
      PrefixOn(Kept(kind, mask, k), Kept(kind, mask, back), Kept(kind, mask, n));
    }
  }

  lemma {:induction false} PrefixOn(a: seq<nat>, b: seq<nat>, c: seq<nat>)
    requires a <= b && b <= c
    ensures a <= c
  {
  }

  lemma {:induction false} KeptBack(kind: Kind, mask: seq<bool>, n: nat)
    requires 0 < n <= |mask|
    ensures var back := if kind == MappingNode && !Odd(n) then n - 2 else n - 1;
      back >= 0 && Kept(kind, mask, back) <= Kept(kind, mask, n)
  {
  }

  /** A child that stays is selected exactly if it was, if the step is no position. */
  lemma {:induction false} KeptSelected(t: Tree, mask: seq<bool>, move: Move, i: nat)
    requires |mask| == |t.children| && UniqueKeys(t) && move.Go? && !move.seg.At?
    requires i < |Drop(t.kind, t.children, mask)|
    ensures var r, o := Drop(t.kind, t.children, mask), Kept(t.kind, mask, |mask|)[i];
      && o < |t.children| && r[i] == t.children[o]
      && (Selects(t.kind, Values(r), move, i) <==> Selects(t.kind, Values(t.children), move, o) && !mask[o])
  {
    hide Selects, Kept, UniqueKeys;
    var r, o := Drop(t.kind, t.children, mask), Kept(t.kind, mask, |mask|)[i];
    if Selects(t.kind, Values(r), move, i) {
      SelectedBefore(t, mask, move, i);
    }
    if Selects(t.kind, Values(t.children), move, o) && !mask[o] {
      SelectedAfter(t, mask, move, i);
    }
  }

  lemma {:induction false} SelectedAfter(t: Tree, mask: seq<bool>, move: Move, i: nat)
    requires |mask| == |t.children| && UniqueKeys(t) && move.Go? && !move.seg.At?
    requires i < |Drop(t.kind, t.children, mask)|
    requires Selects(t.kind, Values(t.children), move, Kept(t.kind, mask, |mask|)[i])
    ensures Selects(t.kind, Values(Drop(t.kind, t.children, mask)), move, i)
  {
    if t.kind == MappingNode {
      KeptPairs(mask, |mask|);
      if move.seg.Key? {
        KeyAfter(t, mask, move.seg.name, i);
      }
    }
  }

  lemma {:induction false} KeyAfter(t: Tree, mask: seq<bool>, name: string, i: nat)
    requires |mask| == |t.children| && UniqueKeys(t) && t.kind == MappingNode
    requires i < |Drop(t.kind, t.children, mask)| && Odd(i)
    requires Selects(t.kind, Values(t.children), Go(Key(name)), Kept(t.kind, mask, |mask|)[i])
    ensures Selects(t.kind, Values(Drop(t.kind, t.children, mask)), Go(Key(name)), i)
  {
    PairDropped(t, mask, i);
    DropKeeps(t, mask);
    hide Kept, Drop, Values, Pick;
    FirstByUnique(Values(Drop(t.kind, t.children, mask)), name, i);
  }

  /** One child that stays adds what it did. */
  lemma {:induction false} StayingPart(t: Tree, mask: seq<bool>, path: seq<Move>, j: nat)
    requires |mask| == |t.children| && UniqueKeys(t) && path != [] && path[0].Go? && !path[0].seg.At?
    requires j < |Kept(t.kind, mask, |mask|)|
    ensures var r, o := t.(children := Drop(t.kind, t.children, mask)), Kept(t.kind, mask, |mask|)[j];
      && o < |t.children| && j < |r.children|
      && LookupTo(r, path, j + 1) == LookupTo(r, path, j) + Part(t, path, mask, o)
  {
    KeptSelected(t, mask, path[0], j);
  }

  /** A key of a mapping adds nothing. */
  lemma {:induction false} KeyPart(t: Tree, mask: seq<bool>, path: seq<Move>, i: nat)
    requires i < |t.children| == |mask| && path != [] && path[0].Go? && t.kind == MappingNode && !Odd(i)
    ensures Part(t, path, mask, i) == []
  {
  }

  lemma {:induction false} DropTo(t: Tree, mask: seq<bool>, path: seq<Move>, k: nat)
    requires |mask| == |t.children| && UniqueKeys(t) && path != [] && path[0].Go? && !path[0].seg.At?
    requires k <= |mask| && (t.kind == MappingNode && Odd(k) ==> k == |mask|)
    ensures var r := t.(children := Drop(t.kind, t.children, mask));
      && |Kept(t.kind, mask, k)| <= |r.children|
      && LookupTo(r, path, |Kept(t.kind, mask, k)|) == UnmaskedTo(t, path, mask, k)
    decreases k, 1
  {
    hide Selects, UniqueKeys, Values, Part;
    if k > 0 && t.kind == MappingNode && !Odd(k) {
      PairTo(t, mask, path, k);
    } else if k > 0 {
      SingleTo(t, mask, path, k);
    }
  }

  lemma {:induction false} KeptOne(kind: Kind, mask: seq<bool>, k: nat)
    requires 0 < k <= |mask| && (kind == MappingNode ==> Odd(k))
    ensures Kept(kind, mask, k)
         == if kind == SequenceNode && mask[k - 1] then Kept(kind, mask, k - 1) else Kept(kind, mask, k - 1) + [k - 1]
  {
  }

  lemma {:induction false} UnmaskedOne(t: Tree, path: seq<Move>, mask: seq<bool>, k: nat)
    requires path != [] && 0 < k <= |t.children| == |mask|
    ensures UnmaskedTo(t, path, mask, k) == UnmaskedTo(t, path, mask, k - 1) + Part(t, path, mask, k - 1)
  {
  }

  lemma {:induction false} SingleTo(t: Tree, mask: seq<bool>, path: seq<Move>, k: nat)
    requires |mask| == |t.children| && UniqueKeys(t) && path != [] && path[0].Go? && !path[0].seg.At?
    requires 0 < k <= |mask| && (t.kind == MappingNode ==> Odd(k) && k == |mask|)
    ensures var r := t.(children := Drop(t.kind, t.children, mask));
      && |Kept(t.kind, mask, k)| <= |r.children|
      && LookupTo(r, path, |Kept(t.kind, mask, k)|) == UnmaskedTo(t, path, mask, k)
    decreases k, 0
  {
    hide Part, LookupTo, Selects, UniqueKeys, UnmaskedTo, Kept, Values;
    var j := |Kept(t.kind, mask, k - 1)|;
    KeptPrefix(t.kind, mask, k, |mask|);
    KeptOne(t.kind, mask, k);
    DropTo(t, mask, path, k - 1);
    UnmaskedOne(t, path, mask, k);
    hide Drop;
    if t.kind == SequenceNode && mask[k - 1] {
      MaskedPart(t, mask, path, k - 1);
    } else {
      assert Kept(t.kind, mask, k)[j] == k - 1;
      StayingPart(t, mask, path, j);
    }
  }

  lemma {:induction false} MaskedPart(t: Tree, mask: seq<bool>, path: seq<Move>, i: nat)
    requires i < |t.children| == |mask| && path != [] && mask[i]
    ensures Part(t, path, mask, i) == []
  {
  }

  lemma {:induction false} UnmaskedTwo(t: Tree, path: seq<Move>, mask: seq<bool>, k: nat)
    requires path != [] && 2 <= k <= |t.children| == |mask|
    ensures UnmaskedTo(t, path, mask, k)
         == UnmaskedTo(t, path, mask, k - 2) + Part(t, path, mask, k - 2) + Part(t, path, mask, k - 1)
  {
    hide Part;
  }

  lemma {:induction false} PairTo(t: Tree, mask: seq<bool>, path: seq<Move>, k: nat)
    requires |mask| == |t.children| && UniqueKeys(t) && path != [] && path[0].Go? && !path[0].seg.At?
    requires 2 <= k <= |mask| && t.kind == MappingNode && !Odd(k)
    ensures var r := t.(children := Drop(t.kind, t.children, mask));
      && |Kept(t.kind, mask, k)| <= |r.children|
      && LookupTo(r, path, |Kept(t.kind, mask, k)|) == UnmaskedTo(t, path, mask, k)
    decreases k, 0
  {
    hide Part, LookupTo, Selects, UniqueKeys, UnmaskedTo, Kept, Values;
    var j := |Kept(t.kind, mask, k - 2)|;
    KeptPrefix(t.kind, mask, k, |mask|);
    KeptSteps(mask, k);
    DropTo(t, mask, path, k - 2);
    KeyPart(t, mask, path, k - 2);
    UnmaskedTwo(t, path, mask, k);
    hide Drop;
    if mask[k - 1] {
      MaskedPart(t, mask, path, k - 1);
    } else {
      assert Kept(t.kind, mask, k)[j] == k - 2 && Kept(t.kind, mask, k)[j + 1] == k - 1;
      StayingPart(t, mask, path, j);
      StayingPart(t, mask, path, j + 1);
    }
  }

  lemma {:induction false} DroppedLookup(t: Tree, mask: seq<bool>, path: seq<Move>)
    requires |mask| == |t.children| && UniqueKeys(t) && path != [] && path[0].Go? && !path[0].seg.At?
    ensures Lookup(t.(children := Drop(t.kind, t.children, mask)), path) == UnmaskedTo(t, path, mask, |mask|)
  {
    DropTo(t, mask, path, |mask|);
    LookupWhole(t.(children := Drop(t.kind, t.children, mask)), path);
  }

  // ----- the path itself

  lemma {:induction false} UnmaskedIsUnmet(t: Tree, path: seq<Move>, cond: Tree -> bool, k: nat)
    requires |path| == 1 && k <= |t.children|
    ensures UnmaskedTo(t, path, DeleteMask(t, path[0], cond), k) == Unmet(LookupTo(t, path, k), cond)
  {
    if k > 0 {
      UnmaskedOne(t, path, DeleteMask(t, path[0], cond), k);
      LookupOne(t, path, k);
      hide Unmet, Part, Selects, Lookup, StepTo, Values, UnmaskedTo, LookupTo;
      UnmaskedIsUnmet(t, path, cond, k - 1);
      PartUnmet(t, path, cond, k - 1);
      UnmetConcat(LookupTo(t, path, k - 1), StepTo(t, path, k - 1), cond);
    }
  }

  lemma {:induction false} PartUnmet(t: Tree, path: seq<Move>, cond: Tree -> bool, i: nat)
    requires |path| == 1 && i < |t.children|
    ensures Part(t, path, DeleteMask(t, path[0], cond), i) == Unmet(StepTo(t, path, i), cond)
  {
    assert path[1..] == [] && Lookup(t.children[i], []) == [t.children[i]];
    UnmetOne(t.children[i], cond);
    hide Selects;
  }

  lemma {:induction false} UnmetOne(c: Tree, cond: Tree -> bool)
    ensures Unmet([c], cond) == if cond(c) then [] else [c]
  {
    assert [c][..0] == [];
  }

  /** Just the places that do not meet the condition are left, if keys are unique and the last step is no position. */
  lemma {:induction false} DeleteFound(t: Tree, path: seq<Move>, cond: Tree -> bool)
    requires UniqueKeys(t) && path != [] && path[|path| - 1].Go? && !path[|path| - 1].seg.At?
    ensures Lookup(Delete(t, path, cond), path) == Unmet(Lookup(t, path), cond)
    decreases |path|, |t.children| + 1
  {
    if |path| == 1 {
      DroppedLookup(t, DeleteMask(t, path[0], cond), path);
      UnmaskedIsUnmet(t, path, cond, |t.children|);
      LookupWhole(t, path);
    } else {
      DeleteFoundFrom(t, path, cond, 0);
    }
  }

  lemma {:induction false} UniqueBelow(t: Tree, i: nat)
    requires UniqueKeys(t) && i < |t.children|
    ensures UniqueKeys(t.children[i])
  {
    assert t.children[i] in t.children;
  }

  lemma {:induction false} FromStep(t: Tree, path: seq<Move>, i: nat)
    requires path != [] && i <= |t.children|
    ensures LookupFrom(t, path, i) == if i == |t.children| then [] else StepTo(t, path, i) + LookupFrom(t, path, i + 1)
  {
  }

  lemma {:induction false} UnmetNothing(cond: Tree -> bool)
    ensures Unmet([], cond) == []
  {
  }

  lemma {:induction false} DeleteFoundFrom(t: Tree, path: seq<Move>, cond: Tree -> bool, i: nat)
    requires UniqueKeys(t) && |path| > 1 && path[|path| - 1].Go? && !path[|path| - 1].seg.At? && i <= |t.children|
    ensures |Delete(t, path, cond).children| == |t.children|
    ensures LookupFrom(Delete(t, path, cond), path, i) == Unmet(LookupFrom(t, path, i), cond)
    decreases |path|, |t.children| - i
  {
    var r := Delete(t, path, cond);
    assert |r.children| == |t.children|;
    hide *;
    FromStep(t, path, i);
    FromStep(r, path, i);
    if i == |t.children| {
      UnmetNothing(cond);
    } else {
      StepDeleted(t, path, cond, i);
      DeleteFoundFrom(t, path, cond, i + 1);
      UnmetConcat(StepTo(t, path, i), LookupFrom(t, path, i + 1), cond);
    }
  }

  lemma {:induction false} StepDeleted(t: Tree, path: seq<Move>, cond: Tree -> bool, i: nat)
    requires UniqueKeys(t) && |path| > 1 && path[|path| - 1].Go? && !path[|path| - 1].seg.At? && i < |t.children|
    ensures |Delete(t, path, cond).children| == |t.children|
    ensures StepTo(Delete(t, path, cond), path, i) == Unmet(StepTo(t, path, i), cond)
    decreases |path|, 0
  {
    SameSelection(t, path, cond, path[0], i);
    UnmetNothing(cond);
    if Selects(t.kind, Values(t.children), path[0], i) {
      UniqueBelow(t, i);
      DeleteFound(t.children[i], path[1..], cond);
    }
    hide Unmet, Lookup, Selects;
  }

  /** A position of a list goes alone, if the condition is met there; positions are counted from the end if negative. */
  lemma {:induction false} PositionDeleted(t: Tree, x: int, cond: Tree -> bool)
    requires t.kind == SequenceNode
    ensures var r, i := Delete(t, [Go(At(x))], cond), if x < 0 then x + |t.children| else x;
      && r.kind == t.kind && r.value == t.value
      && r.children == if 0 <= i < |t.children| && cond(t.children[i]) then t.children[..i] + t.children[i + 1..]
                       else t.children
  {
    var mask, n := DeleteMask(t, Go(At(x)), cond), |t.children|;
    var i := if x < 0 then x + n else x;
    assert forall k :: 0 <= k < n ==> mask[k] == (k == i && cond(t.children[k]));
    hide DeleteMask, Selects, Kept, Values;
    if 0 <= i < n && cond(t.children[i]) {
      KeptBut(mask, n, i);
      PickBut(t.children, i);
    } else {
      KeepsWhole(t.kind, mask, n);
      assert Drop(t.kind, t.children, mask) == t.children;
    }
  }

  lemma {:induction false} PickBut(xs: seq<Tree>, at: nat)
    requires at < |xs|
    ensures var kept: seq<nat> := seq(at, i => i) + seq(|xs| - at - 1, i => at + 1 + i);
      (forall i :: 0 <= i < |kept| ==> kept[i] < |xs|) && Pick(xs, kept) == xs[..at] + xs[at + 1..]
  {
  }

  lemma {:induction false} KeptBut(mask: seq<bool>, k: nat, at: nat)
    requires k <= |mask| && forall i :: 0 <= i < k ==> mask[i] == (i == at)
    ensures Kept(SequenceNode, mask, k)
         == if at < k then seq(at, i => i) + seq(k - at - 1, i => at + 1 + i) else seq(k, i => i)
    decreases k
  {
    if k > 0 {
      KeptBut(mask, k - 1, at);
    }
  }

  // ----- other paths

  /** The removal may move what the other path chooses by position. */
  predicate MayMove(path: seq<Move>, other: seq<Move>)
    decreases |path|
  {
    path != [] && other != []
    && if |path| == 1 then path[0].Go? && !path[0].seg.Key? && other[0].Go? && other[0].seg.At?
       else !Exclusive(path[0], other[0]) && MayMove(path[1..], other[1..])
  }

  lemma {:induction false} UnmaskedIsAll(t: Tree, path: seq<Move>, mask: seq<bool>, k: nat)
    requires path != [] && k <= |t.children| == |mask|
    requires forall i :: 0 <= i < |mask| && mask[i] ==> !Selects(t.kind, Values(t.children), path[0], i)
    ensures UnmaskedTo(t, path, mask, k) == LookupTo(t, path, k)
  {
    if k > 0 {
      UnmaskedIsAll(t, path, mask, k - 1);
    }
  }

  lemma {:induction false} KeepsWhole(kind: Kind, mask: seq<bool>, k: nat)
    requires k <= |mask| && forall i :: 0 <= i < |mask| ==> !mask[i]
    ensures Kept(kind, mask, k) == seq(k, i => i)
    decreases k
  {
    if k > 0 {
      KeepsWhole(kind, mask, if kind == MappingNode && !Odd(k) then k - 2 else k - 1);
    }
  }

  /** What a path leads to is unchanged if in this document it never leads to a removed place, or below or above one. */
  lemma {:induction false} DeleteApart(t: Tree, path: seq<Move>, cond: Tree -> bool, other: seq<Move>)
    requires UniqueKeys(t) && Separate(t, path, other) && path[|path| - 1].Go? && !MayMove(path, other)
    ensures Lookup(Delete(t, path, cond), other) == Lookup(t, other)
    decreases |path|, |t.children| + 1
  {
    if |path| > 1 {
      DeleteApartFrom(t, path, cond, other, 0);
    } else {
      LastApart(t, path, cond, other);
    }
  }

  lemma {:induction false} LastSeparate(t: Tree, path: seq<Move>, other: seq<Move>, i: nat)
    requires Separate(t, path, other) && |path| == 1 && i < |t.children|
    ensures !(Selects(t.kind, Values(t.children), path[0], i) && Selects(t.kind, Values(t.children), other[0], i))
  {
  }

  lemma {:induction false} LastApart(t: Tree, path: seq<Move>, cond: Tree -> bool, other: seq<Move>)
    requires UniqueKeys(t) && Separate(t, path, other) && |path| == 1 && path[0].Go? && !MayMove(path, other)
    ensures Lookup(Delete(t, path, cond), other) == Lookup(t, other)
  {
    var mask := DeleteMask(t, path[0], cond);
    forall i | 0 <= i < |mask| && mask[i]
      ensures !Selects(t.kind, Values(t.children), other[0], i)
    {
      LastSeparate(t, path, other, i);
    }
    if other[0].Go? && !other[0].seg.At? {
      DroppedLookup(t, mask, other);
      UnmaskedIsAll(t, other, mask, |mask|);
      LookupWhole(t, other);
    } else if forall i :: 0 <= i < |mask| ==> !mask[i] {
      KeepsWhole(t.kind, mask, |mask|);
      assert Drop(t.kind, t.children, mask) == t.children;
    } else {
      NothingChosen(t, path[0], other, cond);
    }
  }

  /** A step into a mapping leads to no position, before or after the removal. */
  lemma {:induction false} NothingChosen(t: Tree, move: Move, other: seq<Move>, cond: Tree -> bool)
    requires move.Go? && other != [] && (other[0] == Unwrap || (other[0].seg.At? && move.seg.Key?))
    requires exists i :: 0 <= i < |t.children| && DeleteMask(t, move, cond)[i]
    ensures Lookup(Delete(t, [move], cond), other) == Lookup(t, other)
  {
    FoundIsLookup(t, other);
    FoundIsLookup(Delete(t, [move], cond), other);
  }

  lemma {:induction false} DeleteApartFrom(t: Tree, path: seq<Move>, cond: Tree -> bool, other: seq<Move>, i: nat)
    requires UniqueKeys(t) && Separate(t, path, other) && |path| > 1 && path[|path| - 1].Go? && !MayMove(path, other)
    requires i <= |t.children|
    ensures |Delete(t, path, cond).children| == |t.children|
    ensures LookupFrom(Delete(t, path, cond), other, i) == LookupFrom(t, other, i)
    decreases |path|, |t.children| - i
  {
    if i < |t.children| {
      SameSelection(t, path, cond, other[0], i);
      DeleteApartFrom(t, path, cond, other, i + 1);
      if Selects(t.kind, Values(t.children), other[0], i) && Selects(t.kind, Values(t.children), path[0], i) {
        assert t.children[i] in t.children;
        if Exclusive(path[0], other[0]) {
          ExclusiveSelects(t.kind, Values(t.children), path[0], other[0], i);
        }
        DeleteApart(t.children[i], path[1..], cond, other[1..]);
      }
    }
  }
}
