/** Exactly which removals can bring something back under a path that leads nowhere. */
module Refills {
  import opened Strings
  import opened OpPath
  import opened Trees
  import opened Stripping

  // ----- positions that shift

  /** In some list the removal of position x moves another element to position y. */
  predicate Shifts(x: int, y: int) {
    if x >= 0 && y >= 0 then y >= x
    else if x >= 0 then x >= 1
    else if y >= 0 then x <= -2
    else y <= x
  }

  /** Both steps can lead to the same child. */
  predicate Meet(a: Move, b: Move) {
    match (a, b)
    case (Unwrap, Unwrap) => true
    case (Go(s), Go(r)) =>
      (match (s, r)
       case (Every, _) => true
       case (_, Every) => true
       case (Key(x), Key(y)) => x == y
       case (At(x), At(y)) => x == y || !(x >= 0 <==> y >= 0)
       case _ => false)
    case _ => false
  }

  /**
   A removal can bring something back under a path that leads nowhere: it removes a position, the other path
   goes through a position of what may be the same list and further down, and that position may shift.
   */
  predicate Refill(removed: seq<Move>, path: seq<Move>)
    decreases |removed|
  {
    && removed != [] && path != []
    && if |removed| == 1 then
         |path| > 1 && removed[0].Go? && removed[0].seg.At? && path[0].Go? && path[0].seg.At?
         && Shifts(removed[0].seg.index, path[0].seg.index)
       else Meet(removed[0], path[0]) && Refill(removed[1..], path[1..])
  }

  // ----- nothing else comes back

  lemma {:induction false} KeptOne(mask: seq<bool>, k: nat, at: nat)
    requires k <= |mask| && forall i :: 0 <= i < k ==> mask[i] == (i == at)
    ensures var kept := Kept(SequenceNode, mask, k);
      && |kept| == (if at < k then k - 1 else k)
      && forall i :: 0 <= i < |kept| ==> kept[i] == if i < at then i else i + 1
    decreases k
  {
    if k > 0 {
      KeptOne(mask, k - 1, at);
    }
  }

  lemma {:induction false} KeptNone(mask: seq<bool>, k: nat)
    requires k <= |mask| && forall i :: 0 <= i < k ==> mask[i]
    ensures Kept(SequenceNode, mask, k) == []
    decreases k
  {
    if k > 0 {
      KeptNone(mask, k - 1);
    }
  }

  /** The index of a position in a list of n elements. */
  function Index(x: int, n: nat): int {
    if x < 0 then x + n else x
  }

  /** Where an element was that is at i once position at is gone. */
  function Was(at: int, i: nat): nat {
    if 0 <= at <= i then i + 1 else i
  }

  /** What one removal makes of a list. */
  lemma {:induction false} ListLoses(t: Tree, x: int)
    requires t.kind == SequenceNode
    ensures var r := Delete(t, [Go(At(x))], Always());
      var n, at := |t.children|, Index(x, |t.children|);
      && r.kind == SequenceNode
      && |r.children| == (if 0 <= at < n then n - 1 else n)
      && forall i :: 0 <= i < |r.children| ==> Was(at, i) < n && r.children[i] == t.children[Was(at, i)]
  {
    var n, at := |t.children|, Index(x, |t.children|);
    var mask := DeleteMask(t, Go(At(x)), Always());
    assert |Values(t.children)| == n;
    forall i | 0 <= i < n
      ensures mask[i] == (i == at)
    {
      assert Selects(t.kind, Values(t.children), Go(At(x)), i) == (i == at);
    }
    KeptOne(mask, n, if 0 <= at < n then at else n);
  }

  lemma {:induction false} ListIgnores(t: Tree, removed: Move)
    requires t.kind == SequenceNode && removed.Go? && removed.seg.Key?
    ensures Delete(t, [removed], Always()) == t
  {
    var mask := DeleteMask(t, removed, Always());
    KeptOne(mask, |t.children|, |t.children|);
    assert Delete(t, [removed], Always()).children == t.children;
  }

  predicate Picks(t: Tree, move: Move, i: nat)
    requires i < |t.children|
  {
    Selects(t.kind, Values(t.children), move, i)
  }

  lemma {:induction false} FoundBy(t: Tree, path: seq<Move>, i: nat)
    requires path != [] && i < |t.children| && Picks(t, path[0], i) && Found(t.children[i], path[1..])
    ensures Found(t, path)
  {
  }

  lemma {:induction false} FoundAt(t: Tree, path: seq<Move>) returns (i: nat)
    requires path != [] && Found(t, path)
    ensures i < |t.children| && Picks(t, path[0], i) && Found(t.children[i], path[1..])
  {
    i :| 0 <= i < |t.children| && Selects(t.kind, Values(t.children), path[0], i) && Found(t.children[i], path[1..]);
  }

  /** The last step of the removal, on a list, and a path through one of its positions. */
  lemma {:induction false} ListRefills(t: Tree, removed: Move, path: seq<Move>)
    requires t.kind == SequenceNode && path != [] && path[0].Go? && path[0].seg.At? && removed.Go?
    requires Found(Delete(t, [removed], Always()), path)
    ensures Refill([removed], path) || Found(t, path)
  {
    var r, y, n := Delete(t, [removed], Always()), path[0].seg.index, |t.children|;
    var i := FoundAt(r, path);
    assert |Values(r.children)| == |r.children| && |Values(t.children)| == n;
    match removed.seg
    case At(x) =>
      ListLoses(t, x);
      var at := Index(x, n);
      assert i == Index(y, |r.children|);
      if |path| == 1 {
        assert Picks(t, path[0], Index(y, n));
        FoundBy(t, path, Index(y, n));
      } else if !Shifts(x, y) {
        var o := Was(at, i);
        assert o == Index(y, n);
        FoundBy(t, path, o);
      }
    case Every =>
      var mask := DeleteMask(t, removed, Always());
      forall j | 0 <= j < n
        ensures mask[j]
      {
        assert Selects(t.kind, Values(t.children), removed, j) && Always()(t.children[j]);
      }
      KeptNone(mask, n);
    case Key(_) =>
      ListIgnores(t, removed);
  }

  /** The last step of the removal, and a path whose next step is not a position in a list. */
  lemma {:induction false} OthersRefill(t: Tree, removed: Move, path: seq<Move>)
    requires UniqueKeys(t) && path != [] && removed.Go? && !(t.kind == SequenceNode && path[0].Go? && path[0].seg.At?)
    requires Found(Delete(t, [removed], Always()), path)
    ensures Found(t, path)
  {
    var r := Delete(t, [removed], Always());
    var i := FoundAt(r, path);
    var mask := DeleteMask(t, removed, Always());
    if path[0] == Unwrap {
      KeepsAll(t.kind, mask, |t.children|);
      FoundBy(t, path, i);
    } else {
      SelectedBefore(t, mask, path[0], i);
      FoundBy(t, path, Kept(t.kind, mask, |mask|)[i]);
    }
  }

  lemma {:induction false} BothPick(t: Tree, a: Move, b: Move, i: nat)
    requires i < |t.children| && Picks(t, a, i) && Picks(t, b, i)
    ensures Meet(a, b)
  {
  }

  /** If a removal brings something back under a path, it is one of those that can. */
  lemma {:induction false} OnlyRefills(t: Tree, removed: seq<Move>, path: seq<Move>)
    requires UniqueKeys(t) && removed != [] && removed[|removed| - 1] != Unwrap
    requires !Found(t, path) && Found(Delete(t, removed, Always()), path)
    ensures Refill(removed, path)
    decreases |removed|
  {
    if |removed| == 1 {
      assert removed == [removed[0]];
      if t.kind == SequenceNode && path[0].Go? && path[0].seg.At? {
        ListRefills(t, removed[0], path);
      } else {
        OthersRefill(t, removed[0], path);
      }
    } else {
      var r := Delete(t, removed, Always());
      var i := FoundAt(r, path);
      SameSelection(t, removed, Always(), path[0], i);
      assert t.children[i] in t.children;
      if !Picks(t, removed[0], i) || Found(t.children[i], path[1..]) {
        FoundBy(t, path, i);
      } else {
        BothPick(t, removed[0], path[0], i);
        OnlyRefills(t.children[i], removed[1..], path[1..]);
      }
    }
  }

  // ----- and those that can, do

  function Blank(): Tree {
    Scalar("")
  }

  /** n blank elements but one. */
  function ListWith(n: nat, at: nat, c: Tree): Tree
    requires at < n
  {
    Tree(SequenceNode, "", seq(n, i requires 0 <= i < n => if i == at then c else Blank()))
  }

  /** The shortest list in which both positions, one from each end, lead to the same element. */
  function Ends(x: nat, y: int): nat
    requires y < 0
  {
    x - y
  }

  /** A node with the child where both steps lead to it, and nothing else of interest. */
  function Around(a: Move, b: Move, c: Tree): (r: (Tree, nat))
    requires Meet(a, b)
    ensures r.1 < |r.0.children| && r.0.children[r.1] == c
  {
    match (a, b)
    case (Unwrap, Unwrap) => (Tree(DocumentNode, "", [c]), 0)
    case (Go(s), Go(r)) =>
      if s.Key? || r.Key? then (Tree(MappingNode, "", [Scalar(if s.Key? then s.name else r.name), c]), 1)
      else if s.At? && r.At? && s.index >= 0 && r.index < 0 then (ListWith(Ends(s.index, r.index), s.index, c), s.index)
      else if s.At? && r.At? && s.index < 0 && r.index >= 0 then (ListWith(Ends(r.index, s.index), r.index, c), r.index)
      else
        var x := if s.At? then s.index else if r.At? then r.index else 0;
        (ListWith(Needed(x), Index(x, Needed(x)), c), Index(x, Needed(x)))
  }

  lemma {:induction false} AroundPicks(a: Move, b: Move, c: Tree)
    requires Meet(a, b)
    ensures var (t, i) := Around(a, b, c);
      && Picks(t, a, i) && Picks(t, b, i)
      && (UniqueKeys(c) ==> UniqueKeys(t)) && forall j :: 0 <= j < |t.children| && j != i ==>
           t.children[j].children == []
  {
    var (t, i) := Around(a, b, c);
    assert |Values(t.children)| == |t.children|;
    assert UniqueKeys(Blank());
    assert forall j :: 0 <= j < |t.children| && j != i ==> t.children[j].children == [] && UniqueKeys(t.children[j]);
    if t.kind == MappingNode {
      assert Values(t.children)[0] == t.children[0].value;
    }
  }

  lemma {:induction false} MeetsItself(a: Move)
    ensures Meet(a, a)
  {
  }

  /** A document in which the path leads somewhere. */
  function Bearing(path: seq<Move>): Tree {
    if path == [] then Blank()
    else
      MeetsItself(path[0]);
      Around(path[0], path[0], Bearing(path[1..])).0
  }

  lemma {:induction false} BearingBears(path: seq<Move>)
    ensures Found(Bearing(path), path) && UniqueKeys(Bearing(path))
    decreases |path|
  {
    if path != [] {
      MeetsItself(path[0]);
      AroundPicks(path[0], path[0], Bearing(path[1..]));
      BearingBears(path[1..]);
      FoundBy(Bearing(path), path, Around(path[0], path[0], Bearing(path[1..])).1);
    }
  }

  /** A list that has, after the removal of position x, what it did not have at position y before. */
  function Shifting(x: int, y: int, c: Tree): Tree
    requires Shifts(x, y)
  {
    if y >= 0 then ListWith(if x < 0 && -x > y + 2 then -x else y + 2, y + 1, c)
    else if x >= 0 then ListWith(if x + 1 > -y then x + 1 else 1 - y, if x + 1 > -y then x + y else 0, c)
    else ListWith(1 - y, 0, c)
  }

  lemma {:induction false} ShiftingRefills(x: int, path: seq<Move>)
    requires |path| > 1 && path[0].Go? && path[0].seg.At? && Shifts(x, path[0].seg.index)
    ensures var t := Shifting(x, path[0].seg.index, Bearing(path[1..]));
      UniqueKeys(t) && !Found(t, path) && Found(Delete(t, [Go(At(x))], Always()), path)
  {
    var y, c := path[0].seg.index, Bearing(path[1..]);
    var t := Shifting(x, y, c);
    var r, n := Delete(t, [Go(At(x))], Always()), |t.children|;
    BearingBears(path[1..]);
    assert UniqueKeys(Blank());
    ListLoses(t, x);
    assert |Values(r.children)| == |r.children| && |Values(t.children)| == n;
    var i := Index(y, |r.children|);
    assert 0 <= i < |r.children| && r.children[i] == c;
    FoundBy(r, path, i);
    forall o | 0 <= o < n && Picks(t, path[0], o)
      ensures !Found(t.children[o], path[1..])
    {
      assert o == Index(y, n) && t.children[o] == Blank();
    }
  }

  /** A document in which the removal brings something back under the path. */
  function Witness(removed: seq<Move>, path: seq<Move>): Tree
    requires Refill(removed, path)
    decreases |removed|
  {
    if |removed| == 1 then Shifting(removed[0].seg.index, path[0].seg.index, Bearing(path[1..]))
    else Around(removed[0], path[0], Witness(removed[1..], path[1..])).0
  }

  lemma {:induction false} RefillLonger(removed: seq<Move>, path: seq<Move>)
    requires Refill(removed, path)
    ensures |path| > |removed|
    decreases |removed|
  {
    if |removed| > 1 {
      RefillLonger(removed[1..], path[1..]);
    }
  }

  lemma {:induction false} WitnessRefills(removed: seq<Move>, path: seq<Move>)
    requires Refill(removed, path)
    ensures var t := Witness(removed, path);
      UniqueKeys(t) && !Found(t, path) && Found(Delete(t, removed, Always()), path)
    decreases |removed|
  {
    if |removed| == 1 {
      assert removed == [Go(At(removed[0].seg.index))];
      ShiftingRefills(removed[0].seg.index, path);
    } else {
      var below := Witness(removed[1..], path[1..]);
      var (t, i) := Around(removed[0], path[0], below);
      WitnessRefills(removed[1..], path[1..]);
      RefillLonger(removed, path);
      AroundPicks(removed[0], path[0], below);
      var r := Delete(t, removed, Always());
      SameSelection(t, removed, Always(), path[0], i);
      FoundBy(r, path, i);
      forall j | 0 <= j < |t.children| && Picks(t, path[0], j)
        ensures !Found(t.children[j], path[1..])
      {
        assert j != i ==> t.children[j].children == [];
      }
    }
  }

  /** The removals that can bring something back under a path are exactly those that do so in some document. */
  lemma {:induction false} RefillExactly(removed: seq<Move>, path: seq<Move>)
    requires removed != [] && removed[|removed| - 1] != Unwrap
    ensures Refill(removed, path)
      <==> exists t :: UniqueKeys(t) && !Found(t, path) && Found(Delete(t, removed, Always()), path)
  {
    if Refill(removed, path) {
      WitnessRefills(removed, path);
      var t := Witness(removed, path);
      assert UniqueKeys(t) && !Found(t, path) && Found(Delete(t, removed, Always()), path);
    }
    forall t | UniqueKeys(t) && !Found(t, path) && Found(Delete(t, removed, Always()), path)
      ensures Refill(removed, path)
    {
      OnlyRefills(t, removed, path);
    }
  }

  // ----- lists of reverse patches

  /** The patch may bring something back under the path. */
  predicate Threatens(p: ReversePatch, path: seq<Move>) {
    p.path.Some? && p.ignore != Some(false) && Refill(Moves(DocumentNode, p.path.value), path)
  }

  /**
   What reverse patch k owns is gone in the end, whatever the other patches are, if no later one can bring
   something back under its path and its own last step is no position.
   */
  lemma {:induction false} NothingComesBack(t: Tree, patches: seq<ReversePatch>, k: nat)
    requires t.kind == DocumentNode && UniqueKeys(t) && k < |patches|
    requires patches[k].path.Some? && patches[k].ignore != Some(false)
    requires patches[k].path.value != [] && !patches[k].path.value[|patches[k].path.value| - 1].At?
    requires forall j :: k < j < |patches| ==> !Threatens(patches[j], Moves(DocumentNode, patches[k].path.value))
    ensures !Found(Stripped(t, patches), Moves(DocumentNode, patches[k].path.value))
    decreases |patches|
  {
    var last, path := |patches| - 1, Moves(DocumentNode, patches[k].path.value);
    var before, p := patches[..last], patches[last];
    StrippedKeeps(t, before);
    if k == last {
      assert path[|path| - 1] == Go(p.path.value[|p.path.value| - 1]);
      DeletedNotFound(Stripped(t, before), path);
    } else {
      NothingComesBack(t, before, k);
      if p.path.Some? && p.ignore != Some(false) {
        var removed := Moves(DocumentNode, p.path.value);
        if p.path.value == [] {
          assert removed == [Unwrap];
          RootKept(Stripped(t, before));
        } else {
          assert removed[|removed| - 1] == Go(p.path.value[|p.path.value| - 1]);
          if Found(Delete(Stripped(t, before), removed, Always()), path) {
            OnlyRefills(Stripped(t, before), removed, path);
          }
        }
      }
    }
  }
}
