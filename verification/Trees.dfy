/** YAML documents as values, paths into them, and the edits the patches are meant to make. */
module Trees {
  import opened OpPath

  datatype Kind = DocumentNode | MappingNode | SequenceNode | ScalarNode

  /** Children of a mapping alternate between keys and values. */
  datatype Tree = Tree(kind: Kind, value: string, children: seq<Tree>)

  function Scalar(value: string): Tree {
    Tree(ScalarNode, value, [])
  }

  /** A step of a compiled path; Unwrap is the implicit step from a document to its content. */
  datatype Move = Unwrap | Go(seg: Seg)

  function Steps(path: seq<Seg>): seq<Move> {
    seq(|path|, i requires 0 <= i < |path| => Go(path[i]))
  }

  /** Paths start at the content of a document, and at the node itself otherwise. */
  function Moves(kind: Kind, path: seq<Seg>): seq<Move> {
    if kind == DocumentNode then [Unwrap] + Steps(path) else Steps(path)
  }

  function Values(ts: seq<Tree>): seq<string> {
    seq(|ts|, i requires 0 <= i < |ts| => ts[i].value)
  }

  /** The children a step leads to: the value of the first pair with the key, one position, or all values. */
  predicate Selects(kind: Kind, keys: seq<string>, move: Move, i: nat)
    requires i < |keys|
  {
    match move
    case Unwrap => kind == DocumentNode && i == 0
    case Go(Key(name)) =>
      && kind == MappingNode && Odd(i) && keys[i - 1] == name
      && forall j :: 0 <= j < i - 1 && !Odd(j) ==> keys[j] != name
    case Go(Every) => (kind == MappingNode && Odd(i)) || kind == SequenceNode
    case Go(At(x)) => kind == SequenceNode && i == if x < 0 then x + |keys| else x
  }

  /** The trees a path leads to, in document order. */
  function Lookup(t: Tree, path: seq<Move>): seq<Tree>
    decreases |path|, |t.children| + 1
  {
    if path == [] then [t] else LookupFrom(t, path, 0)
  }

  function LookupFrom(t: Tree, path: seq<Move>, i: nat): seq<Tree>
    requires path != [] && i <= |t.children|
    decreases |path|, |t.children| - i
  {
    if i == |t.children| then []
    else
      (if Selects(t.kind, Values(t.children), path[0], i) then Lookup(t.children[i], path[1..]) else [])
      + LookupFrom(t, path, i + 1)
  }

  /** The path leads somewhere. */
  predicate Found(t: Tree, path: seq<Move>)
    decreases |path|
  {
    || path == []
    || exists i ::
         0 <= i < |t.children| && Selects(t.kind, Values(t.children), path[0], i) && Found(t.children[i], path[1..])
  }

  lemma {:induction false} FoundIsLookup(t: Tree, path: seq<Move>)
    ensures Found(t, path) <==> Lookup(t, path) != []
    decreases |path|, |t.children| + 1
  {
    if path != [] {
      FoundFrom(t, path, 0);
    }
  }

  lemma {:induction false} FoundFrom(t: Tree, path: seq<Move>, i: nat)
    requires path != [] && i <= |t.children|
    ensures LookupFrom(t, path, i) != []
            <==> exists j ::
                   && i <= j < |t.children| && Selects(t.kind, Values(t.children), path[0], j)
                   && Found(t.children[j], path[1..])
    decreases |path|, |t.children| - i
  {
    if i < |t.children| {
      FoundFrom(t, path, i + 1);
      FoundIsLookup(t.children[i], path[1..]);
    }
  }

  /** Every tree a path leads to is replaced by its image; all else stays. */
  function Rewrite(t: Tree, path: seq<Move>, f: Tree -> Tree): Tree
    decreases |path|
  {
    if path == [] then f(t)
    else t.(children := seq(|t.children|, i requires 0 <= i < |t.children| =>
      if Selects(t.kind, Values(t.children), path[0], i) then Rewrite(t.children[i], path[1..], f) else t.children[i]))
  }

  // ----- deletion

  /**
   The positions below k that stay when the masked ones go: in a mapping a pair goes with its value, in a
   sequence an element goes alone, other nodes keep everything.
   */
  function Kept(kind: Kind, mask: seq<bool>, k: nat): (r: seq<nat>)
    requires k <= |mask|
    ensures forall i :: 0 <= i < |r| ==> r[i] < k
    decreases k
  {
    if k == 0 then []
    else if kind == MappingNode then
      if Odd(k) then Kept(kind, mask, k - 1) + [k - 1]
      else Kept(kind, mask, k - 2) + if mask[k - 1] then [] else [k - 2, k - 1]
    else if kind == SequenceNode && mask[k - 1] then Kept(kind, mask, k - 1)
    else Kept(kind, mask, k - 1) + [k - 1]
  }

  ghost predicate Ascending(r: seq<nat>) {
    forall i, j :: 0 <= i < j < |r| ==> r[i] < r[j]
  }

  ghost predicate Unmasked(r: seq<nat>, mask: seq<bool>) {
    forall i :: 0 <= i < |r| ==> r[i] < |mask| && !mask[r[i]]
  }

  lemma {:induction false} KeptOrdered(kind: Kind, mask: seq<bool>, k: nat)
    requires k <= |mask|
    ensures Ascending(Kept(kind, mask, k))
    decreases k
  {
    if k > 0 {
      KeptOrdered(kind, mask, if kind == MappingNode && k % 2 == 0 then k - 2 else k - 1);
    }
  }

  lemma {:induction false} KeptUnmasked(mask: seq<bool>, k: nat)
    requires k <= |mask|
    ensures Unmasked(Kept(SequenceNode, mask, k), mask)
    decreases k
  {
    if k > 0 {
      KeptUnmasked(mask, k - 1);
    }
  }

  predicate Odd(i: int) {
    i % 2 == 1
  }

  /** What stays of a mapping keeps its place as key or value. */
  ghost predicate InPlace(r: seq<nat>, k: nat) {
    && Odd(|r|) == Odd(k)
    && forall i :: 0 <= i < |r| ==> Odd(r[i]) == Odd(i)
  }

  /** Values stay with their keys, and only if they are not masked. */
  ghost predicate InPairs(r: seq<nat>, mask: seq<bool>) {
    forall i :: 0 <= i < |r| && Odd(i) ==> i > 0 && r[i - 1] + 1 == r[i] && r[i] < |mask| && !mask[r[i]]
  }

  lemma {:induction false} InPlaceGrows(r: seq<nat>, k: nat)
    requires InPlace(r, k)
    ensures InPlace(r + [k], k + 1)
    ensures !Odd(k) ==> InPlace(r + [k, k + 1], k + 2)
    ensures InPlace(r, k + 2)
  {
    var one, two := r + [k], r + [k, k + 1];
    forall i | 0 <= i < |one|
      ensures Odd(one[i]) == Odd(i)
    {
      assert i < |r| ==> one[i] == r[i];
    }
    if !Odd(k) {
      forall i | 0 <= i < |two|
        ensures Odd(two[i]) == Odd(i)
      {
        assert i < |r| ==> two[i] == r[i];
      }
    }
  }

  lemma {:induction false} InPairsGrows(r: seq<nat>, mask: seq<bool>, k: nat)
    requires InPairs(r, mask) && InPlace(r, k)
    ensures !Odd(k) ==> InPairs(r + [k], mask)
    ensures !Odd(k) && k + 1 < |mask| && !mask[k + 1] ==> InPairs(r + [k, k + 1], mask)
  {
    var one, two := r + [k], r + [k, k + 1];
    if !Odd(k) {
      forall i | 0 <= i < |two| && Odd(i)
        ensures i > 0 && two[i - 1] + 1 == two[i] && (i < |r| ==> two[i] < |mask| && !mask[two[i]])
      {
        if i < |r| {
          assert two[i] == r[i] && two[i - 1] == r[i - 1];
        }
      }
      forall i | 0 <= i < |one| && Odd(i)
        ensures i > 0 && one[i - 1] + 1 == one[i] && one[i] < |mask| && !mask[one[i]]
      {
        assert i < |r| && one[i] == r[i] && one[i - 1] == r[i - 1];
      }
    }
  }

  /** In a mapping what stays is whole pairs, in place as key and value. */
  lemma {:induction false} KeptPairs(mask: seq<bool>, k: nat)
    requires k <= |mask|
    ensures InPlace(Kept(MappingNode, mask, k), k) && InPairs(Kept(MappingNode, mask, k), mask)
    decreases k
  {
    hide InPlace, InPairs;
    KeptSteps(mask, k);
    if k == 0 {
      EmptyInPlace(mask);
    } else if Odd(k) {
      KeptPairs(mask, k - 1);
      InPlaceGrows(Kept(MappingNode, mask, k - 1), k - 1);
      InPairsGrows(Kept(MappingNode, mask, k - 1), mask, k - 1);
    } else {
      KeptPairs(mask, k - 2);
      InPlaceGrows(Kept(MappingNode, mask, k - 2), k - 2);
      InPairsGrows(Kept(MappingNode, mask, k - 2), mask, k - 2);
    }
  }

  lemma {:induction false} EmptyInPlace(mask: seq<bool>)
    ensures InPlace([], 0) && InPairs([], mask)
  {
  }

  lemma {:induction false} KeptSteps(mask: seq<bool>, k: nat)
    requires k <= |mask|
    ensures k == 0 ==> Kept(MappingNode, mask, k) == []
    ensures Odd(k) ==> k > 0 && !Odd(k - 1) && Kept(MappingNode, mask, k) == Kept(MappingNode, mask, k - 1) + [k - 1]
    ensures k > 0 && !Odd(k) ==> k > 1 && !Odd(k - 2)
    ensures k > 0 && !Odd(k) ==>
              Kept(MappingNode, mask, k)
              == if mask[k - 1] then Kept(MappingNode, mask, k - 2) else Kept(MappingNode, mask, k - 2) + [k - 2, k - 1]
  {
    if k > 0 && !Odd(k) {
      assert Kept(MappingNode, mask, k - 2) + [] == Kept(MappingNode, mask, k - 2);
    }
  }

  function Pick<X>(xs: seq<X>, at: seq<nat>): seq<X>
    requires forall i :: 0 <= i < |at| ==> at[i] < |xs|
  {
    seq(|at|, i requires 0 <= i < |at| => xs[at[i]])
  }

  function Drop<X>(kind: Kind, xs: seq<X>, mask: seq<bool>): seq<X>
    requires |mask| == |xs|
  {
    Pick(xs, Kept(kind, mask, |mask|))
  }

  function DeleteMask(t: Tree, move: Move, cond: Tree -> bool): seq<bool> {
    seq(|t.children|, i requires 0 <= i < |t.children| =>
      Selects(t.kind, Values(t.children), move, i) && cond(t.children[i]))
  }

  /** Every tree the path leads to and that meets the condition is removed, in a mapping together with its key. */
  function Delete(t: Tree, path: seq<Move>, cond: Tree -> bool): Tree
    decreases |path|
  {
    if path == [] then t
    else if |path| == 1 then t.(children := Drop(t.kind, t.children, DeleteMask(t, path[0], cond)))
    else t.(children := seq(|t.children|, i requires 0 <= i < |t.children| =>
      if Selects(t.kind, Values(t.children), path[0], i) then Delete(t.children[i], path[1..], cond)
          else t.children[i]))
  }

  // ----- well-formed documents

  /** Mappings have a value for every key. */
  predicate Paired(t: Tree) {
    (t.kind == MappingNode ==> !Odd(|t.children|)) && forall c :: c in t.children ==> Paired(c)
  }

  predicate DistinctKeys(keys: seq<string>) {
    forall i, j :: 0 <= i < j < |keys| && !Odd(i) && !Odd(j) ==> keys[i] != keys[j]
  }

  /** No key occurs twice in a mapping. */
  predicate UniqueKeys(t: Tree) {
    && (t.kind == MappingNode ==> DistinctKeys(Values(t.children)))
    && forall c :: c in t.children ==> UniqueKeys(c)
  }

  /** Paths without positions. */
  predicate NoPositions(path: seq<Move>) {
    forall m :: m in path ==> !(m.Go? && m.seg.At?)
  }

  /** Deletion keeps documents well formed and never changes the node it starts from otherwise. */
  lemma {:induction false} DeleteKeeps(t: Tree, path: seq<Move>, cond: Tree -> bool)
    ensures Delete(t, path, cond).kind == t.kind && Delete(t, path, cond).value == t.value
    ensures Paired(t) ==> Paired(Delete(t, path, cond))
    ensures UniqueKeys(t) ==> UniqueKeys(Delete(t, path, cond))
    decreases |path|
  {
    if |path| == 1 {
      DropKeeps(t, DeleteMask(t, path[0], cond));
    } else if path != [] {
      var r := Delete(t, path, cond);
      forall i | 0 <= i < |t.children|
        ensures r.children[i].value == t.children[i].value
        ensures Paired(t) ==> Paired(r.children[i])
        ensures UniqueKeys(t) ==> UniqueKeys(r.children[i])
      {
        DeleteKeeps(t.children[i], path[1..], cond);
        assert t.children[i] in t.children;
      }
    }
  }

  lemma {:induction false} DropKeeps(t: Tree, mask: seq<bool>)
    requires |mask| == |t.children|
    ensures var r := t.(children := Drop(t.kind, t.children, mask));
      (Paired(t) ==> Paired(r)) && (UniqueKeys(t) ==> UniqueKeys(r))
  {
    var r := t.(children := Drop(t.kind, t.children, mask));
    var kept := Kept(t.kind, mask, |mask|);
    KeptPairs(mask, |mask|);
    forall c | c in r.children
      ensures c in t.children
    {
      var i :| 0 <= i < |r.children| && r.children[i] == c;
      assert c == t.children[kept[i]];
    }
    KeptOrdered(t.kind, mask, |mask|);
    if t.kind == MappingNode && UniqueKeys(t) {
      forall i, j | 0 <= i < j < |r.children| && !Odd(i) && !Odd(j)
        ensures Values(r.children)[i] != Values(r.children)[j]
      {
        assert kept[i] < kept[j] && !Odd(kept[i]) && !Odd(kept[j]);
        assert Values(t.children)[kept[i]] != Values(t.children)[kept[j]];
      }
    }
  }

  /** A child selected after a deletion was selected before it, unless it is chosen by position. */
  lemma {:induction false} SelectedBefore(t: Tree, mask: seq<bool>, move: Move, i: nat)
    requires |mask| == |t.children| && UniqueKeys(t) && NoPositions([move]) && move != Unwrap
    requires var r := Drop(t.kind, t.children, mask); i < |r| && Selects(t.kind, Values(r), move, i)
    ensures var o := Kept(t.kind, mask, |mask|)[i];
      && o < |t.children| && Drop(t.kind, t.children, mask)[i] == t.children[o]
      && Selects(t.kind, Values(t.children), move, o) && !mask[o]
  {
    assert move in [move];
    var kept := Kept(t.kind, mask, |mask|);
    var o := kept[i];
    KeptUnmasked(mask, |mask|);
    if t.kind == MappingNode {
      KeptPairs(mask, |mask|);
      if move.seg.Key? {
        KeyBefore(t, mask, move.seg.name, i);
      }
    }
  }

  lemma {:induction false} KeyBefore(t: Tree, mask: seq<bool>, name: string, i: nat)
    requires |mask| == |t.children| && UniqueKeys(t) && t.kind == MappingNode
    requires var r := Drop(t.kind, t.children, mask); i < |r| && Selects(t.kind, Values(r), Go(Key(name)), i)
    ensures Selects(t.kind, Values(t.children), Go(Key(name)), Kept(t.kind, mask, |mask|)[i])
  {
    PairDropped(t, mask, i);
    hide Kept, Drop, Values, Pick;
    var r := Drop(t.kind, t.children, mask);
    assert Values(r)[i - 1] == name;
    FirstByUnique(Values(t.children), name, Kept(t.kind, mask, |mask|)[i]);
  }

  /** The key before a value that stays is the key it had. */
  lemma {:induction false} PairDropped(t: Tree, mask: seq<bool>, i: nat)
    requires |mask| == |t.children| && t.kind == MappingNode && i < |Drop(t.kind, t.children, mask)| && Odd(i)
    ensures var o, r := Kept(t.kind, mask, |mask|)[i], Drop(t.kind, t.children, mask);
      |Values(r)| == |r| && 0 < i && 0 < o < |Values(t.children)| == |t.children| && Odd(o)
          && Values(r)[i - 1] == Values(t.children)[o - 1]
  {
    KeptPairs(mask, |mask|);
  }

  /** With unique keys a value is selected by the key before it. */
  lemma {:induction false} FirstByUnique(keys: seq<string>, name: string, o: nat)
    requires DistinctKeys(keys) && o < |keys| && Odd(o) && keys[o - 1] == name
    ensures Selects(MappingNode, keys, Go(Key(name)), o)
  {
    forall j | 0 <= j < o - 1 && !Odd(j)
      ensures keys[j] != name
    {
      assert !Odd(o - 1);
    }
  }

  /** An edit below the children leaves the selection as it is. */
  lemma {:induction false} SameSelection(t: Tree, path: seq<Move>, cond: Tree -> bool, move: Move, i: nat)
    requires |path| > 1 && i < |t.children|
    ensures var r := Delete(t, path, cond);
      |r.children| == |t.children| && Selects(r.kind, Values(r.children), move, i)
          == Selects(t.kind, Values(t.children), move, i)
  {
    var r := Delete(t, path, cond);
    forall j | 0 <= j < |t.children|
      ensures r.children[j].value == t.children[j].value
    {
      DeleteKeeps(t.children[j], path[1..], cond);
    }
    assert Values(r.children) == Values(t.children);
  }

  function Always(): Tree -> bool {
    _ => true
  }

  /** Removing a path leaves nothing for it to lead to, if keys are unique and its last step is no position. */
  lemma {:induction false} DeletedNotFound(t: Tree, path: seq<Move>)
    requires UniqueKeys(t) && path != [] && path[|path| - 1] != Unwrap && NoPositions([path[|path| - 1]])
    ensures !Found(Delete(t, path, Always()), path)
    decreases |path|
  {
    var cond := Always();
    var r := Delete(t, path, cond);
    if Found(r, path) {
      var i :| 0 <= i < |r.children| && Selects(r.kind, Values(r.children), path[0], i)
          && Found(r.children[i], path[1..]);
      if |path| == 1 {
        SelectedBefore(t, DeleteMask(t, path[0], cond), path[0], i);
        assert false;
      } else {
        SameSelection(t, path, cond, path[0], i);
        assert t.children[i] in t.children;
        DeletedNotFound(t.children[i], path[1..]);
        assert false;
      }
    }
  }

  /** The length from which a sequence has the position. */
  function Needed(x: int): nat {
    if x < 0 then -x else x + 1
  }

  ghost predicate LongerBelow(t: Tree, path: seq<Move>, x: int)
    decreases |path|
  {
    if path == [] then t.kind == SequenceNode && |t.children| > Needed(x)
    else
      exists i ::
        && 0 <= i < |t.children| && Selects(t.kind, Values(t.children), path[0], i)
        && LongerBelow(t.children[i], path[1..], x)
  }

  /** Removing a position leaves another element there exactly if one of the sequences is longer than it needs. */
  lemma {:induction false} PositionRefills(t: Tree, path: seq<Move>, x: int)
    ensures var full := path + [Go(At(x))]; Found(Delete(t, full, Always()), full) <==> LongerBelow(t, path, x)
    decreases |path|
  {
    var full := path + [Go(At(x))];
    var cond := Always();
    var r := Delete(t, full, cond);
    if path == [] {
      LastRefills(t, x);
    } else {
      assert full[1..] == path[1..] + [Go(At(x))];
      forall i: nat | i < |t.children|
        ensures Selects(r.kind, Values(r.children), path[0], i) == Selects(t.kind, Values(t.children), path[0], i)
        ensures Selects(t.kind, Values(t.children), path[0], i) ==>
                  (Found(r.children[i], full[1..]) <==> LongerBelow(t.children[i], path[1..], x))
      {
        SameSelection(t, full, cond, path[0], i);
        PositionRefills(t.children[i], path[1..], x);
      }
    }
  }

  lemma {:induction false} LastRefills(t: Tree, x: int)
    ensures Found(Delete(t, [Go(At(x))], Always()), [Go(At(x))]) <==> t.kind == SequenceNode && |t.children| > Needed(x)
  {
    var move := Go(At(x));
    var r := Delete(t, [move], Always());
    var mask := DeleteMask(t, move, Always());
    var n := |t.children|;
    assert forall s: Tree :: Found(s, []);
    if t.kind == SequenceNode {
      var at := if x < 0 then x + n else x;
      assert |Values(t.children)| == n;
      forall i | 0 <= i < n
        ensures mask[i] == (i == at)
      {
        assert Selects(t.kind, Values(t.children), move, i) == (i == at);
      }
      if 0 <= at < n {
        DropOne(mask, n, at);
      } else {
        DropOne(mask, n, n);
      }
      var at' := if x < 0 then x + |r.children| else x;
      assert 0 <= at' < |r.children| ==> Selects(r.kind, Values(r.children), move, at');
    }
  }

  lemma {:induction false} DropOne(mask: seq<bool>, k: nat, at: nat)
    requires k <= |mask| && forall i :: 0 <= i < k ==> mask[i] == (i == at)
    ensures |Kept(SequenceNode, mask, k)| == if at < k then k - 1 else k
    decreases k
  {
    if k > 0 {
      DropOne(mask, k - 1, at);
    }
  }

  /** No deletion makes a path lead somewhere that led nowhere, if keys are unique and the path has no positions. */
  lemma {:induction false} DeletionFindsNothing(t: Tree, path: seq<Move>, removed: seq<Move>, cond: Tree -> bool)
    requires UniqueKeys(t) && NoPositions(path) && !Found(t, path)
    requires removed != [] && removed[|removed| - 1] != Unwrap
    ensures !Found(Delete(t, removed, cond), path)
    decreases |path|
  {
    var r := Delete(t, removed, cond);
    assert path[0] in path;
    if Found(r, path) {
      var i :| 0 <= i < |r.children| && Selects(r.kind, Values(r.children), path[0], i)
          && Found(r.children[i], path[1..]);
      if |removed| == 1 {
        if path[0] == Unwrap {
          KeepsAll(t.kind, DeleteMask(t, removed[0], cond), |t.children|);
        } else {
          SelectedBefore(t, DeleteMask(t, removed[0], cond), path[0], i);
        }
        assert false;
      } else {
        SameSelection(t, removed, cond, path[0], i);
        assert t.children[i] in t.children;
        if Selects(t.kind, Values(t.children), removed[0], i) {
          DeletionFindsNothing(t.children[i], path[1..], removed[1..], cond);
        }
        assert false;
      }
    }
  }

  lemma {:induction false} KeepsAll(kind: Kind, mask: seq<bool>, k: nat)
    requires k <= |mask| && kind != MappingNode && kind != SequenceNode
    ensures Kept(kind, mask, k) == seq(k, i => i)
    decreases k
  {
    if k > 0 {
      KeepsAll(kind, mask, k - 1);
    }
  }
}
