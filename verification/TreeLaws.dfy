/** What rewriting the places of a path does to the document seen through other paths. */
module TreeLaws {
  import opened OpPath
  import opened Trees

  function Map(ts: seq<Tree>, f: Tree -> Tree): seq<Tree> {
    seq(|ts|, i requires 0 <= i < |ts| => f(ts[i]))
  }

  /** The values a step looks at: the keys of mappings. */
  ghost predicate SameKeys(kind: Kind, a: seq<string>, b: seq<string>) {
    |a| == |b| && (kind == MappingNode ==> forall i :: 0 <= i < |a| && !Odd(i) ==> a[i] == b[i])
  }

  lemma {:induction false} SelectsByKeys(kind: Kind, a: seq<string>, b: seq<string>, move: Move, i: nat)
    requires SameKeys(kind, a, b) && i < |a|
    ensures Selects(kind, a, move, i) == Selects(kind, b, move, i)
  {
    assert Odd(i) && i > 0 ==> !Odd(i - 1);
  }

  /** No step selects a key. */
  lemma {:induction false} RewriteSelects(t: Tree, path: seq<Move>, f: Tree -> Tree, move: Move, i: nat)
    requires path != [] && i < |t.children|
    ensures var r := Rewrite(t, path, f);
      |r.children| == |t.children| && Selects(r.kind, Values(r.children), move, i)
          == Selects(t.kind, Values(t.children), move, i)
  {
    var r := Rewrite(t, path, f);
    assert SameKeys(t.kind, Values(r.children), Values(t.children));
    SelectsByKeys(t.kind, Values(r.children), Values(t.children), move, i);
  }

  /** After a rewrite the path leads to the images of what it led to. */
  lemma {:induction false} RewriteFound(t: Tree, path: seq<Move>, f: Tree -> Tree)
    ensures Lookup(Rewrite(t, path, f), path) == Map(Lookup(t, path), f)
    decreases |path|, |t.children| + 1
  {
    if path != [] {
      RewriteFoundFrom(t, path, f, 0);
    }
  }

  lemma {:induction false} RewriteFoundFrom(t: Tree, path: seq<Move>, f: Tree -> Tree, i: nat)
    requires path != [] && i <= |t.children|
    ensures LookupFrom(Rewrite(t, path, f), path, i) == Map(LookupFrom(t, path, i), f)
    decreases |path|, |t.children| - i
  {
    if i < |t.children| {
      RewriteSelects(t, path, f, path[0], i);
      RewriteFoundFrom(t, path, f, i + 1);
      if Selects(t.kind, Values(t.children), path[0], i) {
        RewriteFound(t.children[i], path[1..], f);
      }
    }
  }

  /** Two steps that never lead to the same child. */
  predicate Exclusive(a: Move, b: Move) {
    && a.Go? && b.Go?
    && match (a.seg, b.seg)
       case (Key(x), Key(y)) => x != y
       case (At(x), At(y)) => x != y && (x >= 0 <==> y >= 0)
       case (Key(_), At(_)) => true
       case (At(_), Key(_)) => true
       case _ => false
  }

  /** The paths take the same steps up to a point where they part for good. */
  predicate Parting(p: seq<Move>, q: seq<Move>)
    decreases |p|
  {
    p != [] && q != [] && (Exclusive(p[0], q[0]) || (p[0] == q[0] && Parting(p[1..], q[1..])))
  }

  /** In the document the paths never lead to the same place, nor one below the other. */
  ghost predicate Separate(t: Tree, p: seq<Move>, q: seq<Move>)
    decreases |p|
  {
    p != [] && q != []
    && forall i: nat ::
         i < |t.children| && Selects(t.kind, Values(t.children), p[0], i)
             && Selects(t.kind, Values(t.children), q[0], i) ==>
           Separate(t.children[i], p[1..], q[1..])
  }

  lemma {:induction false} ExclusiveSelects(kind: Kind, keys: seq<string>, a: Move, b: Move, i: nat)
    requires Exclusive(a, b) && i < |keys|
    ensures !(Selects(kind, keys, a, i) && Selects(kind, keys, b, i))
  {
  }

  /** Paths that part are separate in every document. */
  lemma {:induction false} PartingSeparate(t: Tree, p: seq<Move>, q: seq<Move>)
    requires Parting(p, q)
    ensures Separate(t, p, q)
    decreases |p|
  {
    forall i: nat | i < |t.children| && Selects(t.kind, Values(t.children), p[0], i)
        && Selects(t.kind, Values(t.children), q[0], i)
      ensures Separate(t.children[i], p[1..], q[1..])
    {
      if Exclusive(p[0], q[0]) {
        ExclusiveSelects(t.kind, Values(t.children), p[0], q[0], i);
      } else {
        PartingSeparate(t.children[i], p[1..], q[1..]);
      }
    }
  }

  lemma {:induction false} SeparateBack(t: Tree, p: seq<Move>, q: seq<Move>)
    requires Separate(t, p, q)
    ensures Separate(t, q, p)
    decreases |p|
  {
    forall i: nat | i < |t.children| && Selects(t.kind, Values(t.children), q[0], i)
        && Selects(t.kind, Values(t.children), p[0], i)
      ensures Separate(t.children[i], q[1..], p[1..])
    {
      SeparateBack(t.children[i], p[1..], q[1..]);
    }
  }

  /** Paths stay separate when places of a third path become leaves. */
  lemma {:induction false} SeparateKept(t: Tree, path: seq<Move>, f: Tree -> Tree, p: seq<Move>, q: seq<Move>)
    requires Separate(t, p, q) && forall s :: f(s) == s || f(s).children == []
    ensures Separate(Rewrite(t, path, f), p, q)
    decreases |path|
  {
    if path != [] {
      var r := Rewrite(t, path, f);
      forall i: nat | i < |r.children| && Selects(r.kind, Values(r.children), p[0], i)
        && Selects(r.kind, Values(r.children), q[0], i)
        ensures Separate(r.children[i], p[1..], q[1..])
      {
        RewriteSelects(t, path, f, p[0], i);
        RewriteSelects(t, path, f, q[0], i);
        if Selects(t.kind, Values(t.children), path[0], i) {
          SeparateKept(t.children[i], path[1..], f, p[1..], q[1..]);
        }
      }
    }
  }

  /** Rewriting one of two separate paths keeps them separate. */
  lemma {:induction false} RewriteSeparate(t: Tree, path: seq<Move>, f: Tree -> Tree, other: seq<Move>)
    requires Separate(t, path, other)
    ensures Separate(Rewrite(t, path, f), path, other)
    decreases |path|
  {
    var r := Rewrite(t, path, f);
    forall i: nat | i < |r.children| && Selects(r.kind, Values(r.children), path[0], i)
        && Selects(r.kind, Values(r.children), other[0], i)
      ensures Separate(r.children[i], path[1..], other[1..])
    {
      RewriteSelects(t, path, f, path[0], i);
      RewriteSelects(t, path, f, other[0], i);
      RewriteSeparate(t.children[i], path[1..], f, other[1..]);
    }
  }

  /** A rewrite is not seen through a path that is separate from the rewritten one. */
  lemma {:induction false} RewriteApart(t: Tree, path: seq<Move>, f: Tree -> Tree, other: seq<Move>)
    requires Separate(t, path, other)
    ensures Lookup(Rewrite(t, path, f), other) == Lookup(t, other)
    decreases |path|, |t.children| + 1
  {
    RewriteApartFrom(t, path, f, other, 0);
  }

  lemma {:induction false} RewriteApartFrom(t: Tree, path: seq<Move>, f: Tree -> Tree, other: seq<Move>, i: nat)
    requires Separate(t, path, other) && i <= |t.children|
    ensures LookupFrom(Rewrite(t, path, f), other, i) == LookupFrom(t, other, i)
    decreases |path|, |t.children| - i
  {
    if i < |t.children| {
      RewriteSelects(t, path, f, other[0], i);
      RewriteApartFrom(t, path, f, other, i + 1);
      if Selects(t.kind, Values(t.children), other[0], i) && Selects(t.kind, Values(t.children), path[0], i) {
        RewriteApart(t.children[i], path[1..], f, other[1..]);
      }
    }
  }

  /** A rewrite is not seen through a path that parts from the rewritten one. */
  lemma {:induction false} RewriteElsewhere(t: Tree, path: seq<Move>, f: Tree -> Tree, other: seq<Move>)
    requires Parting(path, other)
    ensures Lookup(Rewrite(t, path, f), other) == Lookup(t, other)
  {
    PartingSeparate(t, path, other);
    RewriteApart(t, path, f, other);
  }

  // ----- paths one after the other

  /** What a path leads to from each of the trees. */
  function LookupAll(ts: seq<Tree>, path: seq<Move>): seq<Tree> {
    if ts == [] then [] else Lookup(ts[0], path) + LookupAll(ts[1..], path)
  }

  lemma {:induction false} LookupAllConcat(a: seq<Tree>, b: seq<Tree>, path: seq<Move>)
    ensures LookupAll(a + b, path) == LookupAll(a, path) + LookupAll(b, path)
  {
    if a == [] {
      assert a + b == b;
    } else {
      assert (a + b)[1..] == a[1..] + b;
      LookupAllConcat(a[1..], b, path);
    }
  }

  /** A path leads where its rest leads from where its start leads. */
  lemma {:induction false} LookupThen(t: Tree, p: seq<Move>, q: seq<Move>)
    ensures Lookup(t, p + q) == LookupAll(Lookup(t, p), q)
    decreases |p|, |t.children| + 1
  {
    if p == [] {
      assert p + q == q;
      assert LookupAll([t], q) == Lookup(t, q) + LookupAll([], q);
    } else {
      LookupFromThen(t, p, q, 0);
    }
  }

  lemma {:induction false} LookupFromThen(t: Tree, p: seq<Move>, q: seq<Move>, i: nat)
    requires p != [] && i <= |t.children|
    ensures LookupFrom(t, p + q, i) == LookupAll(LookupFrom(t, p, i), q)
    decreases |p|, |t.children| - i
  {
    if i < |t.children| {
      LookupFromThen(t, p, q, i + 1);
      assert (p + q)[0] == p[0] && (p + q)[1..] == p[1..] + q;
      if Selects(t.kind, Values(t.children), p[0], i) {
        LookupThen(t.children[i], p[1..], q);
        LookupAllConcat(Lookup(t.children[i], p[1..]), LookupFrom(t, p, i + 1), q);
      } else {
        assert LookupFrom(t, p, i) == LookupFrom(t, p, i + 1);
        assert !Selects(t.kind, Values(t.children), (p + q)[0], i);
        assert LookupFrom(t, p + q, i) == LookupFrom(t, p + q, i + 1);
      }
    }
  }

  /** Paths without wildcards. */
  predicate NoWildcard(path: seq<Move>) {
    forall m :: m in path ==> m != Go(Every)
  }

  lemma {:induction false} SelectedOnce(kind: Kind, keys: seq<string>, move: Move, i: nat, j: nat)
    requires move != Go(Every) && i < |keys| && j < |keys| && Selects(kind, keys, move, i)
        && Selects(kind, keys, move, j)
    ensures i == j
  {
  }

  /** Without wildcards a path leads to one place at most. */
  lemma {:induction false} OnePlace(t: Tree, path: seq<Move>)
    requires NoWildcard(path)
    ensures |Lookup(t, path)| <= 1
    decreases |path|, |t.children| + 1
  {
    if path != [] {
      OnePlaceFrom(t, path, 0);
    }
  }

  lemma {:induction false} OnePlaceFrom(t: Tree, path: seq<Move>, i: nat)
    requires NoWildcard(path) && path != [] && i <= |t.children|
    ensures |LookupFrom(t, path, i)| <= 1
    decreases |path|, |t.children| - i
  {
    if i < |t.children| {
      assert path[0] in path;
      OnePlaceFrom(t, path, i + 1);
      if Selects(t.kind, Values(t.children), path[0], i) {
        assert forall m :: m in path[1..] ==> m in path;
        OnePlace(t.children[i], path[1..]);
        FoundFrom(t, path, i + 1);
        if LookupFrom(t, path, i + 1) != [] {
          var j :| i + 1 <= j < |t.children| && Selects(t.kind, Values(t.children), path[0], j)
              && Found(t.children[j], path[1..]);
          SelectedOnce(t.kind, Values(t.children), path[0], i, j);
        }
      }
    }
  }

  /** One step leads to the child it selects. */
  lemma {:induction false} OneStep(t: Tree, move: Move, rest: seq<Move>, i: nat)
    requires move != Go(Every) && i < |t.children| && Selects(t.kind, Values(t.children), move, i)
    ensures Lookup(t, [move] + rest) == Lookup(t.children[i], rest)
  {
    StepFrom(t, move, rest, 0, i);
  }

  lemma {:induction false} StepFrom(t: Tree, move: Move, rest: seq<Move>, k: nat, i: nat)
    requires move != Go(Every) && i < |t.children| && k <= |t.children| && Selects(t.kind, Values(t.children), move, i)
    ensures LookupFrom(t, [move] + rest, k) == if k <= i then Lookup(t.children[i], rest) else []
    decreases |t.children| - k
  {
    if k < |t.children| {
      StepFrom(t, move, rest, k + 1, i);
      assert ([move] + rest)[1..] == rest;
      if Selects(t.kind, Values(t.children), move, k) {
        SelectedOnce(t.kind, Values(t.children), move, k, i);
      }
    }
  }

  /** A step that selects nothing leads nowhere. */
  lemma {:induction false} NoStep(t: Tree, move: Move, rest: seq<Move>)
    requires forall i :: 0 <= i < |t.children| ==> !Selects(t.kind, Values(t.children), move, i)
    ensures Lookup(t, [move] + rest) == []
  {
    FoundIsLookup(t, [move] + rest);
  }
}
