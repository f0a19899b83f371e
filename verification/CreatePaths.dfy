/** Creating a path: the source's recursion from the end of the path, and what the path leads to afterwards. */
module CreatePaths {
  import opened Strings
  import opened OpPath
  import opened Trees
  import opened TreeLaws

  /** Paths below the root of an object. */
  function Below(path: seq<Seg>): seq<Move> {
    [Unwrap] + Steps(path)
  }

  predicate Numeric(seg: Seg) {
    Name(seg) != "" && Atoi(Name(seg)).Some?
  }

  /** A new node for the parent of a missing step, with the value as its only child. */
  function Wrap(seg: Seg, v: Tree): Tree {
    if Numeric(seg) then Tree(SequenceNode, "", [v]) else Tree(MappingNode, "", [Scalar(Name(seg)), v])
  }

  /** The value as the last child of an existing node. */
  function Attach(m: Tree, seg: Seg, v: Tree): Tree {
    match m.kind
    case MappingNode => m.(children := m.children + [Scalar(Name(seg)), v])
    case SequenceNode => m.(children := m.children + [v])
    case _ => m
  }

  function Attaching(seg: Seg, v: Tree): Tree -> Tree {
    m => Attach(m, seg, v)
  }

  /** From the last step up: attach the value where the parent exists, else wrap it and go on with the parent. */
  ghost function Create(t: Tree, path: seq<Seg>, v: Tree): Tree
    requires path != []
  {
    var init, last := path[..|path| - 1], path[|path| - 1];
    if Lookup(t, Below(init)) != [] then Rewrite(t, Below(init), Attaching(last, v))
    else if init == [] then t
    else Create(t, init, Wrap(last, v))
  }

  // ----- from the top down

  /** An object: a document that holds one mapping. */
  predicate IsObject(t: Tree) {
    t.kind == DocumentNode && |t.children| == 1 && t.children[0].kind == MappingNode && Paired(t)
  }

  /** The value inside new nodes for all the steps. */
  function Build(rest: seq<Seg>, v: Tree): Tree {
    if rest == [] then v else Wrap(rest[0], Build(rest[1..], v))
  }

  /** The length of the longest proper prefix of the path that leads somewhere. */
  ghost function Depth(t: Tree, path: seq<Seg>): (j: nat)
    requires path != []
    ensures j < |path|
  {
    if |path| == 1 || Lookup(t, Below(path[..|path| - 1])) != [] then |path| - 1 else Depth(t, path[..|path| - 1])
  }

  lemma {:induction false} RootFound(t: Tree)
    requires t.kind == DocumentNode && |t.children| == 1
    ensures Lookup(t, Below([])) == [t.children[0]]
  {
    var moves := Below([]);
    assert moves == [Unwrap] && moves[1..] == [];
    assert LookupFrom(t, moves, 1) == [];
    assert LookupFrom(t, moves, 0) == Lookup(t.children[0], []) + LookupFrom(t, moves, 1);
  }

  lemma {:induction false} BuildSnoc(rest: seq<Seg>, seg: Seg, v: Tree)
    ensures Build(rest + [seg], v) == Build(rest, Wrap(seg, v))
  {
    if rest != [] {
      assert (rest + [seg])[1..] == rest[1..] + [seg];
      BuildSnoc(rest[1..], seg, v);
    } else {
      assert (rest + [seg])[1..] == [];
    }
  }

  /** The prefix of length j leads somewhere, longer ones do not. */
  ghost predicate Deepest(t: Tree, path: seq<Seg>, j: nat) {
    && j < |path| && Lookup(t, Below(path[..j])) != []
    && forall i :: j < i < |path| ==> Lookup(t, Below(path[..i])) == []
  }

  lemma {:induction false} DepthIsDeepest(t: Tree, path: seq<Seg>)
    requires IsObject(t) && path != []
    ensures Deepest(t, path, Depth(t, path))
    decreases |path|
  {
    hide Lookup, Below, Paired;
    RootFound(t);
    assert path[..0] == [];
    if |path| > 1 && Lookup(t, Below(path[..|path| - 1])) == [] {
      var init := path[..|path| - 1];
      DepthIsDeepest(t, init);
      forall i | 0 <= i <= |init|
        ensures path[..i] == init[..i]
      {
      }
      assert init[..|init|] == init;
    }
  }

  /** The recursion attaches, at the deepest existing node, the value inside new nodes for the missing steps. */
  lemma {:induction false} CreateFromTop(t: Tree, path: seq<Seg>, v: Tree)
    requires IsObject(t) && path != []
    ensures var j := Depth(t, path);
      Create(t, path, v) == Rewrite(t, Below(path[..j]), Attaching(path[j], Build(path[j + 1..], v)))
    decreases |path|
  {
    hide Lookup, Below, Paired, Rewrite, Attaching, Build, Wrap;
    var init, last := path[..|path| - 1], path[|path| - 1];
    var j := Depth(t, path);
    RootFound(t);
    if |path| == 1 || Lookup(t, Below(init)) != [] {
      assert path[j + 1..] == [];
      BuildNothing(v);
      assert |path| == 1 ==> init == [];
    } else {
      CreateFromTop(t, init, Wrap(last, v));
      assert init[..j] == path[..j];
      assert path[j + 1..] == init[j + 1..] + [last];
      BuildSnoc(init[j + 1..], last, v);
    }
  }

  lemma {:induction false} BuildNothing(v: Tree)
    ensures Build([], v) == v
  {
  }

  // ----- what the path leads to afterwards

  /** A missing step whose new node is found again by that step. */
  predicate Wrappable(seg: Seg) {
    (seg.Key? && !Numeric(seg)) || seg == At(0) || seg == At(-1)
  }

  predicate AllWrappable(path: seq<Seg>) {
    forall s :: s in path ==> Wrappable(s)
  }

  /** A step by which the new last child of the node is found: any key of a mapping, the length of a sequence. */
  predicate Lands(m: Tree, seg: Seg) {
    match seg
    case Key(_) => m.kind == MappingNode
    case At(x) => m.kind == SequenceNode && (x == |m.children| || (x == -1 && m.children == []))
    case Every => false
  }

  /** A position from the end that becomes the first element when the sequence grows. */
  predicate Shifts(m: Tree, seg: Seg) {
    m.kind == SequenceNode && m.children != [] && seg == At(-|m.children| - 1)
  }

  lemma {:induction false} BuildFound(rest: seq<Seg>, v: Tree)
    requires Every !in rest
    ensures Lookup(Build(rest, v), Steps(rest)) == if AllWrappable(rest) then [v] else []
  {
    if rest == [] {
      assert Steps(rest) == [];
    } else {
      var seg, inner := rest[0], Build(rest[1..], v);
      var w := Wrap(seg, inner);
      assert Steps(rest) == [Go(seg)] + Steps(rest[1..]);
      BuildFound(rest[1..], v);
      assert seg in rest;
      WrapStep(seg, inner);
      if Wrappable(seg) {
        OneStep(w, Go(seg), Steps(rest[1..]), |w.children| - 1);
      } else {
        NoStep(w, Go(seg), Steps(rest[1..]));
      }
      assert AllWrappable(rest) <==> Wrappable(seg) && AllWrappable(rest[1..]);
    }
  }

  /** The only child of a new node is found exactly by wrappable steps. */
  lemma {:induction false} WrapStep(seg: Seg, v: Tree)
    requires seg != Every
    ensures var w := Wrap(seg, v);
      && w.children[|w.children| - 1] == v
      && forall i :: 0 <= i < |w.children| ==>
           (Selects(w.kind, Values(w.children), Go(seg), i) <==> Wrappable(seg) && i == |w.children| - 1)
  {
    if seg.At? {
      AtNumeric(seg.index);
    }
  }

  lemma {:induction false} AtNumeric(x: int)
    ensures Numeric(At(x))
  {
    AtoiDecimal(x);
  }

  /** A step that selects nothing yet. */
  ghost predicate Absent(m: Tree, seg: Seg) {
    forall i :: 0 <= i < |m.children| ==> !Selects(m.kind, Values(m.children), Go(seg), i)
  }

  lemma {:induction false} AttachStep(m: Tree, seg: Seg, v: Tree)
    requires m.kind == MappingNode || m.kind == SequenceNode
    requires Paired(m) && Absent(m, seg) && seg != Every
    ensures var a := Attach(m, seg, v);
      && a.kind == m.kind && a.children[|a.children| - 1] == v
      && forall i :: 0 <= i < |a.children| ==>
           (Selects(a.kind, Values(a.children), Go(seg), i) <==>
              (Lands(m, seg) && i == |a.children| - 1) || (Shifts(m, seg) && i == 0))
  {
    var a := Attach(m, seg, v);
    var n := |m.children|;
    if m.kind == MappingNode && seg.Key? {
      KeyAbsent(m, seg.name);
      forall i | 0 <= i < |a.children|
        ensures Selects(a.kind, Values(a.children), Go(seg), i) <==> i == n + 1
      {
        assert Values(a.children)[n] == seg.name;
        assert i - 1 >= 0 && i < n ==> Values(a.children)[i - 1] == Values(m.children)[i - 1];
        assert forall k :: 0 <= k < n ==> Values(a.children)[k] == Values(m.children)[k];
      }
    } else if m.kind == SequenceNode && seg.At? {
      var at := if seg.index < 0 then seg.index + n else seg.index;
      assert 0 <= at < n ==> Selects(m.kind, Values(m.children), Go(seg), at);
    }
  }

  /** No pair of a mapping in which the key selects nothing has the key. */
  lemma {:induction false} KeyAbsent(m: Tree, name: string)
    requires m.kind == MappingNode && Paired(m) && Absent(m, Key(name))
    ensures forall k :: 0 <= k < |m.children| && !Odd(k) ==> Values(m.children)[k] != name
  {
    NoFirst(Values(m.children), m, name, 0);
  }

  lemma {:induction false} NoFirst(keys: seq<string>, m: Tree, name: string, k: nat)
    requires m.kind == MappingNode && !Odd(|m.children|) && Absent(m, Key(name)) && keys == Values(m.children)
    requires k <= |keys| && forall j :: 0 <= j < k && !Odd(j) ==> keys[j] != name
    ensures forall j :: 0 <= j < |keys| && !Odd(j) ==> keys[j] != name
    decreases |keys| - k
  {
    if k < |keys| {
      if !Odd(k) && keys[k] == name {
        assert k + 1 < |keys| && Odd(k + 1);
        assert Selects(m.kind, Values(m.children), Go(Key(name)), k + 1);
      }
      NoFirst(keys, m, name, k + 1);
    }
  }

  lemma {:induction false} AttachFound(m: Tree, seg: Seg, v: Tree, rest: seq<Move>)
    requires m.kind == MappingNode || m.kind == SequenceNode
    requires Paired(m) && Absent(m, seg) && seg != Every
    ensures Lookup(Attach(m, seg, v), [Go(seg)] + rest)
         == if Lands(m, seg) then Lookup(v, rest) else if Shifts(m, seg) then Lookup(m.children[0], rest) else []
  {
    var a := Attach(m, seg, v);
    AttachStep(m, seg, v);
    if Lands(m, seg) {
      OneStep(a, Go(seg), rest, |a.children| - 1);
    } else if Shifts(m, seg) {
      OneStep(a, Go(seg), rest, 0);
    } else {
      NoStep(a, Go(seg), rest);
    }
  }

  // ----- put, then get

  /** The deepest node of the path that exists. */
  ghost function Deep(t: Tree, path: seq<Seg>): Tree
    requires IsObject(t) && path != []
  {
    DepthIsDeepest(t, path);
    Lookup(t, Below(path[..Depth(t, path)]))[0]
  }

  /** When the created path leads to the value: it lands where the path ends, or a shifted element has it already. */
  ghost predicate Creatable(t: Tree, path: seq<Seg>, v: Tree)
    requires IsObject(t) && path != []
  {
    var j := Depth(t, path);
    var m, seg, rest := Deep(t, path), path[j], path[j + 1..];
    if Lands(m, seg) then AllWrappable(rest)
    else Shifts(m, seg) && Lookup(m.children[0], Steps(rest)) == [v]
  }

  lemma {:induction false} LookupPaired(t: Tree, path: seq<Move>, m: Tree)
    requires Paired(t) && m in Lookup(t, path)
    ensures Paired(m)
    decreases |path|, |t.children| + 1
  {
    if path != [] {
      LookupFromPaired(t, path, 0, m);
    }
  }

  lemma {:induction false} LookupFromPaired(t: Tree, path: seq<Move>, i: nat, m: Tree)
    requires Paired(t) && path != [] && i <= |t.children| && m in LookupFrom(t, path, i)
    ensures Paired(m)
    decreases |path|, |t.children| - i
  {
    if i < |t.children| {
      if m in LookupFrom(t, path, i + 1) {
        LookupFromPaired(t, path, i + 1, m);
      } else {
        assert t.children[i] in t.children;
        LookupPaired(t.children[i], path[1..], m);
      }
    }
  }

  lemma {:induction false} BelowParts(path: seq<Seg>, j: nat)
    requires j < |path|
    ensures Below(path) == Below(path[..j]) + ([Go(path[j])] + Steps(path[j + 1..]))
    ensures Below(path[..j + 1]) == Below(path[..j]) + [Go(path[j])]
    ensures Every !in path ==> NoWildcard(Below(path[..j])) && path[j] != Every && Every !in path[j + 1..]
  {
  }

  /** The deepest node is the only one the prefix leads to, and the next step is missing in it. */
  lemma {:induction false} DeepAlone(t: Tree, path: seq<Seg>)
    requires IsObject(t) && path != [] && Every !in path && Lookup(t, Below(path)) == []
    ensures var j := Depth(t, path);
      Lookup(t, Below(path[..j])) == [Deep(t, path)] && Paired(Deep(t, path)) && Absent(Deep(t, path), path[j])
  {
    var j := Depth(t, path);
    var m := Deep(t, path);
    DepthIsDeepest(t, path);
    BelowParts(path, j);
    OnePlace(t, Below(path[..j]));
    LookupPaired(t, Below(path[..j]), m);
    LookupThen(t, Below(path[..j]), [Go(path[j])]);
    assert path[..|path|] == path;
    assert Lookup(t, Below(path[..j + 1])) == [];
    assert LookupAll([m], [Go(path[j])]) == Lookup(m, [Go(path[j])]) + LookupAll([], [Go(path[j])]);
    FoundIsLookup(m, [Go(path[j])]);
    forall i | 0 <= i < |m.children|
      ensures !Selects(m.kind, Values(m.children), Go(path[j]), i)
    {
      assert Found(m.children[i], [Go(path[j])][1..]);
    }
  }

  /** What a path leads to after the creation, if it starts like the created one as far as that existed. */
  lemma {:induction false} AfterCreate(t: Tree, path: seq<Seg>, v: Tree, rest: seq<Move>)
    requires IsObject(t) && path != [] && Every !in path && Lookup(t, Below(path)) == []
    ensures var j := Depth(t, path);
      Lookup(Create(t, path, v), Below(path[..j]) + rest)
          == Lookup(Attach(Deep(t, path), path[j], Build(path[j + 1..], v)), rest)
  {
    var j := Depth(t, path);
    var m, b := Deep(t, path), Build(path[j + 1..], v);
    var f := Attaching(path[j], b);
    DeepAlone(t, path);
    CreateFromTop(t, path, v);
    RewriteFound(t, Below(path[..j]), f);
    assert Map([m], f) == [f(m)];
    LookupThen(Create(t, path, v), Below(path[..j]), rest);
    assert LookupAll([f(m)], rest) == Lookup(f(m), rest) + LookupAll([], rest);
  }

  /**
   Put, then get: for a path of keys and positions that leads nowhere yet, below a mapping or a sequence, the
   created path leads exactly to the value if and only if it is creatable.
   */
  lemma {:induction false} PutGet(t: Tree, path: seq<Seg>, v: Tree)
    requires IsObject(t) && path != [] && Every !in path && Lookup(t, Below(path)) == []
    requires Deep(t, path).kind == MappingNode || Deep(t, path).kind == SequenceNode
    ensures Lookup(Create(t, path, v), Below(path)) == [v] <==> Creatable(t, path, v)
  {
    var j := Depth(t, path);
    var m, rest := Deep(t, path), path[j + 1..];
    hide Create, Attach, Build, Lookup, Below, Steps, Deep, Depth, IsObject, Paired, Absent;
    DeepAlone(t, path);
    BelowParts(path, j);
    AfterCreate(t, path, v, [Go(path[j])] + Steps(rest));
    AttachFound(m, path[j], Build(rest, v), Steps(rest));
    BuildFound(rest, v);
  }

  // ----- all else stays

  lemma {:induction false} PartingSplit(a: seq<Move>, b: seq<Move>, q: seq<Move>)
    requires Parting(a + b, q)
    ensures Parting(a, q) || (|a| <= |q| && q == a + q[|a|..] && Parting(b, q[|a|..]))
  {
    if a == [] {
      assert a + b == b;
    } else {
      assert (a + b)[0] == a[0] && (a + b)[1..] == a[1..] + b;
      if !Exclusive(a[0], q[0]) {
        PartingSplit(a[1..], b, q[1..]);
      }
    }
  }

  /** New nodes have nothing but the path they were made for. */
  lemma {:induction false} BuildElsewhere(rest: seq<Seg>, v: Tree, q: seq<Move>)
    requires Every !in rest && AllWrappable(rest) && Parting(Steps(rest), q)
    ensures Lookup(Build(rest, v), q) == []
  {
    var seg, inner := rest[0], Build(rest[1..], v);
    assert seg in rest && Steps(rest)[1..] == Steps(rest[1..]) && q == [q[0]] + q[1..];
    assert Steps(rest)[0] == Go(seg) && AllWrappable(rest[1..]);
    hide Wrap, Lookup, AllWrappable, Wrappable;
    if Exclusive(Go(seg), q[0]) {
      WrapElsewhere(seg, inner, q[0], q[1..]);
    } else {
      WrapInside(seg, inner, q[1..]);
      BuildElsewhere(rest[1..], v, q[1..]);
    }
  }

  lemma {:induction false} WrapElsewhere(seg: Seg, v: Tree, move: Move, rest: seq<Move>)
    requires seg != Every && Wrappable(seg) && Exclusive(Go(seg), move)
    ensures Lookup(Wrap(seg, v), [move] + rest) == []
  {
    WrapStep(seg, v);
    NoStep(Wrap(seg, v), move, rest);
  }

  lemma {:induction false} WrapInside(seg: Seg, v: Tree, rest: seq<Move>)
    requires seg != Every && Wrappable(seg)
    ensures Lookup(Wrap(seg, v), [Go(seg)] + rest) == Lookup(v, rest)
  {
    var w := Wrap(seg, v);
    WrapStep(seg, v);
    OneStep(w, Go(seg), rest, |w.children| - 1);
  }

  /** Steps apart from the attached one lead to the same children as before. */
  lemma {:induction false} AttachSelects(m: Tree, seg: Seg, v: Tree, move: Move, i: nat)
    requires m.kind == MappingNode || m.kind == SequenceNode
    requires Paired(m) && Lands(m, seg) && Exclusive(Go(seg), move) && i < |Attach(m, seg, v).children|
    ensures var a := Attach(m, seg, v);
      Selects(a.kind, Values(a.children), move, i) <==> i < |m.children| && Selects(m.kind, Values(m.children), move, i)
  {
    var a, n := Attach(m, seg, v), |m.children|;
    assert forall k :: 0 <= k < n ==> Values(a.children)[k] == Values(m.children)[k];
    if m.kind == MappingNode {
      assert Values(a.children)[n] == Name(seg);
    }
  }

  lemma {:induction false} AttachElsewhereFrom(m: Tree, seg: Seg, v: Tree, q: seq<Move>, i: nat)
    requires m.kind == MappingNode || m.kind == SequenceNode
    requires Paired(m) && Lands(m, seg) && q != [] && Exclusive(Go(seg), q[0]) && i <= |Attach(m, seg, v).children|
    ensures LookupFrom(Attach(m, seg, v), q, i) == if i <= |m.children| then LookupFrom(m, q, i) else []
    decreases |Attach(m, seg, v).children| - i
  {
    var a := Attach(m, seg, v);
    if i < |a.children| {
      AttachSelects(m, seg, v, q[0], i);
      AttachElsewhereFrom(m, seg, v, q, i + 1);
    }
  }

  /** A creation whose new nodes are all found by the path is not seen through paths that part from it. */
  lemma {:induction false} CreateElsewhere(t: Tree, path: seq<Seg>, v: Tree, other: seq<Move>)
    requires IsObject(t) && path != [] && Every !in path && Lookup(t, Below(path)) == []
    requires Deep(t, path).kind == MappingNode || Deep(t, path).kind == SequenceNode
    requires Lands(Deep(t, path), path[Depth(t, path)]) && AllWrappable(path[Depth(t, path) + 1..])
    requires Parting(Below(path), other)
    ensures Lookup(Create(t, path, v), other) == Lookup(t, other)
  {
    var j := Depth(t, path);
    var m, seg, rest := Deep(t, path), path[j], path[j + 1..];
    var b := Build(rest, v);
    var prefix := Below(path[..j]);
    DeepAlone(t, path);
    BelowParts(path, j);
    PartingSplit(prefix, [Go(seg)] + Steps(rest), other);
    if Parting(prefix, other) {
      CreateFromTop(t, path, v);
      RewriteElsewhere(t, prefix, Attaching(seg, b), other);
    } else {
      var q := other[|prefix|..];
      AfterCreate(t, path, v, q);
      LookupThen(t, prefix, q);
      assert LookupAll([m], q) == Lookup(m, q) + LookupAll([], q);
      AttachElsewhere(m, seg, rest, v, q);
    }
  }

  lemma {:induction false} AttachElsewhere(m: Tree, seg: Seg, rest: seq<Seg>, v: Tree, q: seq<Move>)
    requires m.kind == MappingNode || m.kind == SequenceNode
    requires Paired(m) && Absent(m, seg) && seg != Every && Every !in rest && Lands(m, seg) && AllWrappable(rest)
    requires Parting([Go(seg)] + Steps(rest), q)
    ensures Lookup(Attach(m, seg, Build(rest, v)), q) == Lookup(m, q)
  {
    var b := Build(rest, v);
    assert ([Go(seg)] + Steps(rest))[1..] == Steps(rest) && q == [q[0]] + q[1..];
    if Exclusive(Go(seg), q[0]) {
      AttachElsewhereFrom(m, seg, b, q, 0);
    } else {
      AttachFound(m, seg, b, q[1..]);
      BuildElsewhere(rest, v, q[1..]);
      NoStep(m, Go(seg), q[1..]);
    }
  }

  /** The step that leads to the new last child: its key in a mapping, the old length in a sequence. */
  function Landing(m: Tree, seg: Seg): Seg {
    if m.kind == MappingNode then Key(Name(seg)) else At(|m.children|)
  }

  lemma {:induction false} BesideSelects(m: Tree, seg: Seg, v: Tree, move: Move, i: nat)
    requires m.kind == MappingNode || m.kind == SequenceNode
    requires Paired(m) && Exclusive(Go(Landing(m, seg)), move) && i < |Attach(m, seg, v).children|
    ensures var a := Attach(m, seg, v);
      Selects(a.kind, Values(a.children), move, i) <==> i < |m.children| && Selects(m.kind, Values(m.children), move, i)
  {
    var a, n := Attach(m, seg, v), |m.children|;
    assert forall k :: 0 <= k < n ==> Values(a.children)[k] == Values(m.children)[k];
    if m.kind == MappingNode {
      assert Values(a.children)[n] == Name(seg);
    }
  }

  lemma {:induction false} AttachBeside(m: Tree, seg: Seg, v: Tree, q: seq<Move>, i: nat)
    requires m.kind == MappingNode || m.kind == SequenceNode
    requires Paired(m) && q != [] && Exclusive(Go(Landing(m, seg)), q[0]) && i <= |Attach(m, seg, v).children|
    ensures LookupFrom(Attach(m, seg, v), q, i) == if i <= |m.children| then LookupFrom(m, q, i) else []
    decreases |Attach(m, seg, v).children| - i
  {
    var a := Attach(m, seg, v);
    if i < |a.children| {
      BesideSelects(m, seg, v, q[0], i);
      AttachBeside(m, seg, v, q, i + 1);
    }
  }

  /**
   Whether or not the path finds its new nodes again: paths that part from where the first of them stands
   lead to what they led to.
   */
  lemma {:induction false} CreateBeside(t: Tree, path: seq<Seg>, v: Tree, other: seq<Move>)
    requires IsObject(t) && path != [] && Every !in path && Lookup(t, Below(path)) == []
    requires Deep(t, path).kind == MappingNode || Deep(t, path).kind == SequenceNode
    requires var j := Depth(t, path); Parting(Below(path[..j]) + [Go(Landing(Deep(t, path), path[j]))], other)
    ensures Lookup(Create(t, path, v), other) == Lookup(t, other)
  {
    var j := Depth(t, path);
    var m, b := Deep(t, path), Build(path[j + 1..], v);
    var prefix, landing := Below(path[..j]), [Go(Landing(m, path[j]))];
    DeepAlone(t, path);
    PartingSplit(prefix, landing, other);
    if Parting(prefix, other) {
      CreateFromTop(t, path, v);
      RewriteElsewhere(t, prefix, Attaching(path[j], b), other);
    } else {
      var q := other[|prefix|..];
      assert !Parting(landing[1..], q[1..]);
      AfterCreate(t, path, v, q);
      LookupThen(t, prefix, q);
      assert LookupAll([m], q) == Lookup(m, q) + LookupAll([], q);
      AttachBeside(m, path[j], b, q, 0);
    }
  }

  /** A creation keeps mappings paired. */
  lemma {:induction false} CreatePaired(t: Tree, path: seq<Seg>, v: Tree)
    requires Paired(t) && Paired(v) && path != []
    ensures Paired(Create(t, path, v))
    decreases |path|
  {
    var init, last := path[..|path| - 1], path[|path| - 1];
    if Lookup(t, Below(init)) != [] {
      AttachingPaired(t, Below(init), last, v);
    } else if init != [] {
      CreatePaired(t, init, Wrap(last, v));
    }
  }

  lemma {:induction false} AttachingPaired(t: Tree, path: seq<Move>, seg: Seg, v: Tree)
    requires Paired(t) && Paired(v)
    ensures Paired(Rewrite(t, path, Attaching(seg, v)))
    decreases |path|
  {
    if path != [] {
      var r := Rewrite(t, path, Attaching(seg, v));
      forall i | 0 <= i < |t.children|
        ensures Paired(r.children[i])
      {
        assert t.children[i] in t.children;
        AttachingPaired(t.children[i], path[1..], seg, v);
      }
    }
  }

  // ----- keys stay unique

  /** A rewrite whose images of the places have unique keys keeps keys unique. */
  lemma {:induction false} RewriteUnique(t: Tree, path: seq<Move>, f: Tree -> Tree)
    requires UniqueKeys(t) && forall s :: s in Lookup(t, path) ==> UniqueKeys(f(s))
    ensures UniqueKeys(Rewrite(t, path, f))
    decreases |path|
  {
    if path != [] {
      var r := Rewrite(t, path, f);
      forall i | 0 <= i < |t.children|
        ensures UniqueKeys(r.children[i])
      {
        assert t.children[i] in t.children;
        if Selects(t.kind, Values(t.children), path[0], i) {
          LookupBelow(t, path, i);
          RewriteUnique(t.children[i], path[1..], f);
        }
      }
      assert SameKeys(t.kind, Values(r.children), Values(t.children));
      UniqueBySame(Values(t.children), Values(r.children), t.kind);
    }
  }

  lemma {:induction false} UniqueBySame(a: seq<string>, b: seq<string>, kind: Kind)
    requires SameKeys(kind, b, a) && (kind == MappingNode ==> DistinctKeys(a))
    ensures kind == MappingNode ==> DistinctKeys(b)
  {
  }

  lemma {:induction false} LookupBelow(t: Tree, path: seq<Move>, i: nat)
    requires path != [] && i < |t.children| && Selects(t.kind, Values(t.children), path[0], i)
    ensures forall s :: s in Lookup(t.children[i], path[1..]) ==> s in Lookup(t, path)
  {
    LookupBelowFrom(t, path, 0, i);
  }

  lemma {:induction false} LookupBelowFrom(t: Tree, path: seq<Move>, k: nat, i: nat)
    requires path != [] && k <= i < |t.children| && Selects(t.kind, Values(t.children), path[0], i)
    ensures forall s :: s in Lookup(t.children[i], path[1..]) ==> s in LookupFrom(t, path, k)
    decreases i - k
  {
    if k < i {
      LookupBelowFrom(t, path, k + 1, i);
    }
  }

  lemma {:induction false} LookupUnique(t: Tree, path: seq<Move>, i: nat, m: Tree)
    requires UniqueKeys(t) && path != [] && i <= |t.children| && m in LookupFrom(t, path, i)
    ensures UniqueKeys(m)
    decreases |path|, |t.children| - i
  {
    if i < |t.children| {
      if m in LookupFrom(t, path, i + 1) {
        LookupUnique(t, path, i + 1, m);
      } else {
        assert t.children[i] in t.children;
        if path[1..] != [] {
          LookupUnique(t.children[i], path[1..], 0, m);
        }
      }
    }
  }

  /** No pair of the node has the name as its key. */
  ghost predicate NoKey(m: Tree, name: string) {
    m.kind == MappingNode ==> forall k :: 0 <= k < |m.children| && !Odd(k) ==> Values(m.children)[k] != name
  }

  lemma {:induction false} BuildUnique(rest: seq<Seg>, v: Tree)
    requires UniqueKeys(v)
    ensures UniqueKeys(Build(rest, v))
  {
    if rest != [] {
      BuildUnique(rest[1..], v);
    }
  }

  lemma {:induction false} AttachUnique(m: Tree, seg: Seg, v: Tree)
    requires m.kind == MappingNode || m.kind == SequenceNode
    requires UniqueKeys(m) && UniqueKeys(v) && Paired(m)
    ensures UniqueKeys(Attach(m, seg, v)) <==> NoKey(m, Name(seg))
  {
    var a, n := Attach(m, seg, v), |m.children|;
    if m.kind == MappingNode {
      assert UniqueKeys(Scalar(Name(seg)));
      assert (forall c :: c in m.children ==> UniqueKeys(c)) && !Odd(n);
      hide UniqueKeys, Name, Scalar;
      assert a.children == m.children + [Scalar(Name(seg)), v];
      KeysExtended(m.children, Scalar(Name(seg)), v);
      AttachedKeys(m, a, Scalar(Name(seg)), v);
    }
  }

  lemma {:induction false} AttachedKeys(m: Tree, a: Tree, key: Tree, v: Tree)
    requires m.kind == MappingNode == a.kind && a.children == m.children + [key, v]
    requires UniqueKeys(m) && UniqueKeys(key) && UniqueKeys(v)
    ensures UniqueKeys(a) <==> DistinctKeys(Values(a.children))
    ensures DistinctKeys(Values(m.children))
  {
    hide DistinctKeys;
  }

  /** One more pair keeps keys distinct exactly if its key is new. */
  lemma {:induction false} KeysExtended(children: seq<Tree>, key: Tree, v: Tree)
    requires !Odd(|children|) && DistinctKeys(Values(children))
    ensures DistinctKeys(Values(children + [key, v])) <==>
              forall k :: 0 <= k < |children| && !Odd(k) ==> children[k].value != key.value
  {
    var n, before, after := |children|, Values(children), Values(children + [key, v]);
    assert forall k :: 0 <= k < n ==> after[k] == before[k] == children[k].value;
    assert after[n] == key.value && |after| == n + 2;
  }

  /** A creation keeps keys unique exactly if the node that gets the first new child has no key of that name. */
  lemma {:induction false} CreateUnique(t: Tree, path: seq<Seg>, v: Tree)
    requires IsObject(t) && path != [] && Every !in path && Lookup(t, Below(path)) == []
    requires Deep(t, path).kind == MappingNode || Deep(t, path).kind == SequenceNode
    requires UniqueKeys(t) && UniqueKeys(v)
    ensures UniqueKeys(Create(t, path, v)) <==> NoKey(Deep(t, path), Name(path[Depth(t, path)]))
  {
    var j := Depth(t, path);
    var m, b := Deep(t, path), Build(path[j + 1..], v);
    var prefix, f := Below(path[..j]), Attaching(path[j], b);
    DeepAlone(t, path);
    BuildUnique(path[j + 1..], v);
    assert m in Lookup(t, prefix);
    LookupUnique(t, prefix, 0, m);
    AttachUnique(m, path[j], b);
    CreateFromTop(t, path, v);
    if UniqueKeys(f(m)) {
      RewriteUnique(t, prefix, f);
    } else {
      RewriteFound(t, prefix, f);
      assert Map([m], f)[0] == f(m) && f(m) in Lookup(Create(t, path, v), prefix);
      if UniqueKeys(Create(t, path, v)) {
        LookupUnique(Create(t, path, v), prefix, 0, f(m));
      }
    }
  }

  /** For a key that leads nowhere the condition holds. */
  lemma {:induction false} KeyIsNew(t: Tree, path: seq<Seg>)
    requires IsObject(t) && path != [] && Every !in path && Lookup(t, Below(path)) == []
    requires path[Depth(t, path)].Key?
    ensures NoKey(Deep(t, path), Name(path[Depth(t, path)]))
  {
    DeepAlone(t, path);
    var m := Deep(t, path);
    if m.kind == MappingNode {
      KeyAbsent(m, path[Depth(t, path)].name);
    }
  }
}
