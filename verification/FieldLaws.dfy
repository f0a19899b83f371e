/** What the patches make of the fields they find, said of the fields themselves. */
module FieldLaws {
  import opened Strings
  import opened OpPath
  import opened Trees
  import opened TreeLaws
  import opened Patches
  import opened Rewriting
  import opened ItemRewrites
  import opened RewriteNames

  // ----- single steps

  /** A key leads to the value behind it, if keys are unique. */
  lemma {:induction false} KeyStep(t: Tree, name: string, j: nat)
    requires t.kind == MappingNode && UniqueKeys(t) && Odd(j) && j < |t.children| && t.children[j - 1].value == name
    ensures Lookup(t, [Go(Key(name))]) == [t.children[j]]
  {
    FirstByUnique(Values(t.children), name, j);
    OneStep(t, Go(Key(name)), [], j);
    assert [Go(Key(name))] + [] == [Go(Key(name))];
  }

  /** A key that is not there leads nowhere. */
  lemma {:induction false} NoKeyStep(t: Tree, name: string)
    requires t.kind != MappingNode || forall j :: 0 <= j < |t.children| && Odd(j) ==> t.children[j - 1].value != name
    ensures Lookup(t, [Go(Key(name))]) == []
  {
    NoStep(t, Go(Key(name)), []);
    assert [Go(Key(name))] + [] == [Go(Key(name))];
  }

  /** A position leads to the element there, counted from the end if negative, and nowhere beyond the ends. */
  lemma {:induction false} PositionStep(t: Tree, x: int)
    ensures var i := if x < 0 then x + |t.children| else x;
      Lookup(t, [Go(At(x))]) == if t.kind == SequenceNode && 0 <= i < |t.children| then [t.children[i]] else []
  {
    var i := if x < 0 then x + |t.children| else x;
    assert [Go(At(x))] + [] == [Go(At(x))];
    if t.kind == SequenceNode && 0 <= i < |t.children| {
      OneStep(t, Go(At(x)), [], i);
    } else {
      NoStep(t, Go(At(x)), []);
    }
  }

  /** The values of a mapping or a list, from child k on. */
  function ValuesFrom(t: Tree, k: nat): seq<Tree>
    requires k <= |t.children|
    decreases |t.children| - k
  {
    if k == |t.children| then []
    else (if t.kind == SequenceNode || (t.kind == MappingNode && Odd(k)) then [t.children[k]] else [])
         + ValuesFrom(t, k + 1)
  }

  lemma {:induction false} ListValues(t: Tree, k: nat)
    requires t.kind == SequenceNode && k <= |t.children|
    ensures ValuesFrom(t, k) == t.children[k..]
    decreases |t.children| - k
  {
    if k < |t.children| {
      ListValues(t, k + 1);
    }
  }

  /** A wildcard leads to all values of a mapping or a list, in order. */
  lemma {:induction false} EveryStep(t: Tree, k: nat)
    requires k <= |t.children|
    ensures LookupFrom(t, [Go(Every)], k) == ValuesFrom(t, k)
    ensures k == 0 ==> Lookup(t, [Go(Every)]) == ValuesFrom(t, 0)
    ensures t.kind == SequenceNode ==> LookupFrom(t, [Go(Every)], k) == t.children[k..]
    decreases |t.children| - k
  {
    if t.kind == SequenceNode {
      ListValues(t, k);
    }
    if k < |t.children| {
      EveryStep(t, k + 1);
      assert [Go(Every)][1..] == [] && Lookup(t.children[k], []) == [t.children[k]];
    }
  }

  // ----- fields

  /** A replacement puts the value exactly where a field is found that meets the condition. */
  lemma {:induction false} ReplacedFields(t: Tree, path: seq<Move>, cond: Tree -> bool, value: Tree)
    requires path != []
    ensures var was, now := Lookup(t, path), Lookup(Replaced(t, path, Given(cond, value)), path);
      |now| == |was| && forall i :: 0 <= i < |was| ==> now[i] == if cond(was[i]) then value else was[i]
  {
    RewriteFound(t, path, Given(cond, value));
  }

  /** The names that are translated: scalars that meet the condition. */
  predicate Name(s: Tree, cond: Tree -> bool) {
    s.kind == ScalarNode && cond(s)
  }

  /** Names become scalars with their translations; everything else that is found stays. */
  lemma {:induction false} RenamedFields(t: Tree, path: seq<Move>, cond: Tree -> bool,
                                         translate: string -> Option<string>)
    requires path != [] && AllTranslate(Lookup(t, path), cond, translate)
    ensures var was, now := Lookup(t, path), Lookup(Replaced(t, path, Renamed(cond, translate)), path);
      && |now| == |was|
      && forall i :: 0 <= i < |was| ==>
           if was[i].kind == ScalarNode && cond(was[i]) then
             translate(was[i].value).Some? && now[i] == Scalar(translate(was[i].value).value)
           else now[i] == was[i]
  {
    RewriteFound(t, path, Renamed(cond, translate));
    var was := Lookup(t, path);
    assert forall i :: 0 <= i < |was| ==> was[i] in was;
  }

  /** The namespace of an item: the value of the only field found, empty without one, an error with several. */
  lemma {:induction false} NamespaceExactly(t: Tree, p: ItemPatch)
    ensures p.namespacePath.None? ==> Namespace(t, p) == Some("")
    ensures p.namespacePath.Some? ==>
              var found := Lookup(t, Moves(t.kind, p.namespacePath.value));
              && (|found| > 1 ==> Namespace(t, p) == None)
              && (|found| == 1 ==> Namespace(t, p) == Some(found[0].value))
              && (|found| == 0 ==> Namespace(t, p) == Some(""))
  {
  }

  ghost predicate ItemApart(t: Tree, p: ItemPatch) {
    && Moves(t.kind, p.namePath) != []
    && (p.namespacePath.Some? ==> Separate(t, Moves(t.kind, p.namePath), Moves(t.kind, p.namespacePath.value)))
  }

  /** The names of the item become their translations in the namespace the item had at first. */
  lemma {:induction false} ItemNames(t: Tree, p: ItemPatch, r: Resolver, namespace: string)
    requires ItemApart(t, p) && Translatable(t, p, r) && Namespace(t, p) == Some(namespace)
    ensures var path := Moves(t.kind, p.namePath);
      var was, now := Lookup(t, path), Lookup(Item(t, p, r), path);
      && |now| == |was|
      && forall i :: 0 <= i < |was| ==>
           if was[i].kind == ScalarNode && p.cond(was[i]) then
             r.name(was[i].value, namespace).Some? && now[i] == Scalar(r.name(was[i].value, namespace).value)
           else now[i] == was[i]
  {
    ItemFields(t, p, r, namespace);
    var was := Lookup(t, Moves(t.kind, p.namePath));
    assert forall i :: 0 <= i < |was| ==> was[i] in was;
  }

  /** And its namespace becomes its own translation, if it has one that is not empty. */
  lemma {:induction false} ItemNamespace(t: Tree, p: ItemPatch, r: Resolver, namespace: string)
    requires ItemApart(t, p) && Translatable(t, p, r) && Namespace(t, p) == Some(namespace)
    requires namespace != ""
    ensures p.namespacePath.Some?
    ensures var path := Moves(t.kind, p.namespacePath.value);
      var was, now := Lookup(t, path), Lookup(Item(t, p, r), path);
      && |was| == 1 == |now| && was[0].value == namespace
      && if was[0].kind == ScalarNode && p.cond(was[0]) then
           r.namespaceRef(namespace).Some? && now[0] == Scalar(r.namespaceRef(namespace).value)
         else now[0] == was[0]
  {
    NamespaceExactly(t, p);
    ItemFields(t, p, r, namespace);
    var names, spaces := Moves(t.kind, p.namePath), Moves(t.kind, p.namespacePath.value);
    RewriteApart(t, names, Renamed(p.cond, NameIn(r, namespace)), spaces);
    var was := Lookup(t, spaces);
    assert was[0] in was;
  }

  /** An item can be translated exactly if it has no two namespaces and all its names and its namespace can. */
  lemma {:induction false} TranslatableExactly(t: Tree, p: ItemPatch, r: Resolver)
    requires ItemApart(t, p)
    ensures var names := Lookup(t, Moves(t.kind, p.namePath));
      var spaces := if p.namespacePath.None? then [] else Lookup(t, Moves(t.kind, p.namespacePath.value));
      var namespace := if spaces == [] then "" else spaces[0].value;
      Translatable(t, p, r)
      <==> && |spaces| <= 1
           && (forall s :: s in names && s.kind == ScalarNode && p.cond(s) ==> r.name(s.value, namespace).Some?)
           && (namespace != "" && spaces[0].kind == ScalarNode && p.cond(spaces[0]) ==>
                 r.namespaceRef(namespace).Some?)
  {
    NamespaceExactly(t, p);
    if p.namespacePath.Some? && Namespace(t, p).Some? {
      var rename := Renamed(p.cond, NameIn(r, Namespace(t, p).value));
      RewriteApart(t, Moves(t.kind, p.namePath), rename, Moves(t.kind, p.namespacePath.value));
    }
  }

  /**
   A rewrite of names turns a place that is a name into its translation, without a namespace, an object into the
   rewritten item, and a list into the list of its rewritten items.
   */
  lemma {:induction false} RewrittenPlaces(t: Tree, path: seq<Move>, p: ItemPatch, r: Resolver)
    requires path != []
    requires var found := Lookup(t, path); AllRewritable(found, |found|, p, r)
    ensures var was, now := Lookup(t, path), Lookup(Rewrite(t, path, Target(p, r)), path);
      && |now| == |was|
      && forall i :: 0 <= i < |was| ==> Becomes(was[i], now[i], p, r)
  {
    RewriteFound(t, path, Target(p, r));
    var was := Lookup(t, path);
    forall i | 0 <= i < |was|
      ensures Becomes(was[i], Target(p, r)(was[i]), p, r)
    {
      assert Rewritable(was[i], p, r);
      PlaceBecomes(was[i], p, r);
    }
  }

  ghost predicate Becomes(was: Tree, now: Tree, p: ItemPatch, r: Resolver) {
    match was.kind
    case ScalarNode =>
      if p.cond(was) then r.name(was.value, "").Some? && now == Scalar(r.name(was.value, "").value) else now == was
    case MappingNode => Translatable(was, p, r) && now == Item(was, p, r)
    case SequenceNode =>
      && now.kind == SequenceNode && now.value == was.value && |now.children| == |was.children|
      && forall i :: 0 <= i < |was.children| ==>
           Translatable(was.children[i], p, r) && now.children[i] == Item(was.children[i], p, r)
    case DocumentNode => now == was
  }

  /** A rewrite of names succeeds exactly if every name, every item and every item of a list that it finds can be. */
  lemma {:induction false} RewritableExactly(found: seq<Tree>, p: ItemPatch, r: Resolver)
    ensures AllRewritable(found, |found|, p, r)
      <==> forall s :: s in found ==>
             && (s.kind == ScalarNode && p.cond(s) ==> r.name(s.value, "").Some?)
             && (s.kind == MappingNode ==> Translatable(s, p, r))
             && (s.kind == SequenceNode ==> forall c :: c in s.children ==> Translatable(c, p, r))
  {
    hide Translatable;
    if AllRewritable(found, |found|, p, r) {
      forall s | s in found
        ensures Rewritable(s, p, r)
      {
        var i :| 0 <= i < |found| && found[i] == s;
      }
    }
    forall s: Tree | s.kind == SequenceNode && forall c :: c in s.children ==> Translatable(c, p, r)
      ensures AllTranslatable(s.children, |s.children|, p, r)
    {
    }
  }

  lemma {:induction false} PlaceBecomes(s: Tree, p: ItemPatch, r: Resolver)
    requires Rewritable(s, p, r)
    ensures Becomes(s, Target(p, r)(s), p, r)
  {
  }
}
