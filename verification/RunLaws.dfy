/** What each patch of a run makes of the fields of the object, said of the fields themselves. */
module RunLaws {
  import opened Strings
  import opened OpPath
  import opened Trees
  import opened TreeLaws
  import opened DeletionLaws
  import opened Patches
  import opened Rewriting
  import opened ItemRewrites
  import opened RewriteNames
  import opened FieldLaws
  import opened CreatePaths
  import opened PathCreation
  import opened Stripping
  import opened PatchRuns

  /** A removal leaves exactly the fields that do not meet its condition. */
  lemma {:induction false} AppliedRemove(t: Tree, path: seq<Seg>, cond: Tree -> bool, r: Resolver)
    requires t.kind == DocumentNode && UniqueKeys(t) && path != [] && !path[|path| - 1].At?
    ensures Applied(t, Patch.Remove(path, cond), r).Some?
    ensures var moves := Moves(DocumentNode, path);
      Lookup(Applied(t, Patch.Remove(path, cond), r).value, moves) == Unmet(Lookup(t, moves), cond)
  {
    var moves := Moves(DocumentNode, path);
    assert moves[|moves| - 1] == Go(path[|path| - 1]);
    DeleteFound(t, moves, cond);
  }

  /** A replacement puts its value in exactly the fields that meet its condition. */
  lemma {:induction false} AppliedReplace(t: Tree, path: seq<Seg>, cond: Tree -> bool, value: Tree, r: Resolver)
    requires t.kind == DocumentNode
    ensures Applied(t, Patch.Replace(path, cond, value), r).Some?
    ensures var moves := Moves(DocumentNode, path);
      var was, now := Lookup(t, moves), Lookup(Applied(t, Patch.Replace(path, cond, value), r).value, moves);
      |now| == |was| && forall i :: 0 <= i < |was| ==> now[i] == if cond(was[i]) then value else was[i]
  {
    ReplacedFields(t, Moves(DocumentNode, path), cond, value);
  }

  /** A rewrite of names fails exactly if a name has no translation, and rewrites every place as its kind demands. */
  lemma {:induction false} AppliedRewrite(t: Tree, path: seq<Seg>, item: ItemPatch, r: Resolver)
    requires t.kind == DocumentNode
    ensures var found := Lookup(t, Moves(DocumentNode, path));
      Applied(t, Patch.RewriteName(path, item), r).Some? <==> AllRewritable(found, |found|, item, r)
    ensures Applied(t, Patch.RewriteName(path, item), r).Some? ==>
              var moves := Moves(DocumentNode, path);
              var was, now := Lookup(t, moves), Lookup(Applied(t, Patch.RewriteName(path, item), r).value, moves);
              |now| == |was| && forall i :: 0 <= i < |was| ==> Becomes(was[i], now[i], item, r)
  {
    var moves := Moves(DocumentNode, path);
    hide Becomes;
    if Applied(t, Patch.RewriteName(path, item), r).Some? {
      RewrittenPlaces(t, moves, item, r);
    }
  }

  /** An addition to a path that leads nowhere leads to its value exactly if the path can be made. */
  lemma {:induction false} AppliedAdd(t: Tree, root: string, steps: seq<Step>, value: Tree, r: Resolver)
    requires Addable(t, root, steps)
    ensures Applied(t, Patch.Add(root, steps, value), r).Some?
    ensures var path := Meaning(root, steps);
      Lookup(Applied(t, Patch.Add(root, steps, value), r).value, Below(path)) == [value] <==> Creatable(t, path, value)
  {
    PutGet(t, Meaning(root, steps), value);
  }

  /** Paths that part from what a patch finds lead to what they led to, positions that a removal may move aside. */
  lemma {:induction false} AppliedElsewhere(t: Tree, p: Patch, r: Resolver, other: seq<Move>)
    requires t.kind == DocumentNode && UniqueKeys(t) && !p.Add? && Applied(t, p, r).Some? && p.path != []
    requires Parting(Moves(DocumentNode, p.path), other)
    requires p.Remove? ==> !MayMove(Moves(DocumentNode, p.path), other)
    ensures Lookup(Applied(t, p, r).value, other) == Lookup(t, other)
  {
    var moves := Moves(DocumentNode, p.path);
    match p
    case RewriteName(path, item) => RewriteElsewhere(t, moves, Target(item, r), other);
    case Remove(path, cond) =>
      assert moves[|moves| - 1] == Go(path[|path| - 1]);
      PartingSeparate(t, moves, other);
      DeleteApart(t, moves, cond, other);
    case Replace(path, cond, value) => RewriteElsewhere(t, moves, Given(cond, value), other);
  }
}
