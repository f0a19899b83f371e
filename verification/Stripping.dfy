/** Taking the fields that belong to the other side out of a patched object. */
module Stripping {
  import opened Strings
  import opened OpPath
  import opened Trees
  import opened Graph
  import opened Removals
  import opened Nodes
  import opened Patches
  import opened Layouts
  import opened SteadyPaths
  import opened SteadyEdits
  import opened TreeLaws
  import opened DeletionLaws

  /** A patch of the reverse direction: its path, none if it is empty, and whether to ignore it, if that is said. */
  datatype ReversePatch = ReversePatch(path: Option<seq<Seg>>, ignore: Option<bool>)

  /** The document without what the patches lead to, one patch after the other. */
  ghost function Stripped(t: Tree, patches: seq<ReversePatch>): Tree {
    if patches == [] then t else StrippedBy(Stripped(t, patches[..|patches| - 1]), patches[|patches| - 1])
  }

  ghost function StrippedBy(t: Tree, p: ReversePatch): Tree {
    if p.path.None? || p.ignore == Some(false) then t else Delete(t, Moves(t.kind, p.path.value), Always())
  }

  lemma {:induction false} StrippedByKeeps(t: Tree, p: ReversePatch)
    ensures StrippedBy(t, p).kind == t.kind
    ensures UniqueKeys(t) ==> UniqueKeys(StrippedBy(t, p))
    ensures Paired(t) ==> Paired(StrippedBy(t, p))
  {
    if p.path.Some? && p.ignore != Some(false) {
      DeleteKeeps(t, Moves(t.kind, p.path.value), Always());
    }
  }

  lemma {:induction false} StrippedKeeps(t: Tree, patches: seq<ReversePatch>)
    ensures Stripped(t, patches).kind == t.kind
    ensures UniqueKeys(t) ==> UniqueKeys(Stripped(t, patches))
    ensures Paired(t) ==> Paired(Stripped(t, patches))
  {
    if patches != [] {
      StrippedKeeps(t, patches[..|patches| - 1]);
      StrippedByKeeps(Stripped(t, patches[..|patches| - 1]), patches[|patches| - 1]);
    }
  }

  /** The patches take effect one after the other. */
  lemma {:induction false} StrippedInOrder(t: Tree, a: seq<ReversePatch>, b: seq<ReversePatch>)
    ensures Stripped(t, a + b) == Stripped(Stripped(t, a), b)
  {
    if b == [] {
      assert a + b == a;
    } else {
      var init := b[..|b| - 1];
      assert (a + b)[..|a + b| - 1] == a + init;
      StrippedInOrder(t, a, init);
    }
  }

  /** The root of an object cannot be taken out. */
  lemma {:induction false} RootKept(t: Tree)
    requires t.kind == DocumentNode
    ensures Delete(t, [Unwrap], Always()) == t
  {
    var mask := DeleteMask(t, Unwrap, Always());
    KeepsAll(t.kind, mask, |mask|);
    assert Drop(t.kind, t.children, mask) == t.children;
  }

  /** Paths of keys and wildcards below the root. */
  ghost predicate KeyPath(path: seq<Seg>) {
    path != [] && forall s :: s in path ==> !s.At?
  }

  lemma {:induction false} KeyMoves(path: seq<Seg>)
    requires KeyPath(path)
    ensures var moves := Moves(DocumentNode, path);
      moves != [] && NoPositions(moves) && moves[|moves| - 1] != Unwrap && NoPositions([moves[|moves| - 1]])
  {
    var moves := Moves(DocumentNode, path);
    forall m | m in moves
      ensures !(m.Go? && m.seg.At?)
    {
      var i :| 0 <= i < |moves| && moves[i] == m;
      assert i > 0 ==> path[i - 1] in path;
    }
    assert moves[|moves| - 1] in moves;
  }

  /** What is gone stays gone. */
  lemma {:induction false} StrippedByFindsNothing(t: Tree, path: seq<Seg>, p: ReversePatch)
    requires t.kind == DocumentNode && UniqueKeys(t) && KeyPath(path) && !Found(t, Moves(DocumentNode, path))
    ensures !Found(StrippedBy(t, p), Moves(DocumentNode, path))
  {
    KeyMoves(path);
    if p.path.Some? && p.ignore != Some(false) {
      var removed := Moves(t.kind, p.path.value);
      if p.path.value == [] {
        assert removed == [Unwrap];
        RootKept(t);
      } else {
        assert removed[|removed| - 1] == Go(p.path.value[|p.path.value| - 1]);
        DeletionFindsNothing(t, Moves(DocumentNode, path), removed, Always());
      }
    }
  }

  /**
   No field that a reverse patch owns is left, whatever the order and the overlap of the patches: for paths
   of keys and wildcards, in documents without repeated keys.
   */
  lemma {:induction false} NothingLeaks(t: Tree, patches: seq<ReversePatch>, p: ReversePatch)
    requires t.kind == DocumentNode && UniqueKeys(t)
    requires p in patches && p.path.Some? && p.ignore != Some(false) && KeyPath(p.path.value)
    ensures Lookup(Stripped(t, patches), Moves(DocumentNode, p.path.value)) == []
  {
    var moves := Moves(DocumentNode, p.path.value);
    NothingFound(t, patches, p);
    FoundIsLookup(Stripped(t, patches), moves);
  }

  lemma {:induction false} NothingFound(t: Tree, patches: seq<ReversePatch>, p: ReversePatch)
    requires t.kind == DocumentNode && UniqueKeys(t)
    requires p in patches && p.path.Some? && p.ignore != Some(false) && KeyPath(p.path.value)
    ensures !Found(Stripped(t, patches), Moves(DocumentNode, p.path.value))
  {
    var before := patches[..|patches| - 1];
    StrippedKeeps(t, before);
    if p == patches[|patches| - 1] {
      KeyMoves(p.path.value);
      DeletedNotFound(Stripped(t, before), Moves(DocumentNode, p.path.value));
    } else {
      assert p in before;
      NothingFound(t, before, p);
      StrippedByFindsNothing(Stripped(t, before), p.path.value, patches[|patches| - 1]);
    }
  }

  /** Patches without a path, and those that are not to be ignored, take nothing away. */
  lemma {:induction false} NothingStripped(t: Tree, patches: seq<ReversePatch>)
    requires forall p :: p in patches ==> p.path.None? || p.ignore == Some(false)
    ensures Stripped(t, patches) == t
  {
    if patches != [] {
      NothingStripped(t, patches[..|patches| - 1]);
      assert patches[|patches| - 1] in patches;
    }
  }

  /** The path parts from what the patch removes, and does not go through positions that the removal may move. */
  ghost predicate LeavesAlone(p: ReversePatch, other: seq<Move>)
    requires p.path.Some?
  {
    var removed := Moves(DocumentNode, p.path.value);
    p.path.value == [] || (Parting(removed, other) && !MayMove(removed, other))
  }

  /** What no reverse patch owns is as before. */
  lemma {:induction false} StrippedElsewhere(t: Tree, patches: seq<ReversePatch>, other: seq<Move>)
    requires t.kind == DocumentNode && UniqueKeys(t)
    requires forall p :: p in patches && p.path.Some? && p.ignore != Some(false) ==> LeavesAlone(p, other)
    ensures Lookup(Stripped(t, patches), other) == Lookup(t, other)
  {
    if patches != [] {
      var before, p := patches[..|patches| - 1], patches[|patches| - 1];
      assert p in patches;
      StrippedElsewhere(t, before, other);
      StrippedKeeps(t, before);
      if p.path.Some? && p.ignore != Some(false) {
        RemovedElsewhere(Stripped(t, before), p, other);
      }
    }
  }

  lemma {:induction false} RemovedElsewhere(t: Tree, p: ReversePatch, other: seq<Move>)
    requires t.kind == DocumentNode && UniqueKeys(t) && p.path.Some? && LeavesAlone(p, other)
    ensures Lookup(Delete(t, Moves(DocumentNode, p.path.value), Always()), other) == Lookup(t, other)
  {
    var removed := Moves(DocumentNode, p.path.value);
    if p.path.value == [] {
      assert removed == [Unwrap];
      RootKept(t);
    } else {
      assert removed[|removed| - 1] == Go(p.path.value[|p.path.value| - 1]);
      PartingSeparate(t, removed, other);
      DeleteApart(t, removed, Always(), other);
    }
  }

  /** The removal takes what it is meant to take; the root cannot be taken. */
  ghost predicate SteadyRemove(t: Tree, path: seq<Seg>, cond: Tree -> bool, shared: set<Tree>) {
    path == [] || Steady(t, Moves(t.kind, path), cond, shared)
  }

  /** Every reverse patch finds its places where its removals take them. */
  ghost predicate AllSteady(t: Tree, patches: seq<ReversePatch>, shared: set<Tree>) {
    forall k :: 0 <= k < |patches| && patches[k].path.Some? && patches[k].ignore != Some(false) ==>
      SteadyRemove(Stripped(t, patches[..k]), patches[k].path.value, Always(), shared)
  }

  lemma {:induction false} SteadyRemoved(g: Heap<Node>, n: Node, t: Tree, path: seq<Seg>, cond: Tree -> bool,
                                         rank: map<Node, nat>, shared: set<Tree>)
    requires LaidDoc(g, n, t, rank, shared) && t.kind == DocumentNode && SteadyRemove(t, path, cond, shared)
    ensures var r := Removal(g, n, t, Moves(t.kind, path), cond);
      r.Some? && LaidDoc(r.value, n, Delete(t, Moves(t.kind, path), cond), rank, shared)
  {
    var moves := Moves(t.kind, path);
    if path == [] {
      assert moves == [Unwrap];
      RootRemoval(g, n, t, cond);
    } else {
      assert moves[|moves| - 1] == Go(path[|path| - 1]);
      hide Moves, Removal, LaidDoc, Steady, Delete;
      SteadyRemoval(g, n, t, moves, cond, rank, shared);
    }
  }

  /** The document among all nodes is the document made of its own. */
  lemma {:induction false} OwnLaid(ns: set<Node>, all: set<Node>, n: Node, t: Tree, rank: map<Node, nat>,
                                   shared: set<Tree>)
    requires ns <= all && LaidDoc(Snap(all), n, t, rank, shared) && exists u :: Doc(ns, n, u)
    ensures Doc(ns, n, t) && LaidDoc(Snap(ns), n, t, rank, shared)
  {
    var u :| Doc(ns, n, u);
    ReprFrame(Snap(ns), Snap(all), n, u);
    OneTree(Snap(all), n, u, t);
    LaidFrame(Snap(all), Snap(ns), n, t, rank, shared);
  }

  /** The paths of the reverse patches are removed one after the other. */
  method StripReversePatches(ghost ns: set<Node>, obj: Node, ghost t: Tree, patches: seq<ReversePatch>,
                             ghost rank: map<Node, nat>, ghost shared: set<Tree>)
    returns (ghost ns': set<Node>)
    requires Doc(ns, obj, t) && t.kind == DocumentNode
    requires LaidDoc(Snap(ns), obj, t, rank, shared) && AllSteady(t, patches, shared)
    modifies ns
    ensures var u := Stripped(t, patches); ns' <= ns && Doc(ns', obj, u) && LaidDoc(Snap(ns'), obj, u, rank, shared)
  {
    ns' := ns;
    ghost var now := t;
    hide Removal, LaidDoc, Repr, Reach, Snap, Moves, Delete, Steady, Lone;
    for k := 0 to |patches|
      invariant now == Stripped(t, patches[..k]) && now.kind == DocumentNode
      invariant ns' <= ns && Doc(ns', obj, now) && LaidDoc(Snap(ns'), obj, now, rank, shared)
    {
      assert patches[..k + 1][..k] == patches[..k];
      StrippedByKeeps(now, patches[k]);
      ghost var was := now;
      now := StrippedBy(now, patches[k]);
      var p := patches[k];
      if p.path.None? || (p.ignore.Some? && !p.ignore.value) {
        continue;
      }
      SteadyRemoved(Snap(ns'), obj, was, p.path.value, Always(), rank, shared);
      ghost var before := ns';
      var ok;
      ok, ns' := Remove(before, obj, was, p.path.value, Always());
      OwnLaid(ns', before, obj, now, rank, shared);
    }
    assert patches[..|patches|] == patches;
  }
}
