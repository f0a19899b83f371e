/** A whole patch run: the patches one after the other, then the fields of the other side are taken out. */
module PatchRuns {
  import opened Strings
  import opened OpPath
  import opened Trees
  import opened TreeLaws
  import opened Graph
  import opened Nodes
  import opened Patches
  import opened Stripping
  import opened Rewriting
  import opened ItemRewrites
  import opened RewriteNames
  import opened Editing
  import opened CreatePaths
  import opened PathCreation
  import opened Removals
  import opened Placing
  import opened Layouts
  import opened SteadyPaths
  import opened SteadyEdits

  datatype Patch =
    | RewriteName(path: seq<Seg>, item: ItemPatch)
    | Remove(path: seq<Seg>, cond: Tree -> bool)
    | Replace(path: seq<Seg>, cond: Tree -> bool, value: Tree)
    | Add(root: string, steps: seq<Step>, value: Tree)

  /** The path is missing and can be made. */
  ghost predicate Addable(t: Tree, root: string, steps: seq<Step>) {
    GoodPath(root, steps) && Meaning(root, steps) != [] && Every !in Meaning(root, steps)
    && IsObject(t) && Lookup(t, Below(Meaning(root, steps))) == [] && Attachable(t, Meaning(root, steps))
  }

  /** Values that were put in several places do not lead the patch astray. */
  ghost predicate Fits(t: Tree, p: Patch, shared: set<Tree>) {
    match p
    case RewriteName(path, _) => Open(t, Moves(t.kind, path), shared)
    case Remove(path, cond) => SteadyRemove(t, path, cond, shared)
    case Replace(path, cond, _) => SteadyReplace(t, path, cond, shared)
    case Add(root, steps, _) => Addable(t, root, steps) && ClearTo(t, Meaning(root, steps), shared)
  }

  ghost predicate SteadyReplace(t: Tree, path: seq<Seg>, cond: Tree -> bool, shared: set<Tree>) {
    Moves(t.kind, path) != [] && SteadyPut(t, Moves(t.kind, path), cond, shared)
  }

  /** The values in several places after a patch. */
  ghost function SharedAfter(t: Tree, p: Patch, shared: set<Tree>): set<Tree> {
    match p
    case Replace(path, _, value) => Grown(t, Moves(t.kind, path), value, shared)
    case _ => shared
  }

  /** Values are well formed, and an addition does not repeat a key. */
  ghost predicate Clean(t: Tree, p: Patch) {
    match p
    case RewriteName(_, _) => true
    case Remove(_, _) => true
    case Replace(_, _, value) => Tidy(value)
    case Add(root, steps, value) =>
      Tidy(value) && (Addable(t, root, steps) ==>
        var path := Meaning(root, steps);
        NoKey(Deep(t, path), Name(path[Depth(t, path)])))
  }

  /** What one patch makes of a document; none if something has no translation. */
  ghost function Applied(t: Tree, p: Patch, r: Resolver): Option<Tree> {
    match p
    case RewriteName(path, item) =>
      var moves := Moves(t.kind, path);
      var found := Lookup(t, moves);
      if AllRewritable(found, |found|, item, r) then Some(Rewrite(t, moves, Target(item, r))) else None
    case Remove(path, cond) => Some(Delete(t, Moves(t.kind, path), cond))
    case Replace(path, cond, value) => Some(Rewrite(t, Moves(t.kind, path), Given(cond, value)))
    case Add(root, steps, value) =>
      if Meaning(root, steps) == [] then Some(t) else Some(Create(t, Meaning(root, steps), value))
  }

  ghost function AppliedAll(t: Tree, patches: seq<Patch>, r: Resolver): Option<Tree> {
    if patches == [] then Some(t)
    else
      var before := AppliedAll(t, patches[..|patches| - 1], r);
      if before.None? then None else Applied(before.value, patches[|patches| - 1], r)
  }

  /** The patches take effect one after the other, each on what the ones before it have made. */
  lemma {:induction false} AppliedInOrder(t: Tree, a: seq<Patch>, b: seq<Patch>, r: Resolver)
    ensures var first := AppliedAll(t, a, r);
      AppliedAll(t, a + b, r) == if first.None? then None else AppliedAll(first.value, b, r)
    ensures forall p :: AppliedAll(t, [p], r) == Applied(t, p, r)
  {
    hide Applied;
    forall p
      ensures AppliedAll(t, [p], r) == Applied(t, p, r)
    {
      assert [p][..0] == [];
    }
    if b == [] {
      assert a + b == a;
    } else {
      var init := b[..|b| - 1];
      assert (a + b)[..|a + b| - 1] == a + init;
      AppliedInOrder(t, a, init, r);
    }
  }

  /** The values in several places after a run. */
  ghost function SharedBy(t: Tree, patches: seq<Patch>, r: Resolver, shared: set<Tree>): set<Tree> {
    if patches == [] then shared
    else
      var init := patches[..|patches| - 1];
      var before := AppliedAll(t, init, r);
      if before.None? then shared
      else SharedAfter(before.value, patches[|patches| - 1], SharedBy(t, init, r, shared))
  }

  /** Every patch fits the document it is applied to. */
  ghost predicate AllFit(t: Tree, patches: seq<Patch>, r: Resolver, shared: set<Tree>) {
    forall k :: 0 <= k < |patches| && AppliedAll(t, patches[..k], r).Some? ==>
      Fits(AppliedAll(t, patches[..k], r).value, patches[k], SharedBy(t, patches[..k], r, shared))
  }

  /** So does every reverse patch. */
  ghost predicate StripFits(t: Tree, patches: seq<Patch>, reverse: seq<ReversePatch>, r: Resolver, shared: set<Tree>) {
    var u := AppliedAll(t, patches, r);
    u.Some? ==> AllSteady(u.value, reverse, SharedBy(t, patches, r, shared))
  }

  ghost predicate AllClean(t: Tree, patches: seq<Patch>, r: Resolver) {
    forall k :: 0 <= k < |patches| && AppliedAll(t, patches[..k], r).Some? ==>
      Clean(AppliedAll(t, patches[..k], r).value, patches[k])
  }

  /** Nothing is left of what the reverse patches own, as far as their paths are keys and wildcards. */
  ghost predicate NoLeak(t: Tree, reverse: seq<ReversePatch>) {
    forall p :: p in reverse && p.path.Some? && p.ignore != Some(false) && KeyPath(p.path.value) ==>
      Lookup(t, Moves(t.kind, p.path.value)) == []
  }

  // ----- patches keep documents well formed

  /** Well formed: keys paired with values, and no key twice. */
  ghost predicate Tidy(t: Tree) {
    Paired(t) && UniqueKeys(t)
  }

  ghost predicate KeepsTidy(f: Tree -> Tree) {
    forall s :: Tidy(s) ==> Tidy(f(s))
  }

  lemma {:induction false} RewriteTidy(t: Tree, path: seq<Move>, f: Tree -> Tree)
    requires KeepsTidy(f) && Tidy(t)
    ensures Tidy(Rewrite(t, path, f))
    decreases |path|
  {
    if path != [] {
      var r := Rewrite(t, path, f);
      forall i | 0 <= i < |t.children|
        ensures Tidy(r.children[i])
      {
        assert t.children[i] in t.children;
        RewriteTidy(t.children[i], path[1..], f);
      }
      assert SameKeys(t.kind, Values(r.children), Values(t.children));
    }
  }

  lemma {:induction false} RenamedTidy(cond: Tree -> bool, translate: string -> Option<string>)
    ensures KeepsTidy(Renamed(cond, translate))
  {
    assert forall value :: Tidy(Scalar(value));
  }

  lemma {:induction false} ItemTidy(t: Tree, p: ItemPatch, r: Resolver)
    requires Tidy(t) && Namespace(t, p).Some?
    ensures Tidy(Item(t, p, r))
  {
    var namespace := Namespace(t, p).value;
    RenamedTidy(p.cond, NameIn(r, namespace));
    RenamedTidy(p.cond, r.namespaceRef);
    RewriteTidy(t, Moves(t.kind, p.namePath), Renamed(p.cond, NameIn(r, namespace)));
    var named := WithNames(t, p, r, namespace);
    if namespace != "" && p.namespacePath.Some? {
      RewriteTidy(named, Moves(named.kind, p.namespacePath.value), Renamed(p.cond, r.namespaceRef));
    }
  }

  lemma {:induction false} TargetTidy(p: ItemPatch, r: Resolver)
    ensures KeepsTidy(Target(p, r))
  {
    forall t | Tidy(t)
      ensures Tidy(Target(p, r)(t))
    {
      Targets(t, p, r);
      match t.kind {
        case ScalarNode =>
        case SequenceNode =>
          forall i | 0 <= i < |t.children|
            ensures Tidy(Map(t.children, Items(p, r))[i])
          {
            assert t.children[i] in t.children;
            if Translatable(t.children[i], p, r) {
              ItemTidy(t.children[i], p, r);
            }
          }
        case MappingNode =>
          if Translatable(t, p, r) {
            ItemTidy(t, p, r);
          }
        case DocumentNode =>
      }
    }
  }

  lemma {:induction false} GivenTidy(cond: Tree -> bool, value: Tree)
    requires Tidy(value)
    ensures KeepsTidy(Given(cond, value))
  {
  }

  lemma {:induction false} AddTidy(t: Tree, root: string, steps: seq<Step>, value: Tree)
    requires Addable(t, root, steps) && Clean(t, Add(root, steps, value)) && Tidy(t)
    ensures Tidy(Create(t, Meaning(root, steps), value))
  {
    CreatePaired(t, Meaning(root, steps), value);
    CreateUnique(t, Meaning(root, steps), value);
  }

  lemma {:induction false} RewriteKind(t: Tree, path: seq<Move>, f: Tree -> Tree)
    requires path != []
    ensures Rewrite(t, path, f).kind == t.kind
  {
  }

  lemma {:induction false} AppliedTidy(t: Tree, p: Patch, r: Resolver)
    requires t.kind == DocumentNode && Applied(t, p, r).Some? && (p.Add? ==> Addable(t, p.root, p.steps))
    ensures Applied(t, p, r).value.kind == DocumentNode
    ensures Tidy(t) && Clean(t, p) ==> Tidy(Applied(t, p, r).value)
  {
    match p {
      case RewriteName(path, item) =>
        hide Rewrite, KeepsTidy, Target, AllRewritable, Tidy, Clean;
        RewriteKind(t, Moves(t.kind, path), Target(item, r));
        TargetTidy(item, r);
        if Tidy(t) {
          RewriteTidy(t, Moves(t.kind, path), Target(item, r));
        }
      case Remove(path, cond) =>
        hide Delete;
        DeleteKeeps(t, Moves(t.kind, path), cond);
      case Replace(path, cond, value) =>
        hide Rewrite, KeepsTidy, Given, Tidy;
        RewriteKind(t, Moves(t.kind, path), Given(cond, value));
        if Tidy(t) && Tidy(value) {
          GivenTidy(cond, value);
          RewriteTidy(t, Moves(t.kind, path), Given(cond, value));
        }
      case Add(root, steps, value) =>
        AddKind(t, root, steps, value);
        hide Create, Addable, Tidy, Clean;
        if Tidy(t) && Clean(t, p) {
          AddTidy(t, root, steps, value);
        }
    }
  }

  lemma {:induction false} AddKind(t: Tree, root: string, steps: seq<Step>, value: Tree)
    requires t.kind == DocumentNode && Addable(t, root, steps)
    ensures Create(t, Meaning(root, steps), value).kind == DocumentNode && Meaning(root, steps) != []
  {
    var path := Meaning(root, steps);
    assert IsObject(t) && path != [];
    hide Create, Addable, Meaning, IsObject, Rewrite, Attaching, Lookup, Attachable;
    CreateFromTop(t, path, value);
    var j := Depth(t, path);
    assert Below(path[..j]) != [];
    RewriteKind(t, Below(path[..j]), Attaching(path[j], Build(path[j + 1..], value)));
  }

  // ----- values of patches

  lemma {:induction false} PartGrows(a: set<Node>, b: set<Node>, n: Node, t: Tree, nodes: set<Node>)
    requires a <= b && PartOf(Snap(a), n, t, nodes)
    ensures PartOf(Snap(b), n, t, nodes)
  {
    PartFrame(Snap(a), Snap(b), n, t, nodes, {});
  }

  lemma {:induction false} DocPart(ns: set<Node>, all: set<Node>, n: Node, t: Tree)
    requires Doc(ns, n, t) && TreeShaped(Snap(ns), n, t) && ns <= all
    ensures PartOf(Snap(all), n, t, ns)
  {
    ReprFrame(Snap(ns), Snap(all), n, t);
  }

  ghost predicate Siblings(all: set<Node>, content: seq<Node>, children: seq<Tree>, parts: seq<set<Node>>)
    reads all
  {
    && |content| == |parts| <= |children|
    && (forall j :: 0 <= j < |parts| ==> PartOf(Snap(all), content[j], children[j], parts[j]) && parts[j] <= all)
    && forall i, j :: 0 <= i < j < |parts| ==> parts[i] !! parts[j]
  }

  lemma {:induction false} SiblingsGrow(before: set<Node>, all: set<Node>, content: seq<Node>, children: seq<Tree>,
                                        parts: seq<set<Node>>, c: Node, part: set<Node>)
    requires Siblings(before, content, children, parts) && |content| < |children|
    requires Doc(part, c, children[|content|]) && TreeShaped(Snap(part), c, children[|content|])
    requires before !! part && all == before + part
    ensures Siblings(all, content + [c], children, parts + [part])
  {
    hide Doc, TreeShaped, PartOf, Repr, Reach, Snap;
    forall j | 0 <= j < |parts|
      ensures PartOf(Snap(all), content[j], children[j], parts[j])
    {
      PartGrows(before, all, content[j], children[j], parts[j]);
    }
    DocPart(part, all, c, children[|content|]);
  }

  lemma {:induction false} SiblingsAssembled(before: set<Node>, n: Node, v: Tree, parts: seq<set<Node>>)
    requires Siblings(before, n.content, v.children, parts) && |parts| == |v.children| && n !in before
    requires n.kind == v.kind && n.value == v.value
    ensures Repr(Snap(before + {n}), n, v) && TreeShaped(Snap(before + {n}), n, v)
  {
    var all := before + {n};
    forall j | 0 <= j < |parts|
      ensures PartOf(Snap(all), n.content[j], v.children[j], parts[j])
    {
      PartGrows(before, all, n.content[j], v.children[j], parts[j]);
    }
    Assembled(Snap(all), n, v, parts, all);
  }

  /** New nodes for a value. */
  method NewTree(v: Tree) returns (node: Node, ghost vs: set<Node>)
    ensures fresh(vs) && Doc(vs, node, v) && TreeShaped(Snap(vs), node, v)
    decreases v
  {
    hide Doc, TreeShaped, Repr, Reach, Snap, PartOf;
    var content: seq<Node> := [];
    ghost var parts: seq<set<Node>>, all: set<Node> := [], {};
    for i := 0 to |v.children|
      invariant |content| == i && fresh(all) && Siblings(all, content, v.children, parts)
    {
      var c; ghost var part;
      c, part := NewTree(v.children[i]);
      SiblingsGrow(all, all + part, content, v.children, parts, c, part);
      content, parts, all := content + [c], parts + [part], all + part;
    }
    node := new Node(v.kind, v.value, content);
    SiblingsAssembled(all, node, v, parts);
    vs := Footprint(all + {node}, node, v);
  }

  // ----- the run

  method ApplyPatch(ghost ns: set<Node>, obj: Node, ghost t: Tree, p: Patch, r: Resolver, ghost rank: map<Node, nat>,
                    ghost shared: set<Tree>)
    returns (ok: bool, ghost ns': set<Node>, ghost rank': map<Node, nat>)
    requires Doc(ns, obj, t) && LaidDoc(Snap(ns), obj, t, rank, shared) && t.kind == DocumentNode && Fits(t, p, shared)
    modifies ns
    ensures fresh(ns' - ns)
    ensures ok <==> Applied(t, p, r).Some?
    ensures ok ==>
              var u := Applied(t, p, r).value;
              Doc(ns', obj, u) && LaidDoc(Snap(ns'), obj, u, rank', SharedAfter(t, p, shared))
  {
    hide Rewrite, Delete, Lookup, Target, Rewritable, LaidDoc, Snap, Repr, Reach, Steady, SteadyPut, Open, ClearTo,
         Moves, Removal, Lone;
    rank' := rank;
    match p {
      case RewriteName(path, item) =>
        ok, ns', rank' := RewriteNames.RewriteName(ns, obj, t, path, item, r, rank, shared);
      case Remove(path, cond) =>
        SteadyRemoved(Snap(ns), obj, t, path, cond, rank, shared);
        ok, ns' := Patches.Remove(ns, obj, t, path, cond);
        OwnLaid(ns', ns, obj, Delete(t, Moves(t.kind, path), cond), rank, shared);
      case Replace(path, cond, value) =>
        ns', rank' := ReplaceAll(ns, obj, t, path, cond, value, rank, shared);
        ok := true;
      case Add(root, steps, value) =>
        ns', rank' := AddOne(ns, obj, t, root, steps, value, rank, shared);
        ok := true;
    }
  }

  lemma {:induction false} ReplaceReady(ns: set<Node>, vs: set<Node>, obj: Node, t: Tree, path: seq<Seg>,
                                        cond: Tree -> bool, w: Node, v: Tree, rank: map<Node, nat>, shared: set<Tree>)
    returns (rank': map<Node, nat>)
    requires Doc(ns, obj, t) && LaidDoc(Snap(ns), obj, t, rank, shared) && t.kind == DocumentNode
    requires Doc(vs, w, v) && TreeShaped(Snap(vs), w, v) && ns !! vs && SteadyReplace(t, path, cond, shared)
    ensures Beside(Snap(ns + vs), obj, t, w, v)
    ensures var moves := Moves(t.kind, path);
      LaidDoc(Placement(Snap(ns + vs), obj, t, moves, cond, w, v), obj, Rewrite(t, moves, Given(cond, v)), rank',
          Grown(t, moves, v, shared))
  {
    var moves := Moves(t.kind, path);
    hide Doc, LaidDoc, Repr, Reach, TreeShaped, Placement, Rewrite, Lookup, Moves, SteadyPut, Beside, Snap, Lone;
    LaidAmong(ns, ns + vs, obj, t, rank, shared);
    DocPart(vs, ns + vs, w, v);
    BesideDocs(ns, vs, obj, t, moves, w, v);
    if |Lookup(t, moves)| > 1 {
      ManyPlaces(t, path);
    }
    rank' := SteadyPlacement(Snap(ns + vs), obj, t, moves, cond, w, v, rank, shared);
  }

  lemma {:induction false} LaidAmong(ns: set<Node>, all: set<Node>, n: Node, t: Tree, rank: map<Node, nat>,
                                     shared: set<Tree>)
    requires ns <= all && Doc(ns, n, t) && LaidDoc(Snap(ns), n, t, rank, shared)
    ensures LaidDoc(Snap(all), n, t, rank, shared)
  {
    hide LaidDoc;
    LaidFrame(Snap(ns), Snap(all), n, t, rank, shared);
  }

  /** Only a path below the root leads to several places. */
  lemma {:induction false} ManyPlaces(t: Tree, path: seq<Seg>)
    requires t.kind == DocumentNode && |Lookup(t, Moves(t.kind, path))| > 1
    ensures EndsInGo(Moves(t.kind, path))
  {
    var moves := Moves(t.kind, path);
    if path == [] {
      assert moves == [Unwrap] && moves[1..] == [];
      RootOnly(t, 0);
    } else {
      assert moves[|moves| - 1] == Go(path[|path| - 1]);
    }
  }

  lemma {:induction false} RootOnly(t: Tree, i: nat)
    requires i <= |t.children|
    ensures |LookupFrom(t, [Unwrap], i)| <= if i == 0 then 1 else 0
    decreases |t.children| - i
  {
    if i < |t.children| {
      RootOnly(t, i + 1);
      assert [Unwrap][1..] == [] && |Lookup(t.children[i], [])| == 1;
    }
  }

  method ReplaceAll(ghost ns: set<Node>, obj: Node, ghost t: Tree, path: seq<Seg>, cond: Tree -> bool, v: Tree,
                    ghost rank: map<Node, nat>, ghost shared: set<Tree>)
    returns (ghost ns': set<Node>, ghost rank': map<Node, nat>)
    requires Doc(ns, obj, t) && LaidDoc(Snap(ns), obj, t, rank, shared) && t.kind == DocumentNode
    requires SteadyReplace(t, path, cond, shared)
    modifies ns
    ensures fresh(ns' - ns)
    ensures var u := Rewrite(t, Moves(t.kind, path), Given(cond, v));
      Doc(ns', obj, u) && LaidDoc(Snap(ns'), obj, u, rank', Grown(t, Moves(t.kind, path), v, shared))
  {
    hide Doc, LaidDoc, Repr, Reach, TreeShaped, Placement, Rewrite, Lookup, Moves, SteadyReplace, Snap, Lone, Grown;
    var node; ghost var vs;
    node, vs := NewTree(v);
    var value := new Node(DocumentNode, "", [node]);
    rank' := ReplaceReady(ns, vs, obj, t, path, cond, node, v, rank, shared);
    ns' := Patches.Replace(ns, obj, t, path, cond, value, vs, v);
    OwnLaid(ns', ns + vs, obj, Rewrite(t, Moves(t.kind, path), Given(cond, v)), rank',
        Grown(t, Moves(t.kind, path), v, shared));
  }

  method AddOne(ghost ns: set<Node>, obj: Node, ghost t: Tree, root: string, steps: seq<Step>, v: Tree,
                ghost rank: map<Node, nat>, ghost shared: set<Tree>)
    returns (ghost ns': set<Node>, ghost rank': map<Node, nat>)
    requires Doc(ns, obj, t) && LaidDoc(Snap(ns), obj, t, rank, shared)
    requires Addable(t, root, steps) && ClearTo(t, Meaning(root, steps), shared)
    modifies ns
    ensures fresh(ns' - ns)
    ensures var u := Create(t, Meaning(root, steps), v); Doc(ns', obj, u) && LaidDoc(Snap(ns'), obj, u, rank', shared)
  {
    var node; ghost var vs;
    node, vs := NewTree(v);
    var value := new Node(DocumentNode, "", [node]);
    hide Create, Lookup, Meaning, GoodPath, IsObject, Deep, LaidDoc, ClearTo;
    ns', rank' := AddMissing(ns, obj, t, root, steps, value, vs, v, rank, shared);
  }

  /** After a run no field that a reverse patch owns is left in the patched object. */
  method ApplyPatches(ghost ns: set<Node>, obj: Node, ghost t: Tree, patches: seq<Patch>, reverse: seq<ReversePatch>,
                      r: Resolver, ghost rank: map<Node, nat>, ghost shared: set<Tree>)
    returns (ok: bool, ghost ns': set<Node>, ghost rank': map<Node, nat>)
    requires Doc(ns, obj, t) && LaidDoc(Snap(ns), obj, t, rank, shared) && t.kind == DocumentNode
    requires AllFit(t, patches, r, shared) && StripFits(t, patches, reverse, r, shared)
    modifies ns
    ensures fresh(ns' - ns)
    ensures ok <==> AppliedAll(t, patches, r).Some?
    ensures ok ==>
              var u := Stripped(AppliedAll(t, patches, r).value, reverse);
              && Doc(ns', obj, u) && LaidDoc(Snap(ns'), obj, u, rank', SharedBy(t, patches, r, shared))
              && (Tidy(t) && AllClean(t, patches, r) ==> Tidy(u) && NoLeak(u, reverse))
  {
    hide Repr, Reach, TreeShaped, Snap, Applied, Tidy, Fits, Clean, LaidDoc, SharedAfter;
    ns', ok, rank' := ns, true, rank;
    ghost var now, more := t, shared;
    for k := 0 to |patches|
      invariant AppliedAll(t, patches[..k], r) == Some(now) && now.kind == DocumentNode
      invariant SharedBy(t, patches[..k], r, shared) == more
      invariant Tidy(t) && AllClean(t, patches, r) ==> Tidy(now)
      invariant fresh(ns' - ns) && Doc(ns', obj, now) && LaidDoc(Snap(ns'), obj, now, rank', more)
    {
      AppliedStep(t, patches, k, r);
      SharedStep(t, patches, k, r, shared);
      ok, ns', rank' := ApplyPatch(ns', obj, now, patches[k], r, rank', more);
      if !ok {
        NoneStays(t, patches, k + 1, r);
        return;
      }
      FitsAddable(now, patches[k], more);
      AppliedTidy(now, patches[k], r);
      more := SharedAfter(now, patches[k], more);
      now := Applied(now, patches[k], r).value;
    }
    ok := true;
    assert patches[..|patches|] == patches;
    StripTidy(now, reverse);
    ns' := StripReversePatches(ns', obj, now, reverse, rank', more);
  }

  lemma {:induction false} FitsAddable(t: Tree, p: Patch, shared: set<Tree>)
    requires Fits(t, p, shared)
    ensures p.Add? ==> Addable(t, p.root, p.steps)
  {
  }

  lemma {:induction false} SharedStep(t: Tree, patches: seq<Patch>, k: nat, r: Resolver, shared: set<Tree>)
    requires k < |patches| && AppliedAll(t, patches[..k], r).Some?
    ensures SharedBy(t, patches[..k + 1], r, shared)
         == SharedAfter(AppliedAll(t, patches[..k], r).value, patches[k], SharedBy(t, patches[..k], r, shared))
  {
    assert patches[..k + 1][..k] == patches[..k];
  }

  lemma {:induction false} AppliedStep(t: Tree, patches: seq<Patch>, k: nat, r: Resolver)
    requires k < |patches| && AppliedAll(t, patches[..k], r).Some?
    ensures AppliedAll(t, patches[..k + 1], r) == Applied(AppliedAll(t, patches[..k], r).value, patches[k], r)
  {
    assert patches[..k + 1][..k] == patches[..k];
  }

  lemma {:induction false} NoneStays(t: Tree, patches: seq<Patch>, k: nat, r: Resolver)
    requires k <= |patches| && AppliedAll(t, patches[..k], r).None?
    ensures AppliedAll(t, patches, r).None?
    decreases |patches| - k
  {
    if k < |patches| {
      assert patches[..k + 1][..k] == patches[..k];
      NoneStays(t, patches, k + 1, r);
    } else {
      assert patches[..k] == patches;
    }
  }

  lemma {:induction false} StripTidy(t: Tree, reverse: seq<ReversePatch>)
    requires t.kind == DocumentNode
    ensures Tidy(t) ==> Tidy(Stripped(t, reverse)) && NoLeak(Stripped(t, reverse), reverse)
  {
    StrippedKeeps(t, reverse);
    if Tidy(t) {
      forall p | p in reverse && p.path.Some? && p.ignore != Some(false) && KeyPath(p.path.value)
        ensures Lookup(Stripped(t, reverse), Moves(DocumentNode, p.path.value)) == []
      {
        NothingLeaks(t, reverse, p);
      }
    }
  }

  // ----- what the conditions ask for

  /** No replacement finds several places. */
  ghost predicate OnePlaceEach(t: Tree, patches: seq<Patch>, r: Resolver) {
    forall k :: 0 <= k < |patches| && AppliedAll(t, patches[..k], r).Some? && patches[k].Replace? ==>
      OnePlaceNow(AppliedAll(t, patches[..k], r).value, patches[k])
  }

  ghost predicate OnePlaceNow(t: Tree, p: Patch)
    requires p.Replace?
  {
    |Lookup(t, Moves(t.kind, p.path))| <= 1
  }

  ghost predicate AllAddable(t: Tree, patches: seq<Patch>, r: Resolver) {
    forall k :: 0 <= k < |patches| && AppliedAll(t, patches[..k], r).Some? && patches[k].Add? ==>
      Addable(AppliedAll(t, patches[..k], r).value, patches[k].root, patches[k].steps)
  }

  lemma {:induction false} NothingSharedBy(t: Tree, patches: seq<Patch>, r: Resolver, k: nat)
    requires OnePlaceEach(t, patches, r) && k <= |patches|
    ensures SharedBy(t, patches[..k], r, {}) == {}
    decreases k
  {
    hide OnePlaceNow, Applied, SharedAfter, AppliedAll;
    if k > 0 && AppliedAll(t, patches[..k - 1], r).Some? {
      NothingSharedBy(t, patches, r, k - 1);
      SharedStep(t, patches, k - 1, r, {});
      OneNotShared(AppliedAll(t, patches[..k - 1], r).value, patches[k - 1]);
    } else if k > 0 {
      assert patches[..k][..k - 1] == patches[..k - 1];
    }
  }

  lemma {:induction false} OneNotShared(t: Tree, p: Patch)
    requires p.Replace? ==> OnePlaceNow(t, p)
    ensures SharedAfter(t, p, {}) == {}
  {
  }

  lemma {:induction false} DocumentStays(t: Tree, patches: seq<Patch>, r: Resolver, k: nat)
    requires t.kind == DocumentNode && AllAddable(t, patches, r) && k <= |patches|
    ensures AppliedAll(t, patches[..k], r).Some? ==> AppliedAll(t, patches[..k], r).value.kind == DocumentNode
    decreases k
  {
    if k > 0 {
      assert patches[..k][..k - 1] == patches[..k - 1];
      hide Applied, Addable;
      DocumentStays(t, patches, r, k - 1);
      if AppliedAll(t, patches[..k - 1], r).Some? {
        AppliedStep(t, patches, k - 1, r);
        if AppliedAll(t, patches[..k], r).Some? {
          AppliedTidy(AppliedAll(t, patches[..k - 1], r).value, patches[k - 1], r);
        }
      }
    }
  }

  /** Without shared values the patches fit all documents, additions if they can be made. */
  lemma {:induction false} FitsUnshared(t: Tree, p: Patch)
    requires t.kind == DocumentNode
    ensures Fits(t, p, {}) <==> (p.Add? ==> Addable(t, p.root, p.steps))
  {
    hide Open, Steady, SteadyPut, Addable, Clear;
    match p {
      case RewriteName(path, _) => OpenOfNothing(t, Moves(t.kind, path));
      case Remove(path, cond) =>
        if path != [] {
          SteadyOfNothing(t, Moves(t.kind, path), cond);
        }
      case Replace(path, cond, _) =>
        SteadyOfNothing(t, Moves(t.kind, path), cond);
        PutOfSteady(t, Moves(t.kind, path), cond);
      case Add(root, steps, _) =>
        ClearOfNothing(t, Meaning(root, steps));
    }
  }

  lemma {:induction false} PutOfSteady(t: Tree, path: seq<Move>, cond: Tree -> bool)
    requires path != [] && Steady(t, path, cond, {})
    ensures SteadyPut(t, path, cond, {})
  {
  }

  lemma {:induction false} ClearOfNothing(t: Tree, path: seq<Seg>)
    ensures ClearTo(t, path, {})
  {
    hide Clear, Open;
    forall k | 0 <= k < |path|
      ensures Clear(t, Below(path[..k]), {})
    {
      OpenOfNothing(t, Below(path[..k]));
      OpenClear(t, Below(path[..k]), {});
    }
  }

  /** Runs in which no replacement finds several places need no more than additions that can be made. */
  lemma {:induction false} UnsharedRuns(t: Tree, patches: seq<Patch>, reverse: seq<ReversePatch>, r: Resolver)
    requires t.kind == DocumentNode && OnePlaceEach(t, patches, r)
    ensures AllFit(t, patches, r, {}) <==> AllAddable(t, patches, r)
    ensures StripFits(t, patches, reverse, r, {})
  {
    hide Fits, Addable, Applied, OnePlaceEach;
    if AllFit(t, patches, r, {}) {
      forall k | 0 <= k < |patches| && AppliedAll(t, patches[..k], r).Some? && patches[k].Add?
        ensures Addable(AppliedAll(t, patches[..k], r).value, patches[k].root, patches[k].steps)
      {
        FitsAddable(AppliedAll(t, patches[..k], r).value, patches[k], SharedBy(t, patches[..k], r, {}));
      }
    }
    if AllAddable(t, patches, r) {
      forall k | 0 <= k < |patches| && AppliedAll(t, patches[..k], r).Some?
        ensures Fits(AppliedAll(t, patches[..k], r).value, patches[k], SharedBy(t, patches[..k], r, {}))
      {
        NothingSharedBy(t, patches, r, k);
        DocumentStays(t, patches, r, k);
        FitsUnshared(AppliedAll(t, patches[..k], r).value, patches[k]);
      }
    }
    assert patches[..|patches|] == patches;
    NothingSharedBy(t, patches, r, |patches|);
    if AppliedAll(t, patches, r).Some? {
      SteadyUnshared(AppliedAll(t, patches, r).value, reverse);
    }
  }

  lemma {:induction false} SteadyUnshared(t: Tree, reverse: seq<ReversePatch>)
    ensures AllSteady(t, reverse, {})
  {
    hide Steady, Stripped;
    forall k | 0 <= k < |reverse| && reverse[k].path.Some? && reverse[k].ignore != Some(false)
      ensures SteadyRemove(Stripped(t, reverse[..k]), reverse[k].path.value, Always(), {})
    {
      var u, path := Stripped(t, reverse[..k]), reverse[k].path.value;
      if path != [] {
        SteadyOfNothing(u, Moves(u.kind, path), Always());
      }
    }
  }

  /**
   A scalar put in any number of places, and a reverse patch for a field of the object: nothing leaks, unless the
   field itself has become the scalar.
   */
  lemma {:induction false} ScalarThenField(t: Tree, path: seq<Seg>, cond: Tree -> bool, v: Tree, field: string,
                                           r: Resolver)
    requires IsObject(t) && v.kind == ScalarNode
    requires var u := Rewrite(t, Moves(t.kind, path), Given(cond, v));
      v !in Lookup(u, Moves(DocumentNode, [Key(field)]))
    ensures var patches, reverse := [Replace(path, cond, v)], [ReversePatch(Some([Key(field)]), None)];
      AllFit(t, patches, r, {}) && StripFits(t, patches, reverse, r, {})
  {
    var patches, reverse := [Replace(path, cond, v)], [ReversePatch(Some([Key(field)]), None)];
    var moves, u := Moves(t.kind, path), Rewrite(t, Moves(t.kind, path), Given(cond, v));
    assert patches[..0] == [] && patches[..1] == patches && reverse[..0] == [];
    assert AppliedAll(t, patches[..0], r) == Some(t);
    AppliedStep(t, patches, 0, r);
    SharedStep(t, patches, 0, r, {});
    assert t.kind == DocumentNode;
    RewriteKind(t, moves, Given(cond, v));
    hide IsObject, Rewrite, Steady, SteadyPut, Clear, Lookup, Fits, Given;
    FitsUnshared(t, patches[0]);
    FieldClear(u, field, v, SharedBy(t, patches, r, {}));
    ClearSteady(u, Moves(DocumentNode, [Key(field)]), Always(), SharedBy(t, patches, r, {}));
  }

  lemma {:induction false} FieldClear(u: Tree, field: string, v: Tree, shared: set<Tree>)
    requires u.kind == DocumentNode && v.kind == ScalarNode && shared <= {v}
    requires v !in Lookup(u, Moves(DocumentNode, [Key(field)]))
    ensures Clear(u, Moves(DocumentNode, [Key(field)]), shared)
  {
    var moves, rest := Moves(DocumentNode, [Key(field)]), [Go(Key(field))];
    assert moves[1..] == rest && rest[1..] == [];
    forall i | 0 <= i < |u.children| && Selects(u.kind, Values(u.children), moves[0], i)
      ensures Clear(u.children[i], rest, shared)
    {
      var m := u.children[i];
      forall j | 0 <= j < |m.children| && Selects(m.kind, Values(m.children), rest[0], j)
        ensures m.children[j] !in shared
      {
        FieldFound(u, m, moves, i, j);
      }
    }
  }

  lemma {:induction false} FieldFound(u: Tree, m: Tree, moves: seq<Move>, i: nat, j: nat)
    requires |moves| == 2 && i < |u.children| && m == u.children[i] && j < |m.children|
    requires Selects(u.kind, Values(u.children), moves[0], i) && Selects(m.kind, Values(m.children), moves[1], j)
    ensures m.children[j] in Lookup(u, moves)
  {
    var rest := moves[1..];
    assert rest[1..] == [] && rest[0] == moves[1];
    LookupHas(m, rest, 0, j, m.children[j]);
    LookupHas(u, moves, 0, i, m.children[j]);
  }

  lemma {:induction false} LookupHas(t: Tree, path: seq<Move>, i: nat, j: nat, s: Tree)
    requires path != [] && i <= j < |t.children| && Selects(t.kind, Values(t.children), path[0], j)
    requires s in Lookup(t.children[j], path[1..])
    ensures s in LookupFrom(t, path, i) && (i == 0 ==> s in Lookup(t, path))
    decreases j - i
  {
    if i < j {
      LookupHas(t, path, i + 1, j, s);
    }
  }
}
