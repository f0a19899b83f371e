/** Creating a path in place. */
module PathCreation {
  import opened Strings
  import opened OpPath
  import opened Trees
  import opened TreeLaws
  import opened Graph
  import opened Holders
  import opened Removals
  import opened SharedRemoving
  import opened Nodes
  import opened Patches
  import opened Editing
  import opened ItemRewrites
  import opened Layouts
  import opened EditedLayouts
  import opened CreatePaths

  function Segs(steps: seq<Step>): seq<Seg> {
    seq(|steps|, i requires 0 <= i < |steps| => steps[i].seg)
  }

  /** What a printed path means: the root sign, or a first property, and then the steps. */
  function Meaning(root: string, steps: seq<Step>): seq<Seg> {
    (if root == "$" then [] else [Key(root)]) + Segs(steps)
  }

  /** Paths the printer writes, other than the root sign alone. */
  ghost predicate GoodPath(root: string, steps: seq<Step>) {
    && (root == "$" || (Plain(root) && root != ""))
    && (root == "$" ==> steps != [])
    && forall s :: s in steps ==> Printable(s) && s.seg != Every
  }

  lemma {:induction false} GoodRoot(root: string, steps: seq<Step>)
    requires GoodPath(root, steps)
    ensures root != "" && '[' !in root && Every !in Meaning(root, steps) && Meaning(root, steps) != []
  {
  }

  /** The parent path means the path without its last step. */
  lemma {:induction false} MeaningParts(root: string, steps: seq<Step>)
    requires GoodPath(root, steps)
    ensures var path, meaning := Print(root, steps), Meaning(root, steps);
      var last := meaning[|meaning| - 1];
      && meaning != []
      && GetChildName(path) == Name(last) && (IsSequenceChild(path) <==> Numeric(last))
      && (steps != [] ==> GetParentPath(path) == Print(root, steps[..|steps| - 1])
                          && Meaning(root, steps[..|steps| - 1]) == meaning[..|meaning| - 1])
      && (steps == [] ==> GetParentPath(path) == "" && meaning == [Key(root)])
  {
    GoodRoot(root, steps);
    MeaningInit(root, steps);
    if steps != [] {
      StepsPrintable(root, steps);
      hide GoodPath, Print, GetChildName, GetParentPath, Meaning, Plain, Printable;
      SplitPrinted(root, steps);
    } else {
      hide GetChildName, GetParentPath, Plain;
      BaseHasNoParent(root);
    }
  }

  lemma {:induction false} StepsPrintable(root: string, steps: seq<Step>)
    requires GoodPath(root, steps)
    ensures forall s :: s in steps ==> Printable(s)
  {
  }

  lemma {:induction false} MeaningInit(root: string, steps: seq<Step>)
    requires GoodPath(root, steps)
    ensures var meaning := Meaning(root, steps);
      && meaning != []
      && (steps != [] ==> meaning[|meaning| - 1] == steps[|steps| - 1].seg
                          && Meaning(root, steps[..|steps| - 1]) == meaning[..|meaning| - 1])
      && (steps == [] ==> meaning == [Key(root)])
  {
    if steps != [] {
      assert Segs(steps)[..|steps| - 1] == Segs(steps[..|steps| - 1]);
    } else {
      assert Segs(steps) == [];
    }
  }

  // ----- attaching to one node

  /** The heap with a node's content extended. */
  ghost function Extended(h: Heap<Node>, m: Node, more: seq<Node>): Heap<Node>
    requires m in h
  {
    h[m := h[m].(content := h[m].content + more)]
  }

  ghost predicate ChildParts(h: Heap<Node>, m: Node, t: Tree, parts: seq<set<Node>>, all: set<Node>) {
    && m in h && h[m].kind == t.kind && h[m].value == t.value && |h[m].content| == |t.children| == |parts| && m in all
    && (forall i :: 0 <= i < |parts| ==>
         PartOf(h, h[m].content[i], t.children[i], parts[i]) && m !in parts[i] && parts[i] <= all)
    && (forall i, j :: 0 <= i < j < |parts| ==> parts[i] !! parts[j])
  }

  lemma {:induction false} Assembled(h: Heap<Node>, m: Node, t: Tree, parts: seq<set<Node>>, all: set<Node>)
    requires ChildParts(h, m, t, parts, all)
    ensures PartOf(h, m, t, all)
  {
    forall i | 0 <= i < |parts|
      ensures Repr(h, h[m].content[i], t.children[i])
    {
      assert PartOf(h, h[m].content[i], t.children[i], parts[i]);
    }
    forall i | 0 <= i < |parts|
      ensures TreeShaped(h, h[m].content[i], t.children[i])
      ensures Reach(h, h[m].content[i], t.children[i]) <= parts[i] && m !in parts[i] && parts[i] <= all
    {
      assert PartOf(h, h[m].content[i], t.children[i], parts[i]);
    }
  }

  lemma {:induction false} Outside(h: Heap<Node>, h': Heap<Node>, n: Node, t: Tree, nodes: set<Node>, m: Node)
    requires PartOf(h, n, t, nodes) && m !in nodes && Same(h, h', h.Keys - {m})
    ensures PartOf(h', n, t, nodes)
  {
    PartFrame(h, h', n, t, nodes, {m});
  }

  /** What attaching adds to a content list. */
  ghost function Added(kind: Kind, key: Node, value: Node): seq<Node> {
    if kind == MappingNode then [key, value] else [value]
  }

  lemma {:induction false} LeafPart(h: Heap<Node>, n: Node, value: string)
    requires n in h && h[n] == Rec(ScalarNode, value, [])
    ensures PartOf(h, n, Scalar(value), {n})
  {
  }

  // ----- attaching to the place of a path

  /** The path leads to one place. */
  ghost predicate AtPlace<T>(g: Heap<T>, n: T, t: Tree, path: seq<Move>, m: T, tm: Tree) {
    Repr(g, n, t) && path != [] && Spots(g, n, t, path) == [Spot(m, tm)]
  }

  /** A change of the only place of a path, if it is met once, changes the document there only. */
  lemma {:induction false} ChangeAt<T>(g: Heap<T>, h: Heap<T>, n: T, t: Tree, path: seq<Move>, m: T, tm: Tree,
                                       f: Tree -> Tree)
    requires Repr(g, n, t) && Lone(g, n, t, path) && Same(g, h, Reach(g, n, t) - {m}) && Repr(h, m, f(tm))
    requires forall s :: s in Spots(g, n, t, path) ==> s == Spot(m, tm)
    requires Spots(g, n, t, path) == [] ==> m !in Reach(g, n, t)
    ensures Repr(h, n, Rewrite(t, path, f))
    decreases |path|
  {
    if path != [] {
      ReachInHeap(g, n, t);
      NotTheRoot(g, n, t, path, m, tm);
      var r := Rewrite(t, path, f);
      forall i | 0 <= i < |t.children|
        ensures Repr(h, g[n].content[i], r.children[i])
      {
        ReachChild(g, n, t, i);
        ChangeBelow(g, n, t, path, m, tm, i);
        if Selects(t.kind, Values(t.children), path[0], i) {
          ChangeAt(g, h, g[n].content[i], t.children[i], path[1..], m, tm, f);
        } else {
          ReprFrame(g, h, g[n].content[i], t.children[i]);
        }
      }
    } else {
      assert Spot(n, t) in Spots(g, n, t, path);
    }
  }

  lemma {:induction false} NotTheRoot<T>(g: Heap<T>, n: T, t: Tree, path: seq<Move>, m: T, tm: Tree)
    requires Repr(g, n, t) && Lone(g, n, t, path) && path != []
    requires forall s :: s in Spots(g, n, t, path) ==> s == Spot(m, tm)
    requires Spots(g, n, t, path) == [] ==> m !in Reach(g, n, t)
    ensures n != m
  {
    ReachInHeap(g, n, t);
    if Spots(g, n, t, path) != [] {
      var s := Spots(g, n, t, path)[0];
      assert s in Spots(g, n, t, path);
      SpotNotRoot(g, n, t, path, s);
    }
  }

  lemma {:induction false} ChangeBelow<T>(g: Heap<T>, n: T, t: Tree, path: seq<Move>, m: T, tm: Tree, i: nat)
    requires Repr(g, n, t) && Lone(g, n, t, path) && path != [] && i < |t.children|
    requires forall s :: s in Spots(g, n, t, path) ==> s == Spot(m, tm)
    requires Spots(g, n, t, path) == [] ==> m !in Reach(g, n, t)
    ensures Selects(t.kind, Values(t.children), path[0], i) ==>
              && Lone(g, g[n].content[i], t.children[i], path[1..])
              && (forall s :: s in Spots(g, g[n].content[i], t.children[i], path[1..]) ==> s == Spot(m, tm))
              && (Spots(g, g[n].content[i], t.children[i], path[1..]) == [] ==>
                    m !in Reach(g, g[n].content[i], t.children[i]))
    ensures !Selects(t.kind, Values(t.children), path[0], i) ==> m !in Reach(g, g[n].content[i], t.children[i])
  {
    var c, tc := g[n].content[i], t.children[i];
    ReachChild(g, n, t, i);
    if Selects(t.kind, Values(t.children), path[0], i) {
      assert LoneAt(g, n, t, path, i);
      forall s | s in Spots(g, c, tc, path[1..])
        ensures s == Spot(m, tm)
      {
        assert SpotBelow(g, n, t, path, s, i);
        SpotsMembers(g, n, t, path, s);
      }
    }
    if Spots(g, n, t, path) != [] && m in Reach(g, c, tc) {
      var s := Spots(g, n, t, path)[0];
      assert s in Spots(g, n, t, path);
      SpotsMembers(g, n, t, path, s);
      OwnSpot(g, n, t, path, s, i);
    }
  }

  /** The children the place had are not touched. */
  lemma {:induction false} ChildrenKept(g: Heap<Node>, h: Heap<Node>, m: Node, tm: Tree)
    requires Repr(g, m, tm) && Lone(g, m, tm, []) && Same(g, h, Reach(g, m, tm) - {m})
    ensures forall i :: 0 <= i < |tm.children| ==> Repr(h, g[m].content[i], tm.children[i])
  {
    forall i | 0 <= i < |tm.children|
      ensures Repr(h, g[m].content[i], tm.children[i])
    {
      ReachChild(g, m, tm, i);
      NotBelowItself(g, m, tm, i);
      ReprFrame(g, h, g[m].content[i], tm.children[i]);
    }
  }

  /** The place with its new children. */
  lemma {:induction false} AttachedRepr(g: Heap<Node>, h: Heap<Node>, m: Node, tm: Tree, key: Node, seg: Seg,
                                        value: Node, vt: Tree, vs: set<Node>)
    requires Repr(g, m, tm) && (tm.kind == MappingNode || tm.kind == SequenceNode) && Lone(g, m, tm, [])
    requires m in h && m !in vs && Same(g, h, Reach(g, m, tm)) && PartOf(h, value, vt, vs)
    requires tm.kind == MappingNode ==> key in h && h[key] == Rec(ScalarNode, Name(seg), []) && key != m
    ensures Repr(Extended(h, m, Added(tm.kind, key, value)), m, Attach(tm, seg, vt))
    ensures PartOf(Extended(h, m, Added(tm.kind, key, value)), value, vt, vs)
  {
    var h' := Extended(h, m, Added(tm.kind, key, value));
    assert Same(h, h', h.Keys - {m});
    ReachInHeap(g, m, tm);
    assert h[m] == g[m] && Same(g, h', Reach(g, m, tm) - {m});
    hide TreeShaped, Lone, Reach, PartOf, Same;
    ChildrenKept(g, h', m, tm);
    Outside(h, h', value, vt, vs, m);
    PartRepr(h', value, vt, vs);
    var r := Attach(tm, seg, vt);
    forall i | 0 <= i < |r.children|
      ensures Repr(h', h'[m].content[i], r.children[i])
    {
      if i >= |tm.children| && r.children[i] != vt {
        assert Repr(h', key, Scalar(Name(seg)));
      }
    }
  }

  lemma {:induction false} PartRepr(h: Heap<Node>, n: Node, t: Tree, nodes: set<Node>)
    requires PartOf(h, n, t, nodes)
    ensures Repr(h, n, t)
  {
  }

  lemma {:induction false} HeldBelow<T>(g: Heap<T>, n: T, t: Tree, i: nat) returns (p: T, k: nat)
    requires Repr(g, n, t) && i < |t.children| && n in Reach(g, g[n].content[i], t.children[i])
    ensures p in Reach(g, n, t) && p in g && k < |g[p].content| && g[p].content[k] == n
  {
    ReachInHeap(g, n, t);
    ReachChild(g, n, t, i);
    if n == g[n].content[i] {
      p, k := n, i;
    } else {
      p, k := HeldWithin(g, g[n].content[i], t.children[i], n);
    }
  }

  lemma {:induction false} NotBelowItself<T>(g: Heap<T>, n: T, t: Tree, i: nat)
    requires Repr(g, n, t) && Lone(g, n, t, []) && i < |t.children|
    ensures n !in Reach(g, g[n].content[i], t.children[i])
  {
    if n in Reach(g, g[n].content[i], t.children[i]) {
      var p, k := HeldBelow(g, n, t, i);
    }
  }

  /** The value with its key, as parts of the new document. */
  ghost function AddedRoots(kind: Kind, key: Node, value: Node): seq<Node> {
    Added(kind, key, value)
  }

  ghost function AddedTrees(kind: Kind, seg: Seg, vt: Tree): seq<Tree> {
    if kind == MappingNode then [Scalar(Name(seg)), vt] else [vt]
  }

  ghost function AddedAt(kind: Kind, m: Node, k: nat): seq<Seat<Node>> {
    if kind == MappingNode then [Seat(m, Some(k)), Seat(m, Some(k + 1))] else [Seat(m, Some(k))]
  }

  /** A document, the place that is extended, and what is attached to it. */
  ghost predicate Attachment(g: Heap<Node>, h: Heap<Node>, obj: Node, t: Tree, moves: seq<Move>, m: Node, tm: Tree,
                             key: Node, seg: Seg, value: Node, vt: Tree, vs: set<Node>, rank: map<Node, nat>,
                             shared: set<Tree>) {
    && LaidDoc(g, obj, t, rank, shared) && Clear(t, moves, shared) && AtPlace(g, obj, t, moves, m, tm)
    && (tm.kind == MappingNode || tm.kind == SequenceNode) && Same(g, h, g.Keys) && vs !! g.Keys
    && PartOf(h, value, vt, vs) && g.Keys == Reach(g, obj, t)
    && (tm.kind == MappingNode ==> key in h && key !in g.Keys + vs && h[key] == Rec(ScalarNode, Name(seg), []))
  }

  lemma {:induction false} AttachmentParts(g: Heap<Node>, h: Heap<Node>, obj: Node, t: Tree, moves: seq<Move>, m: Node,
                                           tm: Tree, key: Node, seg: Seg, value: Node, vt: Tree, vs: set<Node>,
                                           rank: map<Node, nat>, shared: set<Tree>)
    requires Attachment(g, h, obj, t, moves, m, tm, key, seg, value, vt, vs, rank, shared)
    ensures Repr(g, obj, t) && Repr(g, m, tm) && Reach(g, m, tm) <= g.Keys && m in g && m in h && m !in vs
    ensures Lone(g, obj, t, moves) && Lone(g, m, tm, []) && m in Reach(g, obj, t) && m in rank && h[m] == g[m]
  {
    var s := Spot(m, tm);
    assert s in Spots(g, obj, t, moves);
    SpotInReach(g, obj, t, moves, s);
    ReachInHeap(g, obj, t);
    ReachInHeap(g, m, tm);
    var nodes := Reach(g, obj, t);
    ClearLone(g, nodes, rank, shared, obj, t, moves);
    LaidWithin(g, nodes, rank, shared, m, tm);
    forall q | q in Reach(g, m, tm)
      ensures q in g && m !in g[q].content
    {
      ReachRanked(g, nodes, rank, m, tm, q);
    }
  }

  /** The entries that were there stay, and what is added stands where the seats say. */
  lemma {:induction false} AttachRow(g: Heap<Node>, h: Heap<Node>, olds: set<Node>, m: Node, kind: Kind, key: Node,
                                     value: Node, rank: map<Node, nat>, shared: set<Tree>, p: Node, i: nat)
    requires p in g && m in g && m in h && h[m] == g[m] && p in h && h[p] == g[p]
    requires forall c :: c in g[p].content ==> c in olds
    requires i < |Extended(h, m, Added(kind, key, value))[p].content|
    ensures RowMade(g, Extended(h, m, Added(kind, key, value)), rank, shared, olds, AddedAt(kind, m, |g[m].content|),
                AddedRoots(kind, key, value), p, i)
  {
    var h', at, roots := Extended(h, m, Added(kind, key, value)), AddedAt(kind, m, |g[m].content|),
      AddedRoots(kind, key, value);
    if i < |g[p].content| {
      assert g[p].content[i] in g[p].content && h'[p].content[i] == g[p].content[i];
    } else {
      var j: nat := i - |g[m].content|;
      assert p == m && h'[p].content[i] == roots[j] && at[j] == Seat(p, Some(i));
      assert IsAt(h', rank, shared, at[j], p, i);
    }
  }

  lemma {:induction false} AttachOld(g: Heap<Node>, h: Heap<Node>, obj: Node, t: Tree, moves: seq<Move>, m: Node,
                                     tm: Tree, key: Node, seg: Seg, value: Node, vt: Tree, vs: set<Node>,
                                     rank: map<Node, nat>, shared: set<Tree>)
    requires Attachment(g, h, obj, t, moves, m, tm, key, seg, value, vt, vs, rank, shared)
    requires Repr(g, obj, t) && m in g && m in h && h[m] == g[m]
    ensures OldMade(g, Extended(h, m, Added(tm.kind, key, value)), rank, shared, Reach(g, obj, t),
                AddedAt(tm.kind, m, |g[m].content|), AddedRoots(tm.kind, key, value))
  {
    var h', olds := Extended(h, m, Added(tm.kind, key, value)), Reach(g, obj, t);
    var at, roots := AddedAt(tm.kind, m, |g[m].content|), AddedRoots(tm.kind, key, value);
    ContentWithin(g, obj, t);
    assert Same(g, h, olds);
    hide Repr, Reach, Laid, Clear, PartOf, Spots, RowMade, AddedAt, AddedRoots, Attachment;
    forall p | p in olds
      ensures p in g && p in h' && h'[p].kind == g[p].kind
      ensures forall i: nat :: i < |h'[p].content| ==> RowMade(g, h', rank, shared, olds, at, roots, p, i)
    {
      forall i: nat | i < |h'[p].content|
        ensures RowMade(g, h', rank, shared, olds, at, roots, p, i)
      {
        AttachRow(g, h, olds, m, tm.kind, key, value, rank, shared, p, i);
      }
    }
  }

  lemma {:induction false} AttachNew(g: Heap<Node>, h: Heap<Node>, obj: Node, t: Tree, moves: seq<Move>, m: Node,
                                     tm: Tree, key: Node, seg: Seg, value: Node, vt: Tree, vs: set<Node>,
                                     rank: map<Node, nat>, shared: set<Tree>)
    requires Attachment(g, h, obj, t, moves, m, tm, key, seg, value, vt, vs, rank, shared)
    requires Repr(g, obj, t) && m in g && m in h && m !in vs
    requires PartOf(Extended(h, m, Added(tm.kind, key, value)), value, vt, vs)
    ensures PartsMade(Extended(h, m, Added(tm.kind, key, value)), Reach(g, obj, t), AddedRoots(tm.kind, key, value),
                AddedTrees(tm.kind, seg, vt))
  {
    var h', olds := Extended(h, m, Added(tm.kind, key, value)), Reach(g, obj, t);
    ReachInHeap(g, obj, t);
    hide Laid, Clear, Spots, Repr, Reach, TreeShaped, PartsMade, AtPlace, Extended;
    if tm.kind == MappingNode {
      assert h'[key] == Rec(ScalarNode, Name(seg), []) by { ExtendedElsewhere(h, m, Added(tm.kind, key, value), key); }
      TwoPartsMade(h', olds, key, Name(seg), value, vt, vs);
    } else {
      OnePartMade(h', olds, value, vt, vs);
    }
  }

  lemma {:induction false} ExtendedElsewhere(h: Heap<Node>, m: Node, more: seq<Node>, x: Node)
    requires m in h && x in h && x != m
    ensures x in Extended(h, m, more) && Extended(h, m, more)[x] == h[x]
  {
  }

  lemma {:induction false} OnePartMade(h: Heap<Node>, olds: set<Node>, value: Node, vt: Tree, vs: set<Node>)
    requires PartOf(h, value, vt, vs) && olds !! vs
    ensures PartsMade(h, olds, [value], [vt])
  {
    hide TreeShaped, Repr, Reach;
    forall j: nat, x | x in olds
      ensures !InPart(h, [value], [vt], j, x)
    {
    }
  }

  lemma {:induction false} TwoPartsMade(h: Heap<Node>, olds: set<Node>, key: Node, name: string, value: Node, vt: Tree,
                                        vs: set<Node>)
    requires PartOf(h, value, vt, vs) && olds !! vs && key !in olds + vs
    requires key in h && h[key] == Rec(ScalarNode, name, [])
    ensures PartsMade(h, olds, [key, value], [Scalar(name), vt])
  {
    LeafPart(h, key, name);
    hide TreeShaped, Repr, Reach;
    forall j: nat, x | x in olds
      ensures !InPart(h, [key, value], [Scalar(name), vt], j, x)
    {
    }
  }

  /** Everything met in the new document is old, or part of what is attached. */
  lemma {:induction false} AttachNow(g: Heap<Node>, h: Heap<Node>, obj: Node, t: Tree, moves: seq<Move>, m: Node,
                                     tm: Tree, key: Node, seg: Seg, value: Node, vt: Tree, vs: set<Node>,
                                     rank: map<Node, nat>, shared: set<Tree>, u: Tree)
    requires Attachment(g, h, obj, t, moves, m, tm, key, seg, value, vt, vs, rank, shared)
    requires Repr(g, obj, t) && m in g && m in h && h[m] == g[m] && m !in vs
    requires PartOf(Extended(h, m, Added(tm.kind, key, value)), value, vt, vs)
    requires Repr(Extended(h, m, Added(tm.kind, key, value)), obj, u)
    ensures var h' := Extended(h, m, Added(tm.kind, key, value));
      forall x :: x in Reach(h', obj, u) ==>
        && x in h'
        && (x in Reach(g, obj, t)
            || exists j: nat :: InPart(h', AddedRoots(tm.kind, key, value), AddedTrees(tm.kind, seg, vt), j, x))
  {
    var h', olds := Extended(h, m, Added(tm.kind, key, value)), Reach(g, obj, t);
    var part := Reach(h', value, vt);
    var all := olds + part + if tm.kind == MappingNode then {key} else {};
    ReachInHeap(g, obj, t);
    ReachInHeap(h', obj, u);
    ReachInHeap(h', value, vt);
    forall p, c | p in all && p in h' && c in h'[p].content
      ensures c in all
    {
      var i: nat :| i < |h'[p].content| && h'[p].content[i] == c;
      AttachedTo(g, h, obj, t, moves, m, tm, key, seg, value, vt, vs, rank, shared, p, i);
    }
    hide Repr, Reach, Laid, Clear, PartOf, Spots;
    ReachClosed(h', all, obj, u);
    forall x | x in Reach(h', obj, u)
      ensures x in olds
          || exists j: nat :: InPart(h', AddedRoots(tm.kind, key, value), AddedTrees(tm.kind, seg, vt), j, x)
    {
      if x in part {
        ValuePart(h', tm.kind, key, seg, value, vt, x);
      } else if x !in olds {
        KeyPart(h', key, seg, value, vt);
      }
    }
  }

  lemma {:induction false} ValuePart(h: Heap<Node>, kind: Kind, key: Node, seg: Seg, value: Node, vt: Tree, x: Node)
    requires Repr(h, value, vt) && x in Reach(h, value, vt)
    ensures exists j: nat :: InPart(h, AddedRoots(kind, key, value), AddedTrees(kind, seg, vt), j, x)
  {
    var j: nat := if kind == MappingNode then 1 else 0;
    assert InPart(h, AddedRoots(kind, key, value), AddedTrees(kind, seg, vt), j, x);
  }

  lemma {:induction false} KeyPart(h: Heap<Node>, key: Node, seg: Seg, value: Node, vt: Tree)
    requires key in h && h[key] == Rec(ScalarNode, Name(seg), [])
    ensures exists j: nat :: InPart(h, AddedRoots(MappingNode, key, value), AddedTrees(MappingNode, seg, vt), j, key)
  {
    LeafPart(h, key, Name(seg));
    assert InPart(h, AddedRoots(MappingNode, key, value), AddedTrees(MappingNode, seg, vt), 0, key);
  }

  lemma {:induction false} AttachedTo(g: Heap<Node>, h: Heap<Node>, obj: Node, t: Tree, moves: seq<Move>, m: Node,
                                      tm: Tree, key: Node, seg: Seg, value: Node, vt: Tree, vs: set<Node>,
                                      rank: map<Node, nat>, shared: set<Tree>, p: Node, i: nat)
    requires Attachment(g, h, obj, t, moves, m, tm, key, seg, value, vt, vs, rank, shared)
    requires Repr(g, obj, t) && m in g && m in h && h[m] == g[m] && m !in vs
    requires PartOf(Extended(h, m, Added(tm.kind, key, value)), value, vt, vs)
    requires var h' := Extended(h, m, Added(tm.kind, key, value));
      && p in h' && i < |h'[p].content|
      && (p in Reach(g, obj, t) || p in Reach(h', value, vt) || (tm.kind == MappingNode && p == key))
    ensures var h' := Extended(h, m, Added(tm.kind, key, value));
      var c := h'[p].content[i];
      c in Reach(g, obj, t) || c in Reach(h', value, vt) || (tm.kind == MappingNode && c == key)
  {
    var h' := Extended(h, m, Added(tm.kind, key, value));
    ReachInHeap(g, obj, t);
    ReachInHeap(h', value, vt);
    hide Laid, Clear, Spots, TreeShaped;
    if p in Reach(h', value, vt) {
      PointsWithin(h', value, vt, p, i);
    } else if p in Reach(g, obj, t) && i < |g[p].content| {
      PointsWithin(g, obj, t, p, i);
    }
  }

  lemma {:induction false} AttachShared(g: Heap<Node>, h: Heap<Node>, obj: Node, t: Tree, moves: seq<Move>, m: Node,
                                        tm: Tree, key: Node, seg: Seg, value: Node, vt: Tree, vs: set<Node>,
                                        rank: map<Node, nat>, shared: set<Tree>)
    requires Attachment(g, h, obj, t, moves, m, tm, key, seg, value, vt, vs, rank, shared)
    requires Repr(g, obj, t) && m in h
    ensures SharedKept(g, Extended(h, m, Added(tm.kind, key, value)), Reach(g, obj, t), shared)
  {
    var h' := Extended(h, m, Added(tm.kind, key, value));
    var s := Spot(m, tm);
    assert s in Spots(g, obj, t, moves);
    forall x | x in Reach(g, obj, t) && Stands(g, x) && TreeOf(g, x) in shared
      ensures Stands(h', x) && TreeOf(h', x) == TreeOf(g, x)
    {
      NotAbove(g, obj, t, moves, rank, shared, s, x, TreeOf(g, x));
      LaidWithin(g, Reach(g, obj, t), rank, shared, x, TreeOf(g, x));
      ReprFrame(g, h', x, TreeOf(g, x));
      StandsFor(h', x, TreeOf(g, x));
    }
  }

  lemma {:induction false} AttachMade(g: Heap<Node>, h: Heap<Node>, obj: Node, t: Tree, moves: seq<Move>, m: Node,
                                      tm: Tree, key: Node, seg: Seg, value: Node, vt: Tree, vs: set<Node>,
                                      rank: map<Node, nat>, shared: set<Tree>, u: Tree)
    requires Attachment(g, h, obj, t, moves, m, tm, key, seg, value, vt, vs, rank, shared)
    requires Repr(g, obj, t) && m in g && m in h && h[m] == g[m] && m !in vs && m in rank
    requires PartOf(Extended(h, m, Added(tm.kind, key, value)), value, vt, vs)
    requires Repr(Extended(h, m, Added(tm.kind, key, value)), obj, u)
    ensures var h', at := Extended(h, m, Added(tm.kind, key, value)), AddedAt(tm.kind, m, |g[m].content|);
      && Made(g, h', Reach(g, obj, t), rank, shared, Reach(h', obj, u), Reach(g, obj, t), at,
              AddedRoots(tm.kind, key, value), AddedTrees(tm.kind, seg, vt))
      && HoldersIn(rank, at) && SharedKept(g, h', Reach(g, obj, t), shared)
  {
    hide Repr, Reach, Laid, Clear, PartOf, Spots, Attachment, OldMade, PartsMade, InPart, SharedKept, Extended;
    AttachOld(g, h, obj, t, moves, m, tm, key, seg, value, vt, vs, rank, shared);
    AttachNew(g, h, obj, t, moves, m, tm, key, seg, value, vt, vs, rank, shared);
    AttachNow(g, h, obj, t, moves, m, tm, key, seg, value, vt, vs, rank, shared, u);
    AttachShared(g, h, obj, t, moves, m, tm, key, seg, value, vt, vs, rank, shared);
  }

  lemma {:induction false} AttachmentLaid(g: Heap<Node>, h: Heap<Node>, obj: Node, t: Tree, moves: seq<Move>, m: Node,
                                          tm: Tree, key: Node, seg: Seg, value: Node, vt: Tree, vs: set<Node>,
                                          rank: map<Node, nat>, shared: set<Tree>)
    requires Attachment(g, h, obj, t, moves, m, tm, key, seg, value, vt, vs, rank, shared) && m in h
    ensures Repr(g, obj, t) && Laid(g, Reach(g, obj, t), rank, shared)
    ensures var h' := Extended(h, m, Added(tm.kind, key, value));
      Repr(h', obj, Rewrite(t, moves, Attaching(seg, vt))) && PartOf(h', value, vt, vs)
  {
    AttachmentParts(g, h, obj, t, moves, m, tm, key, seg, value, vt, vs, rank, shared);
    AttachedRepr(g, h, m, tm, key, seg, value, vt, vs);
    assert Attaching(seg, vt)(tm) == Attach(tm, seg, vt);
    var h' := Extended(h, m, Added(tm.kind, key, value));
    assert Same(g, h', Reach(g, obj, t) - {m});
    hide Repr, Reach, Lone, Rewrite, Laid, Clear, PartOf, Attach, Extended;
    ChangeAt(g, h', obj, t, moves, m, tm, Attaching(seg, vt));
  }

  /** The heap in which the only place of a path is extended stands for the document with the value attached there. */
  lemma {:induction false} AttachDone(g: Heap<Node>, h: Heap<Node>, obj: Node, t: Tree, moves: seq<Move>, m: Node,
                                      tm: Tree, key: Node, seg: Seg, value: Node, vt: Tree, vs: set<Node>,
                                      rank: map<Node, nat>, shared: set<Tree>) returns (rank': map<Node, nat>)
    requires Attachment(g, h, obj, t, moves, m, tm, key, seg, value, vt, vs, rank, shared) && m in h
    ensures LaidDoc(Extended(h, m, Added(tm.kind, key, value)), obj, Rewrite(t, moves, Attaching(seg, vt)), rank',
                shared)
  {
    hide Repr, Reach, Lone, Rewrite, Laid, Clear, PartOf, Attach, Spots, Extended, Made, SharedKept, HoldersIn,
         Attachment;
    var h', u := Extended(h, m, Added(tm.kind, key, value)), Rewrite(t, moves, Attaching(seg, vt));
    AttachmentParts(g, h, obj, t, moves, m, tm, key, seg, value, vt, vs, rank, shared);
    AttachmentLaid(g, h, obj, t, moves, m, tm, key, seg, value, vt, vs, rank, shared);
    AttachMade(g, h, obj, t, moves, m, tm, key, seg, value, vt, vs, rank, shared, u);
    ContentWithin(h', obj, u);
    rank' := MadeLaid(g, h', Reach(g, obj, t), rank, shared, shared, Reach(h', obj, u), Reach(g, obj, t),
      AddedAt(tm.kind, m, |g[m].content|), AddedRoots(tm.kind, key, value), AddedTrees(tm.kind, seg, vt));
  }

  // ----- the source's recursion

  lemma {:induction false} SnapKey(all: set<Node>, m: Node, content: seq<Node>)
    requires m in all
    ensures Extended(Snap(all), m, content) == WithContent(Snap(all), m, m.content + content)
  {
  }

  lemma {:induction false} AttachReady(ns: set<Node>, obj: Node, t: Tree, moves: seq<Move>, m: Node, tm: Tree,
                                       key: Node, seg: Seg, value: Node, vt: Tree, vs: set<Node>, more: set<Node>,
                                       rank: map<Node, nat>, shared: set<Tree>) returns (rank': map<Node, nat>)
    requires Doc(ns, obj, t) && LaidDoc(Snap(ns), obj, t, rank, shared) && Clear(t, moves, shared)
    requires AtPlace(Snap(ns), obj, t, moves, m, tm) && m in ns
        && (tm.kind == MappingNode || tm.kind == SequenceNode)
    requires Doc(vs, value, vt) && TreeShaped(Snap(vs), value, vt) && ns !! vs && key !in ns + vs
    requires key.kind == ScalarNode && key.value == Name(seg) && key.content == []
    requires more == if tm.kind == MappingNode then vs + {key} else vs
    ensures LaidDoc(WithContent(Snap(ns + more), m, m.content + Added(tm.kind, key, value)), obj,
                Rewrite(t, moves, Attaching(seg, vt)), rank', shared)
  {
    hide Repr, Reach, TreeShaped, Doc, PartOf, Rewrite, LaidDoc, Clear, AtPlace, Attachment, Spots;
    AttachmentReady(ns, obj, t, moves, m, tm, key, seg, value, vt, vs, more, rank, shared);
    rank' := AttachDone(Snap(ns), Snap(ns + more), obj, t, moves, m, tm, key, seg, value, vt, vs, rank, shared);
    SnapKey(ns + more, m, Added(tm.kind, key, value));
  }

  lemma {:induction false} AttachmentReady(ns: set<Node>, obj: Node, t: Tree, moves: seq<Move>, m: Node, tm: Tree,
                                           key: Node, seg: Seg, value: Node, vt: Tree, vs: set<Node>, more: set<Node>,
                                           rank: map<Node, nat>, shared: set<Tree>)
    requires Doc(ns, obj, t) && LaidDoc(Snap(ns), obj, t, rank, shared) && Clear(t, moves, shared)
    requires AtPlace(Snap(ns), obj, t, moves, m, tm) && m in ns
        && (tm.kind == MappingNode || tm.kind == SequenceNode)
    requires Doc(vs, value, vt) && TreeShaped(Snap(vs), value, vt) && ns !! vs && key !in ns + vs
    requires key.kind == ScalarNode && key.value == Name(seg) && key.content == []
    requires more == if tm.kind == MappingNode then vs + {key} else vs
    ensures Attachment(Snap(ns), Snap(ns + more), obj, t, moves, m, tm, key, seg, value, vt, vs, rank, shared)
  {
    hide LaidDoc, Clear, AtPlace, Rewrite, Spots, Repr, Reach, TreeShaped, Doc, PartOf, Snap;
    DocKeys(ns, obj, t);
    assert vs + {} == vs;
    NowPart(ns + more, vs, value, vt, vs, {});
    MoreNodes(ns, more);
    if tm.kind == MappingNode {
      KeyRow(ns + more, key);
    }
  }

  lemma {:induction false} DocKeys(ns: set<Node>, obj: Node, t: Tree)
    requires Doc(ns, obj, t)
    ensures Repr(Snap(ns), obj, t) && Snap(ns).Keys == ns == Reach(Snap(ns), obj, t)
  {
  }

  lemma {:induction false} MoreNodes(ns: set<Node>, more: set<Node>)
    ensures Same(Snap(ns), Snap(ns + more), Snap(ns).Keys)
  {
  }

  lemma {:induction false} KeyRow(all: set<Node>, key: Node)
    requires key in all && key.kind == ScalarNode && key.content == []
    ensures key in Snap(all) && Snap(all)[key] == Rec(ScalarNode, key.value, [])
  {
  }

  /** The only place of a path gets the value as its last child. */
  method AttachNode(ghost ns: set<Node>, ghost obj: Node, ghost t: Tree, ghost moves: seq<Move>, m: Node,
                    ghost tm: Tree, ghost seg: Seg, name: string, value: Node, ghost vs: set<Node>, ghost vt: Tree,
                    ghost rank: map<Node, nat>, ghost shared: set<Tree>)
    returns (ghost ns': set<Node>, ghost rank': map<Node, nat>)
    requires Doc(ns, obj, t) && LaidDoc(Snap(ns), obj, t, rank, shared) && Clear(t, moves, shared)
    requires AtPlace(Snap(ns), obj, t, moves, m, tm) && m in ns
    requires (tm.kind == MappingNode || tm.kind == SequenceNode) && m.kind == tm.kind && name == Name(seg)
    requires Doc(vs, value, vt) && TreeShaped(Snap(vs), value, vt) && ns !! vs
    modifies m
    ensures fresh(ns' - ns - vs)
    ensures var r := Rewrite(t, moves, Attaching(seg, vt));
      Doc(ns', obj, r) && LaidDoc(Snap(ns'), obj, r, rank', shared)
  {
    hide Repr, Reach, TreeShaped, Doc, Rewrite, Snap, WithContent, LaidDoc, Clear, AtPlace;
    var key := new Node(ScalarNode, name, []);
    ghost var more := if tm.kind == MappingNode then vs + {key} else vs;
    rank' := AttachReady(ns, obj, t, moves, m, tm, key, seg, value, vt, vs, more, rank, shared);
    var content := if m.kind == MappingNode then m.content + [key, value] else m.content + [value];
    assert content == m.content + Added(tm.kind, key, value);
    SetContent(ns + more, m, content);
    ns' := LaidFootprint(ns + more, obj, Rewrite(t, moves, Attaching(seg, vt)), rank', shared);
  }

  /** What exists of the path keeps clear of the values held in several places. */
  ghost predicate ClearTo(t: Tree, path: seq<Seg>, shared: set<Tree>) {
    forall k :: 0 <= k < |path| ==> Clear(t, Below(path[..k]), shared)
  }

  /** The deepest existing node of the path takes children. */
  ghost predicate Attachable(t: Tree, path: seq<Seg>)
    requires IsObject(t) && path != []
  {
    Deep(t, path).kind == MappingNode || Deep(t, path).kind == SequenceNode
  }

  /** The parent, if there is one, is the only place its path leads to. */
  lemma {:induction false} ParentPlace(ns: set<Node>, obj: Node, t: Tree, path: seq<Seg>)
    requires Doc(ns, obj, t) && IsObject(t) && path != [] && Every !in path
    ensures var moves := Below(path[..|path| - 1]);
      var spots := Spots(Snap(ns), obj, t, moves);
      && moves != [] && |spots| <= 1 && (spots == [] <==> Lookup(t, moves) == [])
      && (spots != [] ==>
            AtPlace(Snap(ns), obj, t, moves, spots[0].node, spots[0].tree) && spots[0].tree == Deep(t, path)
            && spots[0].node in ns && spots[0].node.kind == spots[0].tree.kind)
  {
    var init := path[..|path| - 1];
    var moves := Below(init);
    SpotsLookup(Snap(ns), obj, t, moves);
    assert NoWildcard(moves);
    OnePlace(t, moves);
    var spots := Spots(Snap(ns), obj, t, moves);
    if spots != [] {
      assert spots[0] in spots && TreesOf(spots)[0] == spots[0].tree;
      SpotInReach(Snap(ns), obj, t, moves, spots[0]);
      ReachInHeap(Snap(ns), spots[0].node, spots[0].tree);
      assert spots == [Spot(spots[0].node, spots[0].tree)];
    }
  }

  /** The root of an object is where the path of no steps leads. */
  lemma {:induction false} RootPlace(ns: set<Node>, obj: Node, t: Tree)
    requires Doc(ns, obj, t) && IsObject(t)
    ensures |obj.content| == 1 && Spots(Snap(ns), obj, t, Below([])) == [Spot(obj.content[0], t.children[0])]
  {
    var g, moves := Snap(ns), Below([]);
    assert moves == [Unwrap] && moves[1..] == [];
    assert SpotsFrom(g, obj, t, moves, 1) == [];
    assert SpotsFrom(g, obj, t, moves, 0)
        == Spots(g, obj.content[0], t.children[0], []) + SpotsFrom(g, obj, t, moves, 1);
  }

  lemma {:induction false} CreateUp(t: Tree, path: seq<Seg>, v: Tree)
    requires IsObject(t) && path != []
    ensures var init, last := path[..|path| - 1], path[|path| - 1];
      if Lookup(t, Below(init)) != [] then Create(t, path, v) == Rewrite(t, Below(init), Attaching(last, v))
      else init != [] && Create(t, path, v) == Create(t, init, Wrap(last, v)) && Deep(t, init) == Deep(t, path)
  {
    RootFound(t);
    var init := path[..|path| - 1];
    if Lookup(t, Below(init)) == [] {
      assert init != [];
      DepthIsDeepest(t, init);
      assert path[..Depth(t, path)] == init[..Depth(t, init)];
    }
  }

  lemma {:induction false} WrapIs(h: Heap<Node>, w: Node, key: Node, value: Node, vs: set<Node>, seg: Seg, vt: Tree)
    requires PartOf(h, value, vt, vs) && w in h && w !in vs && key !in vs && key != w
    requires if Numeric(seg) then h[w] == Rec(SequenceNode, "", [value])
             else h[w] == Rec(MappingNode, "", [key, value]) && key in h && h[key] == Rec(ScalarNode, Name(seg), [])
    ensures PartOf(h, w, Wrap(seg, vt), vs + {key, w})
  {
    if Numeric(seg) {
      Assembled(h, w, Wrap(seg, vt), [vs], vs + {key, w});
    } else {
      LeafPart(h, key, Name(seg));
      Assembled(h, w, Wrap(seg, vt), [{key}, vs], vs + {key, w});
    }
  }

  /** A new parent for the value: a sequence for a number, a mapping for any other name. */
  method WrapNode(name: string, sequence: bool, value: Node, ghost seg: Seg, ghost vs: set<Node>, ghost vt: Tree)
    returns (w: Node, ghost ws: set<Node>)
    requires Doc(vs, value, vt) && TreeShaped(Snap(vs), value, vt) && name == Name(seg) && (sequence <==> Numeric(seg))
    ensures fresh(ws - vs) && Doc(ws, w, Wrap(seg, vt)) && TreeShaped(Snap(ws), w, Wrap(seg, vt))
  {
    hide Repr, Reach, TreeShaped, Numeric, Wrap, Doc, PartOf, Snap;
    var key := new Node(ScalarNode, name, []);
    if sequence {
      w := new Node(SequenceNode, "", [value]);
    } else {
      w := new Node(MappingNode, "", [key, value]);
    }
    ghost var all := vs + {key, w};
    WrappedNode(all, w, key, value, vs, seg, vt);
    ws := Footprint(all, w, Wrap(seg, vt));
  }

  lemma {:induction false} WrappedNode(all: set<Node>, w: Node, key: Node, value: Node, vs: set<Node>, seg: Seg,
                                       vt: Tree)
    requires Doc(vs, value, vt) && TreeShaped(Snap(vs), value, vt) && w !in vs && key !in vs && key != w
        && all == vs + {key, w}
    requires key.kind == ScalarNode && key.value == Name(seg) && key.content == []
    requires w.value == "" && w.kind == (if Numeric(seg) then SequenceNode else MappingNode)
    requires w.content == if Numeric(seg) then [value] else [key, value]
    ensures Repr(Snap(all), w, Wrap(seg, vt)) && TreeShaped(Snap(all), w, Wrap(seg, vt))
  {
    NowPart(all, vs, value, vt, vs, {});
    assert vs + {} == vs;
    WrapIs(Snap(all), w, key, value, vs, seg, vt);
  }

  /** The node is where the parent path leads, or the content of the document if that is the parent. */
  ghost predicate ParentAt(ns: set<Node>, obj: Node, t: Tree, path: seq<Seg>, m: Node)
    requires IsObject(t) && path != []
    reads ns
  {
    && AtPlace(Snap(ns), obj, t, Below(path[..|path| - 1]), m, Deep(t, path))
    && m in ns && m.kind == Deep(t, path).kind
  }

  /** The parents of the path: the document for an empty parent path. */
  method GetParents(ghost ns: set<Node>, obj: Node, ghost t: Tree, root: string, steps: seq<Step>)
    returns (matches: seq<Node>)
    requires Doc(ns, obj, t)
    ensures steps == [] ==> matches == [obj]
    ensures steps != [] ==> NodesOf(matches, Spots(Snap(ns), obj, t, Below(Meaning(root, steps[..|steps| - 1]))))
  {
    if steps == [] {
      return [obj];
    }
    matches := FindMatches(ns, obj, t, Below(Meaning(root, steps[..|steps| - 1])));
  }

  /** The place that takes the value. */
  lemma {:induction false} ParentIs(ns: set<Node>, obj: Node, t: Tree, root: string, steps: seq<Step>,
                                    matches: seq<Node>)
    requires GoodPath(root, steps) && Meaning(root, steps) != []
    requires Doc(ns, obj, t) && IsObject(t) && Attachable(t, Meaning(root, steps))
    requires steps == [] ==> matches == [obj]
    requires steps != [] ==> NodesOf(matches, Spots(Snap(ns), obj, t, Below(Meaning(root, steps[..|steps| - 1]))))
    ensures var path := Meaning(root, steps);
      matches == [] <==> Lookup(t, Below(path[..|path| - 1])) == []
    ensures matches != [] ==> matches[0].kind == DocumentNode ==> matches[0].content != []
    ensures matches != [] ==>
              ParentAt(ns, obj, t, Meaning(root, steps), if matches[0].kind == DocumentNode then matches[0].content[0]
                  else matches[0])
  {
    hide Repr, Reach, TreeShaped, AtPlace, Lookup, Spots, Meaning, Below, Deep, Snap, GoodPath, IsObject, Doc;
    MeaningInit(root, steps);
    GoodRoot(root, steps);
    ParentPlace(ns, obj, t, Meaning(root, steps));
    if steps == [] {
      RootParent(ns, obj, t, Meaning(root, steps));
    }
  }

  lemma {:induction false} RootParent(ns: set<Node>, obj: Node, t: Tree, path: seq<Seg>)
    requires Doc(ns, obj, t) && IsObject(t) && |path| == 1 && Every !in path
    ensures obj.kind == DocumentNode && |obj.content| == 1 && ParentAt(ns, obj, t, path, obj.content[0])
    ensures Lookup(t, Below(path[..|path| - 1])) != []
  {
    assert obj.kind == t.kind;
    hide Repr, Reach, TreeShaped, AtPlace, Lookup, Spots, Below, Deep, Snap;
    ParentPlace(ns, obj, t, path);
    assert path[..|path| - 1] == [];
    RootPlace(ns, obj, t);
    RootFound(t);
  }

  /** The last step and what is left of the work once it is dealt with. */
  lemma {:induction false} LastStep(t: Tree, root: string, steps: seq<Step>, v: Tree)
    requires GoodPath(root, steps) && Meaning(root, steps) != [] && IsObject(t) && Attachable(t, Meaning(root, steps))
    ensures var path, meaning := Print(root, steps), Meaning(root, steps);
      var init, last := meaning[..|meaning| - 1], meaning[|meaning| - 1];
      && GetChildName(path) == Name(last) && (IsSequenceChild(path) <==> Numeric(last))
      && if Lookup(t, Below(init)) != [] then Create(t, meaning, v) == Rewrite(t, Below(init), Attaching(last, v))
         else
           && steps != [] && GoodPath(root, steps[..|steps| - 1]) && Meaning(root, steps[..|steps| - 1]) == init != []
           && Attachable(t, init) && Create(t, meaning, v) == Create(t, init, Wrap(last, v))
  {
    hide Lookup, Create, Meaning, Print, GetChildName, IsSequenceChild, Deep, Rewrite, Below, IsObject, GoodPath;
    MeaningParts(root, steps);
    CreateUp(t, Meaning(root, steps), v);
    GoodInit(root, steps);
  }

  lemma {:induction false} GoodInit(root: string, steps: seq<Step>)
    requires GoodPath(root, steps)
    ensures steps != [] && Meaning(root, steps[..|steps| - 1]) != [] ==> GoodPath(root, steps[..|steps| - 1])
    ensures steps == [] ==> |Meaning(root, steps)| == 1
  {
  }

  lemma {:induction false} ClearParent(t: Tree, root: string, steps: seq<Step>, shared: set<Tree>)
    requires GoodPath(root, steps) && steps != [] && ClearTo(t, Meaning(root, steps), shared)
    ensures ClearTo(t, Meaning(root, steps[..|steps| - 1]), shared)
  {
    MeaningInit(root, steps);
    var path := Meaning(root, steps);
    var init := path[..|path| - 1];
    hide Meaning, GoodPath, Clear, Below;
    forall k | 0 <= k < |init|
      ensures Clear(t, Below(init[..k]), shared)
    {
      assert init[..k] == path[..k];
    }
  }

  /**
   The value becomes the last child of the path's parent; a missing parent is made first, around the value.
   The source's check for the top of the path is dead: the root of an object is always found.
   */
  method CreatePath(ghost ns: set<Node>, obj: Node, ghost t: Tree, root: string, steps: seq<Step>, value: Node,
                    ghost vs: set<Node>, ghost vt: Tree, ghost rank: map<Node, nat>, ghost shared: set<Tree>)
    returns (ghost ns': set<Node>, ghost rank': map<Node, nat>)
    requires GoodPath(root, steps) && Meaning(root, steps) != []
    requires Doc(ns, obj, t) && IsObject(t) && Attachable(t, Meaning(root, steps))
    requires LaidDoc(Snap(ns), obj, t, rank, shared) && ClearTo(t, Meaning(root, steps), shared)
    requires Doc(vs, value, vt) && TreeShaped(Snap(vs), value, vt) && ns !! vs
    modifies ns
    ensures fresh(ns' - ns - vs)
    ensures var r := Create(t, Meaning(root, steps), vt); Doc(ns', obj, r) && LaidDoc(Snap(ns'), obj, r, rank', shared)
    decreases |steps|, 0
  {
    hide *;
    var path := Print(root, steps);
    ghost var meaning := Meaning(root, steps);
    ghost var seg := meaning[|meaning| - 1];
    var matches := GetParents(ns, obj, t, root, steps);
    ParentIs(ns, obj, t, root, steps, matches);
    LastStep(t, root, steps, vt);
    var name := GetChildName(path);
    if |matches| == 0 {
      ClearParent(t, root, steps, shared);
      ns', rank' := CreateParent(ns, obj, t, root, steps[..|steps| - 1], seg, name, IsSequenceChild(path), value, vs,
          vt,
        rank, shared);
    } else {
      var m := if matches[0].kind == DocumentNode then matches[0].content[0] else matches[0];
      ns', rank' := AttachAt(ns, obj, t, meaning, m, seg, name, value, vs, vt, rank, shared);
    }
  }

  /** The missing parent is made around the value and goes where the path to it leads. */
  method CreateParent(ghost ns: set<Node>, obj: Node, ghost t: Tree, root: string, steps: seq<Step>, ghost seg: Seg,
                      name: string, sequence: bool, value: Node, ghost vs: set<Node>, ghost vt: Tree,
                      ghost rank: map<Node, nat>, ghost shared: set<Tree>)
    returns (ghost ns': set<Node>, ghost rank': map<Node, nat>)
    requires GoodPath(root, steps) && Meaning(root, steps) != [] && name == Name(seg) && (sequence <==> Numeric(seg))
    requires Doc(ns, obj, t) && IsObject(t) && Attachable(t, Meaning(root, steps))
    requires LaidDoc(Snap(ns), obj, t, rank, shared) && ClearTo(t, Meaning(root, steps), shared)
    requires Doc(vs, value, vt) && TreeShaped(Snap(vs), value, vt) && ns !! vs
    modifies ns
    ensures fresh(ns' - ns - vs)
    ensures var r := Create(t, Meaning(root, steps), Wrap(seg, vt));
      Doc(ns', obj, r) && LaidDoc(Snap(ns'), obj, r, rank', shared)
    decreases |steps|, 1
  {
    hide *;
    var w; ghost var ws;
    w, ws := WrapNode(name, sequence, value, seg, vs, vt);
    ns', rank' := CreatePath(ns, obj, t, root, steps, w, ws, Wrap(seg, vt), rank, shared);
  }

  method AttachAt(ghost ns: set<Node>, ghost obj: Node, ghost t: Tree, ghost path: seq<Seg>, m: Node, ghost seg: Seg,
                  name: string, value: Node, ghost vs: set<Node>, ghost vt: Tree, ghost rank: map<Node, nat>,
                  ghost shared: set<Tree>)
    returns (ghost ns': set<Node>, ghost rank': map<Node, nat>)
    requires IsObject(t) && path != [] && Attachable(t, path) && ParentAt(ns, obj, t, path, m) && name == Name(seg)
    requires Doc(ns, obj, t) && LaidDoc(Snap(ns), obj, t, rank, shared) && ClearTo(t, path, shared)
    requires Doc(vs, value, vt) && TreeShaped(Snap(vs), value, vt) && ns !! vs
    modifies ns
    ensures fresh(ns' - ns - vs)
    ensures var r := Rewrite(t, Below(path[..|path| - 1]), Attaching(seg, vt));
      Doc(ns', obj, r) && LaidDoc(Snap(ns'), obj, r, rank', shared)
  {
    hide Repr, Reach, TreeShaped, AtPlace, Below, Deep, Doc, Snap, Rewrite, IsObject, LaidDoc, Clear;
    assert Clear(t, Below(path[..|path| - 1]), shared);
    ns', rank' := AttachNode(ns, obj, t, Below(path[..|path| - 1]), m, Deep(t, path), seg, name, value, vs, vt, rank,
      shared);
  }

  /** A path that leads nowhere is created for the content of the value, a document, and leads to it if creatable. */
  method AddMissing(ghost ns: set<Node>, obj: Node, ghost t: Tree, root: string, steps: seq<Step>, value: Node,
                    ghost vs: set<Node>, ghost vt: Tree, ghost rank: map<Node, nat>, ghost shared: set<Tree>)
    returns (ghost ns': set<Node>, ghost rank': map<Node, nat>)
    requires GoodPath(root, steps) && Meaning(root, steps) != [] && Every !in Meaning(root, steps)
    requires Doc(ns, obj, t) && IsObject(t) && Attachable(t, Meaning(root, steps))
    requires LaidDoc(Snap(ns), obj, t, rank, shared) && ClearTo(t, Meaning(root, steps), shared)
    requires Lookup(t, Below(Meaning(root, steps))) == []
    requires value.kind == DocumentNode && |value.content| == 1
    requires Doc(vs, value.content[0], vt) && TreeShaped(Snap(vs), value.content[0], vt) && ns !! vs
    modifies ns
    ensures fresh(ns' - ns - vs)
    ensures var r := Create(t, Meaning(root, steps), vt);
      && Doc(ns', obj, r) && LaidDoc(Snap(ns'), obj, r, rank', shared)
      && (Lookup(r, Below(Meaning(root, steps))) == [vt] <==> Creatable(t, Meaning(root, steps), vt))
  {
    PutGet(t, Meaning(root, steps), vt);
    hide *;
    ns', rank' := CreatePath(ns, obj, t, root, steps, value.content[0], vs, vt, rank, shared);
  }
}
