/** YAML nodes that are edited in place, and the operations that search and edit them. */
module Nodes {
  import opened Strings
  import opened OpPath
  import opened Trees
  import opened Graph
  import opened Holders
  import opened Replacing
  import opened Removing

  class Node {
    var kind: Kind
    var value: string
    var content: seq<Node>

    constructor (kind: Kind, value: string, content: seq<Node>)
      ensures this.kind == kind && this.value == value && this.content == content
    {
      this.kind := kind;
      this.value := value;
      this.content := content;
    }
  }

  /** The nodes as they are now. */
  ghost function Snap(ns: set<Node>): Heap<Node>
    reads ns
  {
    map n | n in ns :: Rec(n.kind, n.value, n.content)
  }

  /** The document below root stands for t, and ns are its nodes. */
  ghost predicate Doc(ns: set<Node>, root: Node, t: Tree)
    reads ns
  {
    Repr(Snap(ns), root, t) && ns == Reach(Snap(ns), root, t)
  }

  // ----- searching

  method ContainsChild(node: Node, child: Node) returns (r: bool)
    ensures r <==> child in node.content
  {
    for i := 0 to |node.content|
      invariant child !in node.content[..i]
    {
      if node.content[i] == child {
        return true;
      }
    }
    return false;
  }

  method Find(ghost ns: set<Node>, doc: Node, ghost t: Tree, child: Node) returns (r: Option<Node>)
    requires Repr(Snap(ns), doc, t)
    ensures r == Holder(Snap(ns), doc, t, child)
    decreases t
  {
    var here := ContainsChild(doc, child);
    if here {
      return Some(doc);
    }
    for i := 0 to |doc.content|
      invariant HolderFrom(Snap(ns), doc, t, child, i) == HolderFrom(Snap(ns), doc, t, child, 0)
    {
      var found := Find(ns, doc.content[i], t.children[i], child);
      if found.Some? {
        return found;
      }
    }
    return None;
  }

  method ChildIndex(children: seq<Node>, child: Node) returns (p: int)
    ensures -1 <= p < |children|
    ensures p >= 0 ==> children[p] == child && child !in children[..p]
    ensures p == -1 ==> child !in children
  {
    for i := 0 to |children|
      invariant child !in children[..i]
    {
      if children[i] == child {
        return i;
      }
    }
    return -1;
  }

  method ContentValues(node: Node) returns (r: seq<string>)
    ensures |r| == |node.content| && forall i :: 0 <= i < |r| ==> r[i] == node.content[i].value
  {
    r := [];
    for i := 0 to |node.content|
      invariant |r| == i && forall j :: 0 <= j < i ==> r[j] == node.content[j].value
    {
      r := r + [node.content[i].value];
    }
  }

  ghost predicate NodesOf(nodes: seq<Node>, spots: seq<Spot<Node>>) {
    |nodes| == |spots| && forall i :: 0 <= i < |nodes| ==> nodes[i] == spots[i].node
  }

  /** The nodes a compiled path leads to, in document order. */
  method FindMatches(ghost ns: set<Node>, doc: Node, ghost t: Tree, path: seq<Move>) returns (r: seq<Node>)
    requires Repr(Snap(ns), doc, t)
    ensures NodesOf(r, Spots(Snap(ns), doc, t, path))
    decreases |path|
  {
    if path == [] {
      return [doc];
    }
    r := [];
    var keys := ContentValues(doc);
    assert keys == Values(t.children);
    var i := |doc.content|;
    while i > 0
      invariant 0 <= i <= |doc.content|
      invariant NodesOf(r, SpotsFrom(Snap(ns), doc, t, path, i))
    {
      i := i - 1;
      if Selects(doc.kind, keys, path[0], i) {
        var below := FindMatches(ns, doc.content[i], t.children[i], path[1..]);
        r := below + r;
      }
    }
  }

  /** The tree a node stands for, read off the heap. */
  method ReadTree(ghost ns: set<Node>, node: Node, ghost t: Tree) returns (r: Tree)
    requires Repr(Snap(ns), node, t)
    ensures r == t
    decreases t
  {
    var children := [];
    for i := 0 to |node.content|
      invariant children == t.children[..i]
    {
      var c := ReadTree(ns, node.content[i], t.children[i]);
      children := children + [c];
    }
    return Tree(node.kind, node.value, children);
  }

  // ----- single edits

  method ReplaceChildAtIndex(parent: Node, child: Node, value: Node) returns (r: seq<Node>)
    requires child in parent.content
    ensures exists k: nat :: First(parent.content, k, child) && r == Spliced(parent.content, k, value.content)
  {
    var childIdx := ChildIndex(parent.content, child);
    r := parent.content[..childIdx] + (value.content + parent.content[childIdx + 1..]);
    assert r == Spliced(parent.content, childIdx, value.content);
    assert First(parent.content, childIdx, child);
  }

  /** Drops the child and the entry before it, its key. */
  method RemoveProperty(parent: Node, child: Node) returns (r: seq<Node>)
    requires child in parent.content && child != parent.content[0]
    ensures exists k: nat :: k > 0 && First(parent.content, k, child) && r == Without(MappingNode, parent.content, k)
  {
    var childIndex := ChildIndex(parent.content, child);
    r := parent.content[..childIndex - 1] + parent.content[childIndex + 1..];
    assert First(parent.content, childIndex, child);
  }

  method RemoveChild(parent: Node, child: Node) returns (remaining: seq<Node>)
    ensures remaining == AllBut(parent.content, child)
  {
    remaining := [];
    for i := 0 to |parent.content|
      invariant remaining == AllBut(parent.content[..i], child)
    {
      assert parent.content[..i + 1][..i] == parent.content[..i];
      var current := parent.content[i];
      if child == current {
        continue;
      }
      remaining := remaining + [current];
    }
    assert parent.content[..|parent.content|] == parent.content;
  }

  /** The first entry that holds the match, if any, gives way to the content of the value. */
  method ReplaceNode(ghost ns: set<Node>, doc: Node, ghost t: Tree, child: Node, value: Node)
    returns (ghost at: Option<(Node, nat)>)
    requires Repr(Snap(ns), doc, t)
    modifies ns
    ensures at.None? ==> Snap(ns) == old(Snap(ns)) && Nowhere(old(Snap(ns)), doc, t, child)
    ensures at.Some? ==>
              var (p, k), g := at.value, old(Snap(ns));
              && p in Reach(g, doc, t) && p in g && First(g[p].content, k, child)
              && Holder(g, doc, t, child) == Some(p)
              && Snap(ns) == WithContent(g, p, Spliced(g[p].content, k, old(value.content)))
  {
    at := None;
    ReachInHeap(Snap(ns), doc, t);
    HolderMeaning(Snap(ns), doc, t, child);
    var parent := Find(ns, doc, t, child);
    if parent.Some? {
      var content := ReplaceChildAtIndex(parent.value, child, value);
      ghost var k: nat :| First(parent.value.content, k, child)
          && content == Spliced(parent.value.content, k, value.content);
      at := Some((parent.value, k));
      SetContent(ns, parent.value, content);
    }
  }

  method SetContent(ghost ns: set<Node>, node: Node, content: seq<Node>)
    requires node in ns
    modifies node
    ensures Snap(ns) == WithContent(old(Snap(ns)), node, content)
  {
    node.content := content;
  }
}
