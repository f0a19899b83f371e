/** Which node of a document holds another, and content lists with an entry replaced or taken out. */
module Holders {
  import opened Strings
  import opened Trees
  import opened Graph

  /** The first entry with the node. */
  ghost predicate First<T>(content: seq<T>, k: nat, x: T) {
    k < |content| && content[k] == x && x !in content[..k]
  }

  ghost function Spliced<T>(content: seq<T>, k: nat, inner: seq<T>): seq<T>
    requires k < |content|
  {
    content[..k] + inner + content[k + 1..]
  }

  ghost function WithContent<T>(g: Heap<T>, p: T, content: seq<T>): Heap<T>
    requires p in g
  {
    g[p := g[p].(content := content)]
  }

  ghost predicate Nowhere<T>(g: Heap<T>, doc: T, t: Tree, x: T)
    requires Repr(g, doc, t)
  {
    forall p :: p in Reach(g, doc, t) && p in g ==> x !in g[p].content
  }

  /** The first node, parents before children and children in order, whose content holds the child. */
  ghost function Holder<T>(g: Heap<T>, n: T, t: Tree, child: T): Option<T>
    requires Repr(g, n, t)
    decreases t, |t.children| + 1
  {
    if child in g[n].content then Some(n) else HolderFrom(g, n, t, child, 0)
  }

  ghost function HolderFrom<T>(g: Heap<T>, n: T, t: Tree, child: T, i: nat): Option<T>
    requires Repr(g, n, t) && i <= |t.children|
    decreases t, |t.children| - i
  {
    if i == |t.children| then None
    else
      var below := Holder(g, g[n].content[i], t.children[i], child);
      if below.Some? then below else HolderFrom(g, n, t, child, i + 1)
  }

  /** There is no holder exactly if no node of the tree holds the child, and a holder is one that does. */
  lemma {:induction false} HolderMeaning<T>(g: Heap<T>, n: T, t: Tree, child: T)
    requires Repr(g, n, t)
    ensures Holder(g, n, t, child).None? <==> Nowhere(g, n, t, child)
    ensures var r := Holder(g, n, t, child); r.Some? ==>
        r.value in Reach(g, n, t) && r.value in g && child in g[r.value].content
    decreases t, |t.children| + 1
  {
    if child !in g[n].content {
      HolderFromMeaning(g, n, t, child, 0);
    }
  }

  lemma {:induction false} HolderFromMeaning<T>(g: Heap<T>, n: T, t: Tree, child: T, i: nat)
    requires Repr(g, n, t) && i <= |t.children|
    ensures HolderFrom(g, n, t, child, i).None? <==>
              forall j :: i <= j < |t.children| ==> Nowhere(g, g[n].content[j], t.children[j], child)
    ensures var r := HolderFrom(g, n, t, child, i); r.Some? ==>
        r.value in Reach(g, n, t) && r.value in g && child in g[r.value].content
    decreases t, |t.children| - i
  {
    hide Reach, Nowhere;
    if i < |t.children| {
      HolderMeaning(g, g[n].content[i], t.children[i], child);
      ReachChild(g, n, t, i);
      HolderFromMeaning(g, n, t, child, i + 1);
    }
  }

  /** Every entry but the child, in order. */
  function AllBut<T(==)>(content: seq<T>, child: T): seq<T> {
    if content == [] then []
    else
      var last := content[|content| - 1];
      AllBut(content[..|content| - 1], child) + (if last == child then [] else [last])
  }

  lemma {:induction false} AllButAbsent<T>(content: seq<T>, child: T)
    requires child !in content
    ensures AllBut(content, child) == content
  {
    if content != [] {
      AllButAbsent(content[..|content| - 1], child);
    }
  }

  lemma {:induction false} AllButOnce<T>(content: seq<T>, child: T, k: nat)
    requires k < |content| && content[k] == child && child !in content[..k] && child !in content[k + 1..]
    ensures AllBut(content, child) == content[..k] + content[k + 1..]
  {
    var last := |content| - 1;
    if k == last {
      AllButAbsent(content[..last], child);
    } else {
      assert content[last] == content[k + 1..][last - k - 1];
      assert content[..last][..k] == content[..k] && content[..last][k + 1..] == content[k + 1..][..last - k - 1];
      AllButOnce(content[..last], child, k);
      assert content[k + 1..] == content[k + 1..][..last - k - 1] + [content[last]];
    }
  }
}
