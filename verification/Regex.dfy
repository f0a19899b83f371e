/** pkg/patches/regex: placeholder expansion, group translation and index-based replacement. */
module Regex {
  import opened Strings
  import opened Names

  datatype Item = Item(start: int, end: int, replacement: string)

  // ----- simultaneous substitution

  /** In bounds, no overlap, no two items at one start: what the source calls supported. */
  ghost predicate Replaceable(input: string, items: seq<Item>) {
    && (forall i :: 0 <= i < |items| ==> 0 <= items[i].start <= items[i].end <= |input|)
    && (forall i, j :: 0 <= i < |items| && 0 <= j < |items| && i != j ==>
         items[i].start != items[j].start
         && (items[i].start < items[j].start ==> items[i].end <= items[j].start))
  }

  /**
   Reading the input once from left to right: where an item starts, its replacement is emitted and its
   span skipped; every other character is copied.
   */
  ghost function Scan(input: string, items: set<Item>, p: nat): string
    requires p <= |input|
    decreases |input| - p, |items|
  {
    if exists it :: it in items && it.start == p && p <= it.end <= |input| then
      var it :| it in items && it.start == p && p <= it.end <= |input|;
      it.replacement + Scan(input, items - {it}, it.end)
    else if p < |input| then [input[p]] + Scan(input, items, p + 1)
    else ""
  }

  function Elements(items: seq<Item>): set<Item> {
    set it | it in items
  }

  ghost predicate Sorted(items: seq<Item>) {
    forall i, j :: 0 <= i < j < |items| ==> items[i].start <= items[j].start
  }

  /** The change in length a list of replacements makes. */
  function Growth(items: seq<Item>): int {
    if items == [] then 0
    else
      var last := items[|items| - 1];
      Growth(items[..|items| - 1]) + |last.replacement| - (last.end - last.start)
  }

  /** Up to the first item everything is copied. */
  lemma {:induction false} ScanGap(input: string, items: set<Item>, p: nat, q: nat)
    requires p <= q <= |input|
    requires forall it :: it in items ==> q <= it.start
    ensures Scan(input, items, p) == input[p..q] + Scan(input, items, q)
    decreases q - p
  {
    hide Scan;
    if p < q {
      ScanCopy(input, items, p);
      ScanGap(input, items, p + 1, q);
      Assoc([input[p]], input[p + 1..q], Scan(input, items, q));
      assert input[p..q] == [input[p]] + input[p + 1..q];
    } else {
      assert input[p..q] == "";
    }
  }

  lemma {:induction false} ScanCopy(input: string, items: set<Item>, p: nat)
    requires p < |input| && forall it :: it in items ==> it.start != p
    ensures Scan(input, items, p) == [input[p]] + Scan(input, items, p + 1)
  {
  }

  /** In a sorted replaceable list each item comes strictly after the end of its predecessors. */
  lemma {:induction false} SortedStrict(input: string, items: seq<Item>, k: nat)
    requires Replaceable(input, items) && Sorted(items) && k < |items|
    ensures forall j :: k < j < |items| ==> items[k].end <= items[j].start && items[k].start < items[j].start
  {
    forall j | k < j < |items|
      ensures items[k].end <= items[j].start && items[k].start < items[j].start
    {
      assert items[k].start <= items[j].start;
    }
  }

  lemma {:induction false} ScanItem(input: string, items: seq<Item>, k: nat)
    requires Replaceable(input, items) && Sorted(items) && k < |items|
    ensures var it := items[k];
      Scan(input, Elements(items[k..]), it.start) == it.replacement + Scan(input, Elements(items[k + 1..]), it.end)
  {
    SortedStrict(input, items, k);
    var rest := Elements(items[k..]);
    var it := items[k];
    assert items[k..][0] == it && it in rest;
    forall x | x in rest && x.start == it.start
      ensures x == it
    {
      var j :| 0 <= j < |items[k..]| && items[k..][j] == x;
      assert items[k + j] == x;
    }
    assert items[k..] == [it] + items[k + 1..];
    assert it !in items[k + 1..];
    assert rest - {it} == Elements(items[k + 1..]);
  }

  /** One step of sort.Slice: the least remaining item moves to the front of the rest. */
  method SortSlice(items: array<Item>)
    modifies items
    ensures Sorted(items[..]) && multiset(items[..]) == multiset(old(items[..]))
  {
    var n := 0;
    while n < items.Length
      invariant n <= items.Length
      invariant Sorted(items[..n])
      invariant forall i, j :: 0 <= i < n <= j < items.Length ==> items[i].start <= items[j].start
      invariant multiset(items[..]) == multiset(old(items[..]))
    {
      var least := n;
      for m := n + 1 to items.Length
        invariant n <= least < items.Length
        invariant forall j :: n <= j < m ==> items[least].start <= items[j].start
      {
        if items[m].start < items[least].start {
          least := m;
        }
      }
      items[n], items[least] := items[least], items[n];
      n := n + 1;
    }
    assert items[..n] == items[..];
  }

  lemma {:induction false} ReplaceableReordered(input: string, items: seq<Item>, sorted: seq<Item>)
    requires Replaceable(input, items) && multiset(items) == multiset(sorted)
    ensures Replaceable(input, sorted) && Elements(sorted) == Elements(items)
  {
    forall i | 0 <= i < |sorted|
      ensures sorted[i] in items
    {
      assert sorted[i] in multiset(sorted);
    }
    forall it | it in items
      ensures it in sorted
    {
      assert it in multiset(items);
    }
    forall i, j | 0 <= i < |sorted| && 0 <= j < |sorted| && i != j
      ensures sorted[i].start != sorted[j].start
      ensures sorted[i].start < sorted[j].start ==> sorted[i].end <= sorted[j].start
    {
      if sorted[i] == sorted[j] {
        TwiceCounted(sorted, i, j);
        OnceCounted(input, items, sorted[i]);
        assert false;
      } else {
        var a :| 0 <= a < |items| && items[a] == sorted[i];
        var b :| 0 <= b < |items| && items[b] == sorted[j];
      }
    }
  }

  lemma {:induction false} TwiceCounted(items: seq<Item>, i: nat, j: nat)
    requires i < |items| && j < |items| && i != j && items[i] == items[j]
    ensures multiset(items)[items[i]] >= 2
  {
    var a, b := if i < j then i else j, if i < j then j else i;
    assert items == items[..a] + [items[a]] + items[a + 1..b] + [items[b]] + items[b + 1..];
  }

  lemma {:induction false} OnceCounted(input: string, items: seq<Item>, it: Item)
    requires Replaceable(input, items)
    ensures multiset(items)[it] <= 1
  {
    if it in items {
      var i :| 0 <= i < |items| && items[i] == it;
      assert items == items[..i] + [items[i]] + items[i + 1..];
      assert it !in items[..i] && it !in items[i + 1..];
    }
  }

  /** The finished part of the text, and how far it is shifted. */
  ghost predicate Shifted(input: string, s: string, offset: int, done: string, end: nat) {
    end <= |input| && s == done + input[end..] && |done| == end + offset
  }

  /** Where the loop stands before item k. */
  ghost predicate Reached(input: string, items: seq<Item>, k: nat, offset: int, done: string, end: nat) {
    && k <= |items| && end <= |input|
    && offset == Growth(items[..k])
    && (forall j :: k <= j < |items| ==> end <= items[j].start)
    && Scan(input, Elements(items), 0) == done + Scan(input, Elements(items[k..]), end)
  }

  lemma {:induction false} ReachedNext(input: string, items: seq<Item>, k: nat, offset: int, done: string, end: nat)
    requires Replaceable(input, items) && Sorted(items) && k < |items|
    requires Reached(input, items, k, offset, done, end)
    ensures var i := items[k];
      && end <= i.start <= i.end <= |input|
      && Reached(input, items, k + 1, offset + |i.replacement| - (i.end - i.start),
           done + input[end..i.start] + i.replacement, i.end)
  {
    var i := items[k];
    var grown := Growth(items[..k + 1]);
    GrowthStep(items, k);
    SortedStrict(input, items, k);
    LeastOfRest(items, k);
    assert end <= i.start <= i.end <= |input|;
    hide Scan, Growth, Replaceable, Sorted, Elements;
    ScanGap(input, Elements(items[k..]), end, i.start);
    ScanItem(input, items, k);
    ConcatAssoc(done, input[end..i.start], i.replacement, Scan(input, Elements(items[k + 1..]), i.end));
  }

  lemma {:induction false} LeastOfRest(items: seq<Item>, k: nat)
    requires Sorted(items) && k < |items|
    ensures forall it :: it in Elements(items[k..]) ==> items[k].start <= it.start
  {
    forall it | it in Elements(items[k..])
      ensures items[k].start <= it.start
    {
      var j :| 0 <= j < |items[k..]| && items[k..][j] == it;
      assert items[k + j] == it;
    }
  }

  lemma {:induction false} GrowthStep(items: seq<Item>, k: nat)
    requires k < |items|
    ensures Growth(items[..k + 1]) == Growth(items[..k]) + |items[k].replacement| - (items[k].end - items[k].start)
  {
    assert items[..k + 1][..k] == items[..k];
  }

  lemma {:induction false} ConcatAssoc(a: string, b: string, c: string, d: string)
    ensures a + (b + (c + d)) == a + b + c + d
  {
  }

  lemma {:induction false} ShiftedNext(input: string, s: string, offset: int, done: string, end: nat, i: Item)
    requires end <= i.start <= i.end <= |input| && Shifted(input, s, offset, done, end)
    ensures 0 <= i.start + offset <= |s| && 0 <= i.end + offset <= |s|
    ensures Shifted(input, s[..i.start + offset] + i.replacement + s[i.end + offset..],
                    offset + |i.replacement| - (i.end - i.start), done + input[end..i.start] + i.replacement, i.end)
  {
    assert s[..i.start + offset] == done + input[end..i.start];
    assert s[i.end + offset..] == input[i.end..];
  }

  /**
   The running-offset loop never slices out of bounds and equals the one-shot substitution, in
   whatever order the items are given.
   */
  method IndexBasedReplace(input: string, items: array<Item>) returns (s: string)
    requires Replaceable(input, items[..])
    modifies items
    ensures s == Scan(input, old(Elements(items[..])), 0)
    ensures multiset(items[..]) == multiset(old(items[..])) && |s| == |input| + Growth(items[..])
  {
    hide Reached, Shifted, Scan;
    ghost var given := items[..];
    SortSlice(items);
    ghost var view := items[..];
    ReplaceableReordered(input, given, view);

    s := input;
    var indexOffset := 0;
    ghost var done: string, end: nat := "", 0;
    ReachedStart(input, view);
    for k := 0 to items.Length
      invariant items[..] == view
      invariant Reached(input, view, k, indexOffset, done, end) && Shifted(input, s, indexOffset, done, end)
    {
      var i := items[k];
      assert i == view[k];
      ReachedNext(input, view, k, indexOffset, done, end);
      ShiftedNext(input, s, indexOffset, done, end, i);
      s := s[..i.start + indexOffset] + i.replacement + s[i.end + indexOffset..];
      done := done + input[end..i.start] + i.replacement;
      indexOffset := indexOffset + |i.replacement| - (i.end - i.start);
      end := i.end;
    }
    ReachedEnd(input, view, s, indexOffset, done, end);
  }

  lemma {:induction false} ReachedStart(input: string, items: seq<Item>)
    requires Replaceable(input, items)
    ensures Reached(input, items, 0, 0, "", 0) && Shifted(input, input, 0, "", 0)
  {
    assert items[0..] == items;
  }

  lemma {:induction false} ReachedEnd(input: string, items: seq<Item>, s: string, offset: int, done: string, end: nat)
    requires Reached(input, items, |items|, offset, done, end) && Shifted(input, s, offset, done, end)
    ensures s == Scan(input, Elements(items), 0) && |s| == |input| + Growth(items)
  {
    assert items[|items|..] == [] && items[..|items|] == items;
    assert Elements(items[|items|..]) == {};
    ScanGap(input, {}, end, |input|);
    assert input[end..|input|] == input[end..];
  }

  // ----- translating the groups of a match

  const NAME_GROUP := "NAME"
  const NAMESPACE_GROUP := "NAMESPACE"

  /** A compiled expression: its group names and the index pairs of all its matches in an input. */
  datatype Regexp = Regexp(groups: seq<string>, findAll: string -> seq<seq<int>>)

  datatype Span = Span(from: int, to: int)

  function GroupSpan(m: seq<int>, g: nat): Span
    requires 2 * g + 1 < |m|
  {
    Span(m[2 * g], m[2 * g + 1])
  }

  /** The position of the last group with the name, -1 if there is none. */
  function GroupPos(groups: seq<string>, name: string): (p: int)
    ensures -1 <= p < |groups| && (p >= 0 ==> groups[p] == name)
    ensures forall i :: p < i < |groups| ==> groups[i] != name
  {
    if groups == [] then -1
    else if groups[|groups| - 1] == name then |groups| - 1
    else GroupPos(groups[..|groups| - 1], name)
  }

  /** The span of a named group in a match; both ends are -1 when it took no part or does not exist. */
  function NamedSpan(groups: seq<string>, m: seq<int>, name: string): Span
    requires |m| == 2 * |groups|
  {
    var g := GroupPos(groups, name);
    if g == -1 then Span(-1, -1) else GroupSpan(m, g)
  }

  predicate Took(span: Span) {
    span.from != -1 && span.to != -1
  }

  ghost predicate Within(span: Span, lo: int, hi: int) {
    span == Span(-1, -1) || lo <= span.from <= span.to <= hi
  }

  /** What the expression engine promises about one match. */
  ghost predicate WellFormedMatch(groups: seq<string>, input: string, m: seq<int>) {
    && |groups| >= 1 && |m| == 2 * |groups|
    && 0 <= m[0] <= m[1] <= |input|
    && forall g :: 0 <= g < |groups| ==> Within(GroupSpan(m, g), m[0], m[1])
  }

  /** The name and namespace groups that took part are non-empty and do not overlap. */
  ghost predicate Apart(groups: seq<string>, m: seq<int>)
    requires |m| == 2 * |groups|
  {
    var n, ns := NamedSpan(groups, m, NAME_GROUP), NamedSpan(groups, m, NAMESPACE_GROUP);
    && (Took(n) ==> n.from < n.to)
    && (Took(ns) ==> ns.from < ns.to)
    && (Took(n) && Took(ns) ==> n.to <= ns.from || ns.to <= n.from)
  }

  /** The span of the whole match. */
  function Bounds(m: seq<int>): Span {
    if |m| < 2 then Span(-1, -1) else Span(m[0], m[1])
  }

  /** The matches come in order, without overlap, and their named groups are apart. */
  ghost predicate GoodMatches(groups: seq<string>, input: string, all: seq<seq<int>>) {
    && (forall m :: m in all ==> WellFormedMatch(groups, input, m) && Apart(groups, m))
    && (forall a, b :: 0 <= a < b < |all| ==> Bounds(all[a]).to <= Bounds(all[b]).from)
  }

  function Text(input: string, span: Span): string
    requires Took(span) ==> 0 <= span.from <= span.to <= |input|
  {
    if Took(span) then input[span.from..span.to] else ""
  }

  /** The replacements one match asks for, translated from its own name and namespace ("" if absent). */
  ghost function MatchItems(groups: seq<string>, input: string, m: seq<int>,
                            translate: (string, string) -> NamespacedName): seq<Item>
    requires WellFormedMatch(groups, input, m)
  {
    var n, ns := NamedSpan(groups, m, NAME_GROUP), NamedSpan(groups, m, NAMESPACE_GROUP);
    if !Took(n) then []
    else
      var to := translate(Text(input, n), Text(input, ns));
      [Item(n.from, n.to, to.name)] + if Took(ns) then [Item(ns.from, ns.to, to.namespace)] else []
  }

  ghost function AllItems(groups: seq<string>, input: string, all: seq<seq<int>>,
                          translate: (string, string) -> NamespacedName): seq<Item>
    requires forall m :: m in all ==> WellFormedMatch(groups, input, m)
  {
    if all == [] then []
    else AllItems(groups, input, all[..|all| - 1], translate) + MatchItems(groups, input, all[|all| - 1], translate)
  }

  /** The arguments of the translation callback, match by match. */
  function Calls(groups: seq<string>, input: string, all: seq<seq<int>>): seq<NamespacedName>
    requires forall m :: m in all ==> WellFormedMatch(groups, input, m)
  {
    if all == [] then []
    else
      var m := all[|all| - 1];
      assert m in all;
      NamedSpanWithin(groups, input, m, NAME_GROUP);
      NamedSpanWithin(groups, input, m, NAMESPACE_GROUP);
      var n, ns := NamedSpan(groups, m, NAME_GROUP), NamedSpan(groups, m, NAMESPACE_GROUP);
      Calls(groups, input, all[..|all| - 1])
      + if Took(n) then [NamespacedName(Text(input, ns), Text(input, n))] else []
  }

  ghost predicate Inside(items: seq<Item>, lo: int, hi: int) {
    forall it :: it in items ==> lo <= it.start < it.end <= hi
  }

  lemma {:induction false} ReplaceableConcat(input: string, a: seq<Item>, b: seq<Item>, mid: int)
    requires Replaceable(input, a) && Replaceable(input, b)
    requires Inside(a, 0, mid) && Inside(b, mid, |input|)
    ensures Replaceable(input, a + b)
  {
    var items := a + b;
    forall i, j | 0 <= i < |items| && 0 <= j < |items| && i != j
      ensures items[i].start != items[j].start
      ensures items[i].start < items[j].start ==> items[i].end <= items[j].start
    {
      assert items[i] == if i < |a| then a[i] else b[i - |a|];
      assert items[j] == if j < |a| then a[j] else b[j - |a|];
      assert i < |a| ==> items[i] in a;
      assert j < |a| ==> items[j] in a;
      assert i >= |a| ==> items[i] in b;
      assert j >= |a| ==> items[j] in b;
    }
  }

  lemma {:induction false} MatchItemsReplaceable(groups: seq<string>, input: string, m: seq<int>,
                                                 translate: (string, string) -> NamespacedName)
    requires WellFormedMatch(groups, input, m) && Apart(groups, m)
    ensures Replaceable(input, MatchItems(groups, input, m, translate))
    ensures Inside(MatchItems(groups, input, m, translate), m[0], m[1])
  {
    NamedSpanWithin(groups, input, m, NAME_GROUP);
    NamedSpanWithin(groups, input, m, NAMESPACE_GROUP);
    hide WellFormedMatch, GroupPos, NamedSpan, Replaceable, Inside;
    var n, ns := NamedSpan(groups, m, NAME_GROUP), NamedSpan(groups, m, NAMESPACE_GROUP);
    if Took(n) && Took(ns) {
      var to := translate(Text(input, n), Text(input, ns));
      assert MatchItems(groups, input, m, translate)
          == [Item(n.from, n.to, to.name), Item(ns.from, ns.to, to.namespace)];
      TwoItems(input, Item(n.from, n.to, to.name), Item(ns.from, ns.to, to.namespace), m[0], m[1]);
    } else {
      FewItems(input, MatchItems(groups, input, m, translate), m[0], m[1]);
    }
  }

  lemma {:induction false} FewItems(input: string, items: seq<Item>, lo: int, hi: int)
    requires |items| <= 1
    requires items != [] ==> 0 <= lo <= items[0].start < items[0].end <= hi <= |input|
    ensures Replaceable(input, items) && Inside(items, lo, hi)
  {
  }

  lemma {:induction false} TwoItems(input: string, a: Item, b: Item, lo: int, hi: int)
    requires 0 <= lo <= a.start < a.end <= hi <= |input| && lo <= b.start < b.end <= hi
    requires a.end <= b.start || b.end <= a.start
    ensures Replaceable(input, [a, b]) && Inside([a, b], lo, hi)
  {
  }

  lemma {:induction false} NamedSpanWithin(groups: seq<string>, input: string, m: seq<int>, name: string)
    requires WellFormedMatch(groups, input, m)
    ensures Within(NamedSpan(groups, m, name), m[0], m[1]) && 0 <= m[0] <= m[1] <= |input|
  {
  }

  /** The replacements of all matches meet the demands of the index-based replacement. */
  lemma {:induction false} AllItemsReplaceable(groups: seq<string>, input: string, all: seq<seq<int>>,
                                               translate: (string, string) -> NamespacedName)
    requires GoodMatches(groups, input, all)
    ensures Replaceable(input, AllItems(groups, input, all, translate))
    ensures Inside(AllItems(groups, input, all, translate), 0, if all == [] then 0 else Bounds(all[|all| - 1]).to)
  {
    if all != [] {
      var init, m := all[..|all| - 1], all[|all| - 1];
      assert m in all;
      assert init != [] ==> init[|init| - 1] == all[|all| - 2];
      AllItemsReplaceable(groups, input, init, translate);
      MatchItemsReplaceable(groups, input, m, translate);
      ReplaceableConcat(input, AllItems(groups, input, init, translate), MatchItems(groups, input, m, translate), m[0]);
    }
  }

  // ----- the text that comes out, match by match

  ghost function EndOf(all: seq<seq<int>>): int {
    if all == [] then 0 else Bounds(all[|all| - 1]).to
  }

  /** The text of a match with its name and, if it took part, its namespace translated. */
  ghost function Renewed(groups: seq<string>, input: string, m: seq<int>,
                         translate: (string, string) -> NamespacedName): string
    requires WellFormedMatch(groups, input, m) && Apart(groups, m)
  {
    NamedSpanWithin(groups, input, m, NAME_GROUP);
    NamedSpanWithin(groups, input, m, NAMESPACE_GROUP);
    var n, ns := NamedSpan(groups, m, NAME_GROUP), NamedSpan(groups, m, NAMESPACE_GROUP);
    if !Took(n) then input[m[0]..m[1]]
    else
      var to := translate(Text(input, n), Text(input, ns));
      if !Took(ns) then input[m[0]..n.from] + to.name + input[n.to..m[1]]
      else if n.to <= ns.from then
        input[m[0]..n.from] + to.name + input[n.to..ns.from] + to.namespace + input[ns.to..m[1]]
      else input[m[0]..ns.from] + to.namespace + input[ns.to..n.from] + to.name + input[n.to..m[1]]
  }

  /** The text up to the end of the last match. */
  ghost function Done(groups: seq<string>, input: string, all: seq<seq<int>>,
                      translate: (string, string) -> NamespacedName): string
    requires GoodMatches(groups, input, all)
  {
    if all == [] then ""
    else
      var init, m := all[..|all| - 1], all[|all| - 1];
      assert m in all && (init != [] ==> init[|init| - 1] in all && init[|init| - 1] == all[|all| - 2]);
      Done(groups, input, init, translate) + input[EndOf(init)..m[0]] + Renewed(groups, input, m, translate)
  }

  lemma {:induction false} EndWithin(groups: seq<string>, input: string, all: seq<seq<int>>, k: nat)
    requires GoodMatches(groups, input, all) && k <= |all|
    ensures GoodMatches(groups, input, all[..k]) && 0 <= EndOf(all[..k]) <= |input|
    ensures k < |all| ==> all[k] in all && WellFormedMatch(groups, input, all[k]) && Apart(groups, all[k])
    ensures k < |all| ==> EndOf(all[..k]) <= all[k][0] <= all[k][1] == EndOf(all[..k + 1])
  {
    if k > 0 {
      assert all[k - 1] in all && all[..k][k - 1] == all[k - 1];
    }
    if k < |all| {
      assert all[k] in all;
      assert k > 0 ==> Bounds(all[k - 1]).to <= Bounds(all[k]).from;
    }
  }

  /** The first item is replaced, and the reading goes on after it. */
  lemma {:induction false} ScanFirst(input: string, items: set<Item>, it: Item, p: nat)
    requires it in items && p <= it.start < it.end <= |input|
    requires forall x :: x in items && x != it ==> it.end <= x.start
    ensures Scan(input, items, p) == input[p..it.start] + it.replacement + Scan(input, items - {it}, it.end)
  {
    ScanGap(input, items, p, it.start);
    ScanHere(input, items, it);
    hide Scan;
    Assoc(input[p..it.start], it.replacement, Scan(input, items - {it}, it.end));
  }

  lemma {:induction false} ScanHere(input: string, items: set<Item>, it: Item)
    requires it in items && 0 <= it.start < it.end <= |input|
    requires forall x :: x in items && x != it ==> it.end <= x.start
    ensures Scan(input, items, it.start) == it.replacement + Scan(input, items - {it}, it.end)
  {
  }

  /** Reading a match, with everything else that is to be replaced after it. */
  lemma {:induction false} MatchScanned(groups: seq<string>, input: string, m: seq<int>,
                                        translate: (string, string) -> NamespacedName, rest: set<Item>, e: nat)
    requires WellFormedMatch(groups, input, m) && Apart(groups, m) && e <= m[0]
    requires forall x :: x in rest ==> m[1] <= x.start
    ensures Scan(input, Elements(MatchItems(groups, input, m, translate)) + rest, e)
         == input[e..m[0]] + Renewed(groups, input, m, translate) + Scan(input, rest, m[1])
  {
    NamedSpanWithin(groups, input, m, NAME_GROUP);
    NamedSpanWithin(groups, input, m, NAMESPACE_GROUP);
    hide Scan, GroupPos, NamedSpan, WellFormedMatch;
    var n, ns := NamedSpan(groups, m, NAME_GROUP), NamedSpan(groups, m, NAMESPACE_GROUP);
    var items := MatchItems(groups, input, m, translate);
    if !Took(n) {
      assert Elements(items) + rest == rest;
      ScanGap(input, rest, e, m[1]);
      assert input[e..m[1]] == input[e..m[0]] + input[m[0]..m[1]];
    } else {
      var to := translate(Text(input, n), Text(input, ns));
      var a, b := Item(n.from, n.to, to.name), Item(ns.from, ns.to, to.namespace);
      if !Took(ns) {
        assert items == [a];
        assert Elements(items) + rest == {a} + rest;
        OneScanned(input, a, rest, e, m[0], m[1]);
      } else {
        assert items == [a, b];
        assert Elements(items) + rest == {a, b} + rest == {b, a} + rest;
        if n.to <= ns.from {
          TwoScanned(input, a, b, rest, e, m[0], m[1]);
        } else {
          TwoScanned(input, b, a, rest, e, m[0], m[1]);
        }
      }
    }
  }

  lemma {:induction false} OneScanned(input: string, a: Item, rest: set<Item>, e: nat, lo: nat, hi: nat)
    requires e <= lo <= a.start < a.end <= hi <= |input| && forall x :: x in rest ==> hi <= x.start
    ensures Scan(input, {a} + rest, e)
         == input[e..lo] + (input[lo..a.start] + a.replacement + input[a.end..hi]) + Scan(input, rest, hi)
  {
    hide Scan;
    ScanFirst(input, {a} + rest, a, e);
    assert {a} + rest - {a} == rest;
    ScanGap(input, rest, a.end, hi);
    assert input[e..a.start] == input[e..lo] + input[lo..a.start];
  }

  lemma {:induction false} TwoScanned(input: string, a: Item, b: Item, rest: set<Item>, e: nat, lo: nat, hi: nat)
    requires e <= lo <= a.start < a.end <= b.start < b.end <= hi <= |input| && forall x :: x in rest ==> hi <= x.start
    ensures Scan(input, {a, b} + rest, e)
         == input[e..lo] + (input[lo..a.start] + a.replacement + input[a.end..b.start] + b.replacement
                            + input[b.end..hi])
            + Scan(input, rest, hi)
  {
    hide Scan;
    ScanFirst(input, {a, b} + rest, a, e);
    assert {a, b} + rest - {a} == {b} + rest;
    OneScanned(input, b, rest, a.end, a.end, hi);
    assert input[e..a.start] == input[e..lo] + input[lo..a.start];
    assert input[a.end..a.end] == "";
  }

  /** Everything that is to be replaced from match k on. */
  ghost function ItemsFrom(groups: seq<string>, input: string, all: seq<seq<int>>, k: nat,
                           translate: (string, string) -> NamespacedName): set<Item>
    requires k <= |all| && forall m :: m in all ==> WellFormedMatch(groups, input, m)
    decreases |all| - k
  {
    if k == |all| then {}
    else
      assert all[k] in all;
      Elements(MatchItems(groups, input, all[k], translate)) + ItemsFrom(groups, input, all, k + 1, translate)
  }

  lemma {:induction false} ItemsFromAfter(groups: seq<string>, input: string, all: seq<seq<int>>, k: nat,
                                          translate: (string, string) -> NamespacedName)
    requires GoodMatches(groups, input, all) && k <= |all|
    ensures forall x :: x in ItemsFrom(groups, input, all, k, translate) ==> EndOf(all[..k]) <= x.start
    decreases |all| - k
  {
    EndWithin(groups, input, all, k);
    if k < |all| {
      MatchItemsReplaceable(groups, input, all[k], translate);
      ItemsFromAfter(groups, input, all, k + 1, translate);
    }
  }

  lemma {:induction false} ItemsFromAll(groups: seq<string>, input: string, all: seq<seq<int>>, k: nat,
                                        translate: (string, string) -> NamespacedName)
    requires GoodMatches(groups, input, all) && k <= |all|
    ensures Elements(AllItems(groups, input, all[..k], translate)) + ItemsFrom(groups, input, all, k, translate)
         == ItemsFrom(groups, input, all, 0, translate)
  {
    AllItemsStep(groups, input, all, 0, translate);
    if k > 0 {
      AllItemsStep(groups, input, all, k - 1, translate);
      ItemsFromAll(groups, input, all, k - 1, translate);
    }
  }

  lemma {:induction false} ScanDone(groups: seq<string>, input: string, all: seq<seq<int>>, k: nat,
                                    translate: (string, string) -> NamespacedName)
    requires GoodMatches(groups, input, all) && k <= |all|
    ensures GoodMatches(groups, input, all[..k]) && 0 <= EndOf(all[..k]) <= |input|
    ensures Scan(input, ItemsFrom(groups, input, all, 0, translate), 0)
         == Done(groups, input, all[..k], translate)
            + Scan(input, ItemsFrom(groups, input, all, k, translate), EndOf(all[..k]))
  {
    EndWithin(groups, input, all, k);
    if k > 0 {
      var e, m := EndOf(all[..k - 1]), all[k - 1];
      EndWithin(groups, input, all, k - 1);
      ScanDone(groups, input, all, k - 1, translate);
      ItemsFromAfter(groups, input, all, k, translate);
      DoneStep(groups, input, all, k - 1, translate);
      hide Scan, Done, Renewed, GoodMatches, WellFormedMatch, Apart, AllItems, MatchItems;
      MatchScanned(groups, input, m, translate, ItemsFrom(groups, input, all, k, translate), e);
      Regrouped(Done(groups, input, all[..k - 1], translate), input[e..m[0]], Renewed(groups, input, m, translate),
          Scan(input, ItemsFrom(groups, input, all, k, translate), m[1]));
    }
  }

  lemma {:induction false} Regrouped(a: string, b: string, c: string, d: string)
    ensures a + (b + c + d) == a + b + c + d
  {
  }

  lemma {:induction false} DoneStep(groups: seq<string>, input: string, all: seq<seq<int>>, k: nat,
                                    translate: (string, string) -> NamespacedName)
    requires GoodMatches(groups, input, all) && k < |all|
    ensures GoodMatches(groups, input, all[..k]) && GoodMatches(groups, input, all[..k + 1])
    ensures all[k] in all && WellFormedMatch(groups, input, all[k]) && Apart(groups, all[k])
    ensures 0 <= EndOf(all[..k]) <= all[k][0]
    ensures Done(groups, input, all[..k + 1], translate)
         == Done(groups, input, all[..k], translate) + input[EndOf(all[..k])..all[k][0]]
            + Renewed(groups, input, all[k], translate)
  {
    EndWithin(groups, input, all, k);
    EndWithin(groups, input, all, k + 1);
    assert all[..k + 1][..k] == all[..k];
  }

  /** What the replacement makes of the text: everything between the named groups is copied. */
  lemma {:induction false} ReplacedIsDone(groups: seq<string>, input: string, all: seq<seq<int>>,
                                          translate: (string, string) -> NamespacedName)
    requires GoodMatches(groups, input, all)
    ensures 0 <= EndOf(all) <= |input|
    ensures Scan(input, Elements(AllItems(groups, input, all, translate)), 0)
         == Done(groups, input, all, translate) + input[EndOf(all)..]
  {
    hide Scan, Done, AllItems, GoodMatches, EndOf, Elements;
    assert all[..|all|] == all;
    EndWithin(groups, input, all, |all|);
    assert ItemsFrom(groups, input, all, |all|, translate) == {};
    hide ItemsFrom;
    var items := Elements(AllItems(groups, input, all, translate));
    assert items + {} == items;
    ItemsFromAll(groups, input, all, |all|, translate);
    ScanDone(groups, input, all, |all|, translate);
    ScanRest(input, EndOf(all));
  }

  lemma {:induction false} ScanRest(input: string, p: nat)
    requires p <= |input|
    ensures Scan(input, {}, p) == input[p..]
  {
    ScanGap(input, {}, p, |input|);
    assert Scan(input, {}, |input|) == "";
    assert input[p..|input|] == input[p..];
  }

  /**
   Match by match: where the name group took part, its text gives way to the name it translates to, with the
   namespace of the same match, "" if it has none, and the text of the namespace group to the namespace; between and
   around them the text is copied, and so is a match without a name.
   */
  lemma {:induction false} MatchReplaced(groups: seq<string>, input: string, all: seq<seq<int>>, k: nat,
                                         translate: (string, string) -> NamespacedName)
    requires GoodMatches(groups, input, all) && k < |all|
    ensures all[k] in all && |all[k]| == 2 * |groups| && |groups| > 0
    ensures GoodMatches(groups, input, all[..k]) && GoodMatches(groups, input, all[..k + 1])
    ensures var m, e := all[k], EndOf(all[..k]);
      var n, ns := NamedSpan(groups, m, NAME_GROUP), NamedSpan(groups, m, NAMESPACE_GROUP);
      var before, after := Done(groups, input, all[..k], translate), Done(groups, input, all[..k + 1], translate);
      && 0 <= e <= m[0] <= m[1] == EndOf(all[..k + 1]) <= |input|
      && (!Took(n) ==> after == before + input[e..m[1]])
      && (Took(n) ==> m[0] <= n.from < n.to <= m[1])
      && (Took(ns) ==> m[0] <= ns.from < ns.to <= m[1])
      && (Took(n) && !Took(ns) ==>
            after == before + input[e..n.from] + translate(input[n.from..n.to], "").name + input[n.to..m[1]])
      && (Took(n) && Took(ns) && n.to <= ns.from ==>
            var to := translate(input[n.from..n.to], input[ns.from..ns.to]);
            after == before + input[e..n.from] + to.name + input[n.to..ns.from] + to.namespace + input[ns.to..m[1]])
      && (Took(n) && Took(ns) && n.to > ns.from ==>
            var to := translate(input[n.from..n.to], input[ns.from..ns.to]);
            ns.to <= n.from
            && after == before + input[e..ns.from] + to.namespace + input[ns.to..n.from] + to.name + input[n.to..m[1]])
  {
    var m, e := all[k], EndOf(all[..k]);
    EndWithin(groups, input, all, k);
    EndWithin(groups, input, all, k + 1);
    DoneStep(groups, input, all, k, translate);
    RenewedCases(groups, input, m, translate);
    hide Done, GoodMatches, NamedSpan, Renewed, Apart, EndOf;
    var n, ns := NamedSpan(groups, m, NAME_GROUP), NamedSpan(groups, m, NAMESPACE_GROUP);
    var before := Done(groups, input, all[..k], translate);
    if !Took(n) {
      Glue(before, input, e, m[0], m[1]);
    } else if !Took(ns) {
      GlueOne(before, input, e, m[0], n.from, translate(input[n.from..n.to], "").name, input[n.to..m[1]]);
    } else {
      var to := translate(input[n.from..n.to], input[ns.from..ns.to]);
      if n.to <= ns.from {
        GlueTwo(before, input, e, m[0], n.from, to.name, input[n.to..ns.from], to.namespace, input[ns.to..m[1]]);
      } else {
        GlueTwo(before, input, e, m[0], ns.from, to.namespace, input[ns.to..n.from], to.name, input[n.to..m[1]]);
      }
    }
  }

  lemma {:induction false} RenewedCases(groups: seq<string>, input: string, m: seq<int>,
                                        translate: (string, string) -> NamespacedName)
    requires WellFormedMatch(groups, input, m) && Apart(groups, m)
    ensures |m| == 2 * |groups| && |groups| > 0 && 0 <= m[0] <= m[1] <= |input|
    ensures var n, ns := NamedSpan(groups, m, NAME_GROUP), NamedSpan(groups, m, NAMESPACE_GROUP);
      var text := Renewed(groups, input, m, translate);
      && (Took(n) ==> m[0] <= n.from < n.to <= m[1]) && (Took(ns) ==> m[0] <= ns.from < ns.to <= m[1])
      && (!Took(n) ==> text == input[m[0]..m[1]])
      && (Took(n) && !Took(ns) ==>
            text == input[m[0]..n.from] + translate(input[n.from..n.to], "").name + input[n.to..m[1]])
      && (Took(n) && Took(ns) ==>
            var to := translate(input[n.from..n.to], input[ns.from..ns.to]);
            if n.to <= ns.from then
              text == input[m[0]..n.from] + to.name + input[n.to..ns.from] + to.namespace + input[ns.to..m[1]]
            else
              && ns.to <= n.from
              && text == input[m[0]..ns.from] + to.namespace + input[ns.to..n.from] + to.name + input[n.to..m[1]])
  {
    NamedSpanWithin(groups, input, m, NAME_GROUP);
    NamedSpanWithin(groups, input, m, NAMESPACE_GROUP);
    hide GroupPos, NamedSpan;
  }

  lemma {:induction false} Glue(before: string, input: string, e: nat, from: nat, to: nat)
    requires e <= from <= to <= |input|
    ensures before + input[e..from] + input[from..to] == before + input[e..to]
  {
    assert input[e..to] == input[e..from] + input[from..to];
  }

  lemma {:induction false} GlueOne(before: string, input: string, e: nat, lo: nat, from: nat, name: string,
                                   rest: string)
    requires e <= lo <= from <= |input|
    ensures before + input[e..lo] + (input[lo..from] + name + rest) == before + input[e..from] + name + rest
  {
    assert input[e..from] == input[e..lo] + input[lo..from];
  }

  lemma {:induction false} GlueTwo(before: string, input: string, e: nat, lo: nat, from: nat, a: string, middle: string,
                                   b: string, rest: string)
    requires e <= lo <= from <= |input|
    ensures before + input[e..lo] + (input[lo..from] + a + middle + b + rest)
         == before + input[e..from] + a + middle + b + rest
  {
    GlueOne(before, input, e, lo, from, a, middle + b + rest);
    assert input[lo..from] + a + middle + b + rest == input[lo..from] + a + (middle + b + rest);
    assert before + input[e..from] + a + middle + b + rest == before + input[e..from] + a + (middle + b + rest);
  }

  /**
   ProcessRegex replaces, in one shot, exactly the name and namespace groups of the matches; each pair
   is translated from the name and namespace of its own match.
   */
  method ProcessRegex(re: Regexp, input: string, translate: (string, string) -> NamespacedName) returns (s: string)
    requires GoodMatches(re.groups, input, re.findAll(input))
    ensures s == Scan(input, Elements(AllItems(re.groups, input, re.findAll(input), translate)), 0)
    ensures var all := re.findAll(input);
      0 <= EndOf(all) <= |input| && s == Done(re.groups, input, all, translate) + input[EndOf(all)..]
  {
    hide AllItems, GoodMatches, GroupPos, Scan;
    var namePos, namespacePos := GroupNumbers(re.groups);

    var replacements: seq<Item> := [];
    var allIndexes := re.findAll(input);
    AllItemsStep(re.groups, input, allIndexes, 0, translate);
    for a := 0 to |allIndexes|
      invariant replacements == AllItems(re.groups, input, allIndexes[..a], translate)
    {
      var indexes := allIndexes[a];
      assert indexes in allIndexes;
      AllItemsStep(re.groups, input, allIndexes, a, translate);
      NamedSpanWithin(re.groups, input, indexes, NAME_GROUP);
      NamedSpanWithin(re.groups, input, indexes, NAMESPACE_GROUP);
      ghost var before := replacements;
      if namePos != -1 && indexes[2 * namePos] != -1 && indexes[2 * namePos + 1] != -1 {
        var name := input[indexes[2 * namePos]..indexes[2 * namePos + 1]];
        var namespace := "";
        if namespacePos != -1 && indexes[2 * namespacePos] != -1 && indexes[2 * namespacePos + 1] != -1 {
          namespace := input[indexes[2 * namespacePos]..indexes[2 * namespacePos + 1]];
        }
        var translatedName := translate(name, namespace);
        replacements := replacements + [Item(indexes[2 * namePos], indexes[2 * namePos + 1], translatedName.name)];
        if namespacePos != -1 && indexes[2 * namespacePos] != -1 && indexes[2 * namespacePos + 1] != -1 {
          replacements := replacements
            + [Item(indexes[2 * namespacePos], indexes[2 * namespacePos + 1], translatedName.namespace)];
        }
      }
      assert replacements == before + MatchItems(re.groups, input, indexes, translate);
    }
    assert allIndexes[..|allIndexes|] == allIndexes;
    AllItemsReplaceable(re.groups, input, allIndexes, translate);
    var items := new Item[|replacements|](i requires 0 <= i < |replacements| => replacements[i]);
    assert items[..] == replacements;
    s := IndexBasedReplace(input, items);
    ReplacedIsDone(re.groups, input, allIndexes, translate);
  }

  lemma {:induction false} AllItemsStep(groups: seq<string>, input: string, all: seq<seq<int>>, a: nat,
                                        translate: (string, string) -> NamespacedName)
    requires a <= |all| && GoodMatches(groups, input, all)
    ensures forall m :: m in all ==> WellFormedMatch(groups, input, m)
    ensures AllItems(groups, input, all[..0], translate) == []
    ensures a < |all| ==>
              AllItems(groups, input, all[..a + 1], translate)
              == AllItems(groups, input, all[..a], translate) + MatchItems(groups, input, all[a], translate)
  {
    if a < |all| {
      assert all[..a + 1][..a] == all[..a];
    }
  }

  /** The loop over the group names. */
  method GroupNumbers(groups: seq<string>) returns (namePos: int, namespacePos: int)
    ensures namePos == GroupPos(groups, NAME_GROUP) && namespacePos == GroupPos(groups, NAMESPACE_GROUP)
  {
    namePos, namespacePos := -1, -1;
    for pos := 0 to |groups|
      invariant namePos == GroupPos(groups[..pos], NAME_GROUP)
      invariant namespacePos == GroupPos(groups[..pos], NAMESPACE_GROUP)
    {
      assert groups[..pos + 1][..pos] == groups[..pos];
      var gn := groups[pos];
      if gn == NAME_GROUP {
        namePos := pos;
      } else if gn == NAMESPACE_GROUP {
        namespacePos := pos;
      }
    }
    assert groups[..|groups|] == groups;
  }

  // ----- placeholders

  const NAMESPACE_PLACEHOLDER := "$NAMESPACE"
  const NAME_PLACEHOLDER := "$NAME"

  /** Both placeholders in one pass over the text, the longer one first. */
  function OnePass(s: string, namespace: string, name: string): string {
    if s == "" then ""
    else if NAMESPACE_PLACEHOLDER <= s then namespace + OnePass(s[10..], namespace, name)
    else if NAME_PLACEHOLDER <= s then name + OnePass(s[5..], namespace, name)
    else [s[0]] + OnePass(s[1..], namespace, name)
  }

  function TwoPasses(s: string, namespace: string, name: string): string {
    ReplaceAll(ReplaceAll(s, NAMESPACE_PLACEHOLDER, namespace), NAME_PLACEHOLDER, name)
  }

  /** Text without a dollar sign is copied by the second pass. */
  lemma {:induction false} CopyDollarFree(a: string, b: string, name: string)
    requires '$' !in a
    ensures ReplaceAll(a + b, NAME_PLACEHOLDER, name) == a + ReplaceAll(b, NAME_PLACEHOLDER, name)
  {
    if a == "" {
      assert a + b == b;
    } else {
      assert a[0] in a && (a + b)[0] != '$';
      assert NAME_PLACEHOLDER[0] == '$';
      assert (a + b)[1..] == a[1..] + b;
      CopyDollarFree(a[1..], b, name);
    }
  }

  /** The first pass neither creates nor destroys letters "NAME" at the front. */
  lemma {:induction false} FrontKept(t: string, word: string, namespace: string)
    requires '$' !in word && namespace != "" && namespace[0] !in word
    ensures word <= ReplaceAll(t, NAMESPACE_PLACEHOLDER, namespace) <==> word <= t
    ensures word <= t ==>
              ReplaceAll(t, NAMESPACE_PLACEHOLDER, namespace)[|word|..]
              == ReplaceAll(t[|word|..], NAMESPACE_PLACEHOLDER, namespace)
  {
    var r := ReplaceAll(t, NAMESPACE_PLACEHOLDER, namespace);
    if word == "" {
      assert t[0..] == t && r[0..] == r;
    } else if t != "" {
      if NAMESPACE_PLACEHOLDER <= t {
        assert t[0] == NAMESPACE_PLACEHOLDER[0] == '$';
        assert r[0] == namespace[0];
        assert word[0] in word;
      } else {
        var r1 := ReplaceAll(t[1..], NAMESPACE_PLACEHOLDER, namespace);
        assert r == [t[0]] + r1 && r[1..] == r1;
        FrontKept(t[1..], word[1..], namespace);
        assert word == [word[0]] + word[1..] && t == [t[0]] + t[1..];
        if word <= t {
          assert word[1..] <= t[1..];
          assert r[|word|..] == r1[|word| - 1..] && t[|word|..] == t[1..][|word| - 1..];
        }
        if word <= r {
          assert word[1..] <= r1 by { assert r[1..] == r1; }
          assert word[0] == r[0];
        }
      }
    }
  }

  /** The two ordered passes equal the single longest-match pass. */
  lemma {:induction false} TwoPassesAreOne(s: string, namespace: string, name: string)
    requires namespace != "" && '$' !in namespace && namespace[0] !in "NAME"
    ensures TwoPasses(s, namespace, name) == OnePass(s, namespace, name)
    decreases |s|
  {
    var first := ReplaceAll(s, NAMESPACE_PLACEHOLDER, namespace);
    if s != "" {
      if NAMESPACE_PLACEHOLDER <= s {
        CopyDollarFree(namespace, ReplaceAll(s[10..], NAMESPACE_PLACEHOLDER, namespace), name);
        TwoPassesAreOne(s[10..], namespace, name);
      } else {
        var rest := ReplaceAll(s[1..], NAMESPACE_PLACEHOLDER, namespace);
        assert first == [s[0]] + rest && first[1..] == rest;
        FrontKept(s[1..], "NAME", namespace);
        assert NAME_PLACEHOLDER == "$" + "NAME";
        assert NAME_PLACEHOLDER <= s <==> s[0] == '$' && "NAME" <= s[1..] by { PrefixSplit(s); }
        assert NAME_PLACEHOLDER <= first <==> first[0] == '$' && "NAME" <= first[1..] by { PrefixSplit(first); }
        if NAME_PLACEHOLDER <= s {
          assert first[5..] == rest[4..] && s[5..] == s[1..][4..];
          TwoPassesAreOne(s[5..], namespace, name);
        } else {
          TwoPassesAreOne(s[1..], namespace, name);
        }
      }
    }
  }

  lemma {:induction false} PrefixSplit(s: string)
    requires s != ""
    ensures NAME_PLACEHOLDER <= s <==> s[0] == '$' && "NAME" <= s[1..]
  {
    assert s == [s[0]] + s[1..];
    assert NAME_PLACEHOLDER == ['$'] + "NAME";
    if "NAME" <= s[1..] && s[0] == '$' {
      assert s[1..] == "NAME" + s[1..][4..];
      assert s == NAME_PLACEHOLDER + s[1..][4..];
    }
    if NAME_PLACEHOLDER <= s {
      assert s[0] == NAME_PLACEHOLDER[0];
      assert s[1..][..4] == NAME_PLACEHOLDER[1..];
    }
  }

  ghost predicate NoPlaceholder(r: string) {
    forall i :: 0 <= i <= |r| ==> !(NAME_PLACEHOLDER <= r[i..])
  }

  lemma {:induction false} OnePassFront(t: string, word: string, namespace: string, name: string)
    requires '$' !in word && namespace != "" && namespace[0] !in word && name != "" && name[0] !in word
    requires word <= OnePass(t, namespace, name)
    ensures word <= t
  {
    var r := OnePass(t, namespace, name);
    if word != "" {
      assert word[0] in word && r[0] == word[0];
      if !(NAMESPACE_PLACEHOLDER <= t) && !(NAME_PLACEHOLDER <= t) {
        var r1 := OnePass(t[1..], namespace, name);
        assert r == [t[0]] + r1 && r[1..] == r1;
        assert word[1..] <= r1;
        OnePassFront(t[1..], word[1..], namespace, name);
        assert word == [word[0]] + word[1..] && t == [t[0]] + t[1..];
      }
    }
  }

  /** Putting dollar-free text in front of a text without placeholders makes no placeholder. */
  lemma {:induction false} PlaceholderBehind(a: string, r: string)
    requires '$' !in a && NoPlaceholder(r)
    ensures NoPlaceholder(a + r)
  {
    forall i | 0 <= i <= |a + r|
      ensures !(NAME_PLACEHOLDER <= (a + r)[i..])
    {
      assert NAME_PLACEHOLDER[0] == '$';
      if i < |a| {
        assert (a + r)[i..][0] == a[i];
      } else {
        assert (a + r)[i..] == r[i - |a|..];
      }
    }
  }

  /** No name placeholder survives. */
  lemma {:induction false} NoneSurvives(s: string, namespace: string, name: string)
    requires namespace != "" && '$' !in namespace && namespace[0] !in "NAME"
    requires name != "" && '$' !in name && name[0] !in "NAME"
    ensures NoPlaceholder(OnePass(s, namespace, name))
    decreases |s|
  {
    if s != "" {
      if NAMESPACE_PLACEHOLDER <= s {
        NoneSurvives(s[10..], namespace, name);
        PlaceholderBehind(namespace, OnePass(s[10..], namespace, name));
      } else if NAME_PLACEHOLDER <= s {
        NoneSurvives(s[5..], namespace, name);
        PlaceholderBehind(name, OnePass(s[5..], namespace, name));
      } else {
        var rest := OnePass(s[1..], namespace, name);
        var r := [s[0]] + rest;
        NoneSurvives(s[1..], namespace, name);
        forall i | 0 <= i <= |r|
          ensures !(NAME_PLACEHOLDER <= r[i..])
        {
          if i > 0 {
            assert r[i..] == rest[i - 1..];
          } else {
            assert r[0..] == r && r[1..] == rest;
            PrefixSplit(r);
            PrefixSplit(s);
            if r[0] == '$' && "NAME" <= rest {
              OnePassFront(s[1..], "NAME", namespace, name);
            }
          }
        }
      }
    }
  }

  const NAMESPACE_PATTERN := "(?P<NAMESPACE>[a-z0-9]" + "(?:[-a-z0-9]*[a-z0-9])?)"
  const NAME_PATTERN := "(?P<NAME>[a-z]" + "(?:[-a-z0-9]*[a-z0-9])?)"

  predicate Space(c: char) {
    c == ' ' || c == '\t' || c == '\n' || c == '\r' || c == '\U{0b}' || c == '\U{0c}'
  }

  function TrimSpace(s: string): string {
    if s != "" && Space(s[0]) then TrimSpace(s[1..])
    else if s != "" && Space(s[|s| - 1]) then TrimSpace(s[..|s| - 1])
    else s
  }

  /** The text handed to the expression compiler. */
  function PrepareRegex(regex: string): string {
    TwoPasses(TrimSpace(regex), NAMESPACE_PATTERN, NAME_PATTERN)
  }

  /**
   The ordered passes of PrepareRegex equal one longest-match pass over the placeholders, and no
   placeholder is left in the text.
   */
  lemma {:induction false} PrepareRegexMeaning(regex: string)
    ensures PrepareRegex(regex) == OnePass(TrimSpace(regex), NAMESPACE_PATTERN, NAME_PATTERN)
    ensures NoPlaceholder(PrepareRegex(regex))
  {
    PatternsDollarFree();
    TwoPassesAreOne(TrimSpace(regex), NAMESPACE_PATTERN, NAME_PATTERN);
    NoneSurvives(TrimSpace(regex), NAMESPACE_PATTERN, NAME_PATTERN);
  }

  lemma {:induction false} PatternsDollarFree()
    ensures '$' !in NAMESPACE_PATTERN && NAMESPACE_PATTERN != "" && NAMESPACE_PATTERN[0] !in "NAME"
    ensures '$' !in NAME_PATTERN && NAME_PATTERN != "" && NAME_PATTERN[0] !in "NAME"
  {
  }
}
