/**
 pkg/namecache/from_virtual_handler.go: what a virtual object puts into the name cache, and what follows
 for every lookup and every wake-up.
 */
module MappingSource {
  import opened Strings
  import opened Names
  import opened CacheLog
  import opened NameCaches
  import opened Regex

  /** A match of a patch path in a virtual object. */
  datatype Field = Field(scalar: bool, value: string)

  /** The parts of a patch the cache reads; an absent lookup result is a path that does not compile. */
  datatype Patch = Patch(rewriteName: bool, path: string, regex: Option<Regexp>)

  datatype VirtualObject = VirtualObject(namespace: string, name: string, find: string -> Option<seq<Field>>)

  /** One translated name found at one path. */
  datatype Fact = Fact(virtual: NamespacedName, path: string)

  type Physical = (string, string) -> string

  function Host(physical: Physical, v: NamespacedName): string {
    physical(v.name, v.namespace)
  }

  function AddSingleMapping(m: Mappings, virtualName: string, hostName: string, path: string): Mappings
    requires INDEX_NAME in m && INDEX_NAME_PATH in m
  {
    var m1 := m[INDEX_NAME := m[INDEX_NAME][hostName := virtualName]];
    m1[INDEX_NAME_PATH := m1[INDEX_NAME_PATH][PathKey(hostName, path) := virtualName]]
  }

  /** The mapping a list of facts adds up to; a later fact overwrites an earlier one. */
  function Collect(physical: Physical, facts: seq<Fact>): (m: Mappings)
    ensures m.Keys == {INDEX_NAME, INDEX_NAME_PATH}
  {
    if facts == [] then map[INDEX_NAME := map[], INDEX_NAME_PATH := map[]]
    else
      var f := facts[|facts| - 1];
      AddSingleMapping(Collect(physical, facts[..|facts| - 1]), Encode(f.virtual), Host(physical, f.virtual), f.path)
  }

  ghost predicate GoodRegex(re: Regexp) {
    forall input :: GoodMatches(re.groups, input, re.findAll(input))
  }

  ghost predicate GoodPatches(patches: seq<Patch>) {
    forall p :: p in patches && p.regex.Some? ==> GoodRegex(p.regex.value)
  }

  function CallFacts(obj: VirtualObject, path: string, calls: seq<NamespacedName>): seq<Fact> {
    if calls == [] then []
    else
      var c := calls[|calls| - 1];
      CallFacts(obj, path, calls[..|calls| - 1])
      + [Fact(NamespacedName(if c.namespace == "" then obj.namespace else c.namespace, c.name), path)]
  }

  ghost function FieldFacts(obj: VirtualObject, p: Patch, field: Field): seq<Fact>
    requires GoodPatches([p])
  {
    if !field.scalar then []
    else if p.regex.Some? then
      assert p in [p];
      CallFacts(obj, p.path, Calls(p.regex.value.groups, field.value, p.regex.value.findAll(field.value)))
    else [Fact(NamespacedName(obj.namespace, field.value), p.path)]
  }

  ghost function FieldsFacts(obj: VirtualObject, p: Patch, fields: seq<Field>): seq<Fact>
    requires GoodPatches([p])
  {
    if fields == [] then []
    else FieldsFacts(obj, p, fields[..|fields| - 1]) + FieldFacts(obj, p, fields[|fields| - 1])
  }

  /** Every name of the object that the cache learns, in order; none if some path does not compile. */
  ghost function Facts(obj: VirtualObject, patches: seq<Patch>): Option<seq<Fact>>
    requires GoodPatches(patches)
  {
    if patches == [] then Some([Fact(NamespacedName(obj.namespace, obj.name), METADATA_FIELD_PATH)])
    else
      var p := patches[|patches| - 1];
      var before := Facts(obj, patches[..|patches| - 1]);
      if before.None? || !p.rewriteName then before
      else if obj.find(p.path).None? then None
      else Some(before.value + FieldsFacts(obj, p, obj.find(p.path).value))
  }

  lemma {:induction false} CollectStep(physical: Physical, facts: seq<Fact>, f: Fact)
    ensures Collect(physical, facts + [f])
         == AddSingleMapping(Collect(physical, facts), Encode(f.virtual), Host(physical, f.virtual), f.path)
    ensures Collect(physical, []) == map[INDEX_NAME := map[], INDEX_NAME_PATH := map[]]
  {
    assert (facts + [f])[..|facts|] == facts;
  }

  // ----- where the names of an object stand

  /** The match names v: its name group, and its namespace group, or the object's own namespace if that is empty. */
  ghost predicate Captures(groups: seq<string>, text: string, m: seq<int>, own: string, v: NamespacedName)
    requires WellFormedMatch(groups, text, m)
  {
    NamedSpanWithin(groups, text, m, NAME_GROUP);
    NamedSpanWithin(groups, text, m, NAMESPACE_GROUP);
    var n, ns := NamedSpan(groups, m, NAME_GROUP), NamedSpan(groups, m, NAMESPACE_GROUP);
    && Took(n) && v.name == text[n.from..n.to]
    && v.namespace == if Took(ns) && ns.from < ns.to then text[ns.from..ns.to] else own
  }

  /** Match a in the field names v; without a regular expression the field is the name. */
  ghost predicate NamedAt(obj: VirtualObject, p: Patch, field: Field, a: nat, v: NamespacedName)
    requires p.regex.Some? ==> GoodRegex(p.regex.value)
  {
    && field.scalar
    && if p.regex.None? then a == 0 && v == NamespacedName(obj.namespace, field.value)
       else
         var all := p.regex.value.findAll(field.value);
         a < |all| && Captures(p.regex.value.groups, field.value, all[a], obj.namespace, v)
  }

  /** A place of a name: the name of the object itself, or a match in a field that a patch finds. */
  datatype Place = OwnName | InField(patch: nat, field: nat, hit: nat)

  /** The object has the name v at the place, under the path. */
  ghost predicate Bears(obj: VirtualObject, patches: seq<Patch>, at: Place, v: NamespacedName, path: string)
    requires GoodPatches(patches)
  {
    match at
    case OwnName => v == NamespacedName(obj.namespace, obj.name) && path == METADATA_FIELD_PATH
    case InField(k, j, a) =>
      && k < |patches| && patches[k].rewriteName && path == patches[k].path
      && obj.find(path).Some? && j < |obj.find(path).value|
      && NamedAt(obj, patches[k], obj.find(path).value[j], a, v)
  }

  /** The order in which the places are visited. */
  predicate Before(a: Place, b: Place) {
    && b.InField?
    && (a.OwnName? || a.patch < b.patch
        || (a.patch == b.patch && (a.field < b.field || (a.field == b.field && a.hit < b.hit))))
  }

  ghost predicate InOrder(places: seq<Place>) {
    forall i, j :: 0 <= i < j < |places| ==> Before(places[i], places[j])
  }

  lemma {:induction false} InOrderConcat(a: seq<Place>, b: seq<Place>)
    requires InOrder(a) && InOrder(b) && forall x, y :: x in a && y in b ==> Before(x, y)
    ensures InOrder(a + b)
  {
    var c := a + b;
    forall i, j | 0 <= i < j < |c|
      ensures Before(c[i], c[j])
    {
      assert c[i] == if i < |a| then a[i] else b[i - |a|];
      assert c[j] == if j < |a| then a[j] else b[j - |a|];
    }
  }

  /** The matches at these positions, and no others, name what the facts say. */
  ghost predicate Capturing(groups: seq<string>, text: string, all: seq<seq<int>>, own: string, path: string,
                            facts: seq<Fact>, at: seq<nat>)
    requires forall m :: m in all ==> WellFormedMatch(groups, text, m)
  {
    && |at| == |facts|
    && (forall i :: 0 <= i < |at| ==>
         at[i] < |all| && facts[i].path == path && Captures(groups, text, all[at[i]], own, facts[i].virtual))
    && (forall i, j :: 0 <= i < j < |at| ==> at[i] < at[j])
    && (forall a: nat, v :: a < |all| && Captures(groups, text, all[a], own, v) ==> a in at)
  }

  lemma {:induction false} CallsCapture(obj: VirtualObject, path: string, groups: seq<string>, text: string,
                                        all: seq<seq<int>>)
    returns (at: seq<nat>)
    requires forall m :: m in all ==> WellFormedMatch(groups, text, m)
    ensures Capturing(groups, text, all, obj.namespace, path, CallFacts(obj, path, Calls(groups, text, all)), at)
  {
    hide *;
    at := [];
    if all == [] {
      NoneCapturing(obj, path, groups, text);
    } else {
      var init, m := all[..|all| - 1], all[|all| - 1];
      var f := CallsStep(obj, path, groups, text, all);
      var before := CallsCapture(obj, path, groups, text, init);
      var facts := CallFacts(obj, path, Calls(groups, text, init));
      if Took(NamedSpan(groups, m, NAME_GROUP)) {
        CaptureNext(groups, text, all, obj.namespace, path, facts, before, f);
        at := before + [|init|];
      } else {
        CaptureNone(groups, text, all, obj.namespace, path, facts, before);
        at := before;
      }
    }
  }

  lemma {:induction false} NoneCapturing(obj: VirtualObject, path: string, groups: seq<string>, text: string)
    ensures Capturing(groups, text, [], obj.namespace, path, CallFacts(obj, path, Calls(groups, text, [])), [])
  {
  }

  lemma {:induction false} CaptureNext(groups: seq<string>, text: string, all: seq<seq<int>>, own: string, path: string,
                                       facts: seq<Fact>, before: seq<nat>, f: Fact)
    requires all != [] && forall m :: m in all ==> WellFormedMatch(groups, text, m)
    requires Capturing(groups, text, all[..|all| - 1], own, path, facts, before)
    requires all[|all| - 1] in all && Captures(groups, text, all[|all| - 1], own, f.virtual) && f.path == path
    ensures Capturing(groups, text, all, own, path, facts + [f], before + [|all| - 1])
  {
    hide WellFormedMatch, Captures;
    var k := |all| - 1;
    var at := before + [k];
    forall a: nat, v | a < |all| && Captures(groups, text, all[a], own, v)
      ensures a in at
    {
      assert a == k ==> at[|before|] == a;
      assert a < k ==> Captures(groups, text, all[..k][a], own, v);
    }
    forall i | 0 <= i < |at|
      ensures at[i] < |all| && (facts + [f])[i].path == path
      ensures Captures(groups, text, all[at[i]], own, (facts + [f])[i].virtual)
    {
      assert i < |before| ==> Captures(groups, text, all[..k][before[i]], own, facts[i].virtual);
    }
  }

  lemma {:induction false} CaptureNone(groups: seq<string>, text: string, all: seq<seq<int>>, own: string, path: string,
                                       facts: seq<Fact>, at: seq<nat>)
    requires all != [] && forall m :: m in all ==> WellFormedMatch(groups, text, m)
    requires Capturing(groups, text, all[..|all| - 1], own, path, facts, at)
    requires all[|all| - 1] in all && |all[|all| - 1]| == 2 * |groups|
    requires !Took(NamedSpan(groups, all[|all| - 1], NAME_GROUP))
    ensures Capturing(groups, text, all, own, path, facts, at)
  {
    var k := |all| - 1;
    assert forall v :: Captures(groups, text, all[k], own, v) ==> false;
    hide WellFormedMatch, Captures;
    forall a: nat, v | a < |all| && Captures(groups, text, all[a], own, v)
      ensures a in at
    {
      assert Captures(groups, text, all[..k][a], own, v);
    }
    forall i | 0 <= i < |at|
      ensures at[i] < |all| && facts[i].path == path && Captures(groups, text, all[at[i]], own, facts[i].virtual)
    {
      assert Captures(groups, text, all[..k][at[i]], own, facts[i].virtual);
    }
  }

  /** The last match adds the fact it names, if it names one. */
  lemma {:induction false} CallsStep(obj: VirtualObject, path: string, groups: seq<string>, text: string,
                                     all: seq<seq<int>>)
    returns (f: Fact)
    requires all != [] && forall m :: m in all ==> WellFormedMatch(groups, text, m)
    ensures all[|all| - 1] in all && |all[|all| - 1]| == 2 * |groups|
    ensures var facts := CallFacts(obj, path, Calls(groups, text, all[..|all| - 1]));
      CallFacts(obj, path, Calls(groups, text, all))
      == if Took(NamedSpan(groups, all[|all| - 1], NAME_GROUP)) then facts + [f] else facts
    ensures Took(NamedSpan(groups, all[|all| - 1], NAME_GROUP)) ==>
              f.path == path && Captures(groups, text, all[|all| - 1], obj.namespace, f.virtual)
  {
    var m := all[|all| - 1];
    assert m in all;
    NamedSpanWithin(groups, text, m, NAME_GROUP);
    NamedSpanWithin(groups, text, m, NAMESPACE_GROUP);
    hide GroupPos, NamedSpan, WellFormedMatch;
    var n, ns := NamedSpan(groups, m, NAME_GROUP), NamedSpan(groups, m, NAMESPACE_GROUP);
    var calls := Calls(groups, text, all[..|all| - 1]);
    var namespace := if Text(text, ns) == "" then obj.namespace else Text(text, ns);
    f := Fact(NamespacedName(namespace, Text(text, n)), path);
    if Took(n) {
      var more := calls + [NamespacedName(Text(text, ns), Text(text, n))];
      assert Calls(groups, text, all) == more && more[..|calls|] == calls;
    } else {
      assert calls + [] == calls;
    }
  }

  /** The facts of one field, and the matches that name them. */
  ghost predicate Naming(obj: VirtualObject, p: Patch, field: Field, facts: seq<Fact>, at: seq<nat>)
    requires p.regex.Some? ==> GoodRegex(p.regex.value)
  {
    && |at| == |facts|
    && (forall i :: 0 <= i < |at| ==> facts[i].path == p.path && NamedAt(obj, p, field, at[i], facts[i].virtual))
    && (forall i, j :: 0 <= i < j < |at| ==> at[i] < at[j])
    && (forall a, v :: NamedAt(obj, p, field, a, v) ==> a in at)
  }

  lemma {:induction false} FieldNaming(obj: VirtualObject, p: Patch, field: Field) returns (at: seq<nat>)
    requires GoodPatches([p])
    ensures p.regex.Some? ==> GoodRegex(p.regex.value)
    ensures Naming(obj, p, field, FieldFacts(obj, p, field), at)
  {
    assert p in [p];
    at := [];
    if field.scalar && p.regex.Some? {
      at := CallsCapture(obj, p.path, p.regex.value.groups, field.value, p.regex.value.findAll(field.value));
    } else if field.scalar {
      at := [0];
    }
  }

  /** The facts of the fields a patch finds, and their places. */
  ghost predicate Finding(obj: VirtualObject, p: Patch, k: nat, fields: seq<Field>, facts: seq<Fact>,
                          places: seq<Place>)
    requires p.regex.Some? ==> GoodRegex(p.regex.value)
  {
    && |places| == |facts|
    && (forall i :: 0 <= i < |places| ==> FoundIn(obj, p, k, fields, facts[i], places[i]))
    && InOrder(places)
    && (forall j: nat, a, v :: j < |fields| && NamedAt(obj, p, fields[j], a, v) ==> InField(k, j, a) in places)
  }

  ghost predicate FoundIn(obj: VirtualObject, p: Patch, k: nat, fields: seq<Field>, f: Fact, at: Place)
    requires p.regex.Some? ==> GoodRegex(p.regex.value)
  {
    && at.InField? && at.patch == k && at.field < |fields| && f.path == p.path
    && NamedAt(obj, p, fields[at.field], at.hit, f.virtual)
  }

  lemma {:induction false} FieldsFinding(obj: VirtualObject, p: Patch, k: nat, fields: seq<Field>)
    returns (places: seq<Place>)
    requires GoodPatches([p])
    ensures p.regex.Some? ==> GoodRegex(p.regex.value)
    ensures Finding(obj, p, k, fields, FieldsFacts(obj, p, fields), places)
  {
    assert p in [p];
    places := [];
    if fields != [] {
      var j := |fields| - 1;
      var init, last := fields[..j], fields[j];
      var before := FieldsFinding(obj, p, k, init);
      var at := FieldNaming(obj, p, last);
      places := FindingNext(obj, p, k, fields, FieldsFacts(obj, p, init), before, FieldFacts(obj, p, last), at);
    }
  }

  lemma {:induction false} FindingNext(obj: VirtualObject, p: Patch, k: nat, fields: seq<Field>, facts: seq<Fact>,
                                       before: seq<Place>, more: seq<Fact>, at: seq<nat>)
    returns (places: seq<Place>)
    requires p.regex.Some? ==> GoodRegex(p.regex.value)
    requires fields != [] && Finding(obj, p, k, fields[..|fields| - 1], facts, before)
    requires Naming(obj, p, fields[|fields| - 1], more, at)
    ensures Finding(obj, p, k, fields, facts + more, places)
  {
    hide NamedAt;
    var n := |fields| - 1;
    var here := seq(|at|, i requires 0 <= i < |at| => InField(k, n, at[i]));
    places := before + here;
    forall x, y | x in before && y in here
      ensures Before(x, y)
    {
      var i :| 0 <= i < |before| && before[i] == x;
      assert FoundIn(obj, p, k, fields[..n], facts[i], before[i]);
    }
    InOrderConcat(before, here);
    forall i | 0 <= i < |places|
      ensures FoundIn(obj, p, k, fields, (facts + more)[i], places[i])
    {
      if i < |before| {
        assert FoundIn(obj, p, k, fields[..n], facts[i], before[i]);
      } else {
        assert NamedAt(obj, p, fields[n], at[i - |before|], more[i - |before|].virtual);
      }
    }
    forall j: nat, a, v | j < |fields| && NamedAt(obj, p, fields[j], a, v)
      ensures InField(k, j, a) in places
    {
      if j < n {
        assert NamedAt(obj, p, fields[..n][j], a, v);
        assert InField(k, j, a) in before;
      } else {
        var i :| 0 <= i < |at| && at[i] == a;
        assert here[i] == InField(k, j, a);
      }
    }
  }

  /** The facts of an object stand at the places of its names, in order, and no place is left out. */
  ghost predicate Standing(obj: VirtualObject, patches: seq<Patch>, facts: seq<Fact>, places: seq<Place>)
    requires GoodPatches(patches)
  {
    && |places| == |facts|
    && (forall i :: 0 <= i < |facts| ==> Bears(obj, patches, places[i], facts[i].virtual, facts[i].path))
    && InOrder(places)
    && (forall at, v, path :: Bears(obj, patches, at, v, path) ==> at in places)
  }

  lemma {:induction false} FactsStanding(obj: VirtualObject, patches: seq<Patch>) returns (places: seq<Place>)
    requires GoodPatches(patches) && Facts(obj, patches).Some?
    ensures Standing(obj, patches, Facts(obj, patches).value, places)
  {
    if patches == [] {
      places := [OwnName];
    } else {
      var k := |patches| - 1;
      var init, p := patches[..k], patches[k];
      assert p in patches;
      hide Standing, Finding, GoodRegex, FieldsFacts;
      var before := FactsStanding(obj, init);
      if p.rewriteName {
        var more := FieldsFinding(obj, p, k, obj.find(p.path).value);
        StandingNext(obj, patches, Facts(obj, init).value, before,
            FieldsFacts(obj, p, obj.find(p.path).value), more);
        places := before + more;
      } else {
        places := before;
        StandingSame(obj, patches, Facts(obj, init).value, places);
      }
    }
  }

  lemma {:induction false} EarlierBears(obj: VirtualObject, patches: seq<Patch>, at: Place, v: NamespacedName,
                                        path: string)
    requires patches != [] && GoodPatches(patches) && GoodPatches(patches[..|patches| - 1])
    ensures at.OwnName? || at.patch != |patches| - 1 ==>
              (Bears(obj, patches, at, v, path) <==> Bears(obj, patches[..|patches| - 1], at, v, path))
  {
    hide NamedAt;
  }

  lemma {:induction false} StandingSame(obj: VirtualObject, patches: seq<Patch>, facts: seq<Fact>, places: seq<Place>)
    requires patches != [] && GoodPatches(patches) && GoodPatches(patches[..|patches| - 1])
    requires Standing(obj, patches[..|patches| - 1], facts, places) && !patches[|patches| - 1].rewriteName
    ensures Standing(obj, patches, facts, places)
  {
    var init := patches[..|patches| - 1];
    hide NamedAt;
    forall at, v, path | Bears(obj, patches, at, v, path)
      ensures at in places
    {
      EarlierBears(obj, patches, at, v, path);
      assert Bears(obj, init, at, v, path);
    }
    forall i | 0 <= i < |facts|
      ensures Bears(obj, patches, places[i], facts[i].virtual, facts[i].path)
    {
      assert Bears(obj, init, places[i], facts[i].virtual, facts[i].path);
    }
  }

  lemma {:induction false} StandingNext(obj: VirtualObject, patches: seq<Patch>, facts: seq<Fact>, before: seq<Place>,
                                        found: seq<Fact>, more: seq<Place>)
    requires patches != [] && GoodPatches(patches) && GoodPatches(patches[..|patches| - 1])
    requires Standing(obj, patches[..|patches| - 1], facts, before)
    requires var p := patches[|patches| - 1];
      && (p.regex.Some? ==> GoodRegex(p.regex.value)) && p.rewriteName && obj.find(p.path).Some?
      && Finding(obj, p, |patches| - 1, obj.find(p.path).value, found, more)
    ensures Standing(obj, patches, facts + found, before + more)
  {
    var places := before + more;
    hide Bears, FoundIn, GoodRegex;
    StandingEach(obj, patches, facts, before, found, more);
    forall x, y | x in before && y in more
      ensures Before(x, y)
    {
      var i :| 0 <= i < |before| && before[i] == x;
      var j :| 0 <= j < |more| && more[j] == y;
      assert places[i] == x && places[|before| + j] == y;
    }
    InOrderConcat(before, more);
    StandingAll(obj, patches, facts, before, found, more);
  }

  lemma {:induction false} StandingEach(obj: VirtualObject, patches: seq<Patch>, facts: seq<Fact>, before: seq<Place>,
                                        found: seq<Fact>, more: seq<Place>)
    requires patches != [] && GoodPatches(patches) && GoodPatches(patches[..|patches| - 1])
    requires Standing(obj, patches[..|patches| - 1], facts, before)
    requires var p := patches[|patches| - 1];
      && (p.regex.Some? ==> GoodRegex(p.regex.value)) && p.rewriteName && obj.find(p.path).Some?
      && Finding(obj, p, |patches| - 1, obj.find(p.path).value, found, more)
    ensures |before + more| == |facts + found|
    ensures forall i :: 0 <= i < |facts + found| ==>
              Bears(obj, patches, (before + more)[i], (facts + found)[i].virtual, (facts + found)[i].path)
    ensures forall i :: 0 <= i < |before| ==> before[i].OwnName? || before[i].patch < |patches| - 1
    ensures forall i :: 0 <= i < |more| ==> more[i].InField? && more[i].patch == |patches| - 1
  {
    var k := |patches| - 1;
    var init, p, places := patches[..k], patches[k], before + more;
    hide NamedAt;
    forall i | 0 <= i < |places|
      ensures Bears(obj, patches, places[i], (facts + found)[i].virtual, (facts + found)[i].path)
      ensures i < |before| ==> places[i].OwnName? || places[i].patch < k
      ensures i >= |before| ==> places[i].InField? && places[i].patch == k
    {
      if i < |before| {
        assert Bears(obj, init, before[i], facts[i].virtual, facts[i].path);
      } else {
        assert FoundIn(obj, p, k, obj.find(p.path).value, found[i - |before|], more[i - |before|]);
      }
    }
    assert forall i :: 0 <= i < |before| ==> before[i] == places[i];
    assert forall i :: 0 <= i < |more| ==> more[i] == places[|before| + i];
  }

  lemma {:induction false} StandingAll(obj: VirtualObject, patches: seq<Patch>, facts: seq<Fact>, before: seq<Place>,
                                       found: seq<Fact>, more: seq<Place>)
    requires patches != [] && GoodPatches(patches) && GoodPatches(patches[..|patches| - 1])
    requires Standing(obj, patches[..|patches| - 1], facts, before)
    requires var p := patches[|patches| - 1];
      && (p.regex.Some? ==> GoodRegex(p.regex.value)) && p.rewriteName && obj.find(p.path).Some?
      && Finding(obj, p, |patches| - 1, obj.find(p.path).value, found, more)
    ensures forall at, v, path :: Bears(obj, patches, at, v, path) ==> at in before + more
  {
    var k := |patches| - 1;
    hide NamedAt;
    forall at, v, path | Bears(obj, patches, at, v, path)
      ensures at in before + more
    {
      if at.InField? && at.patch == k {
        assert NamedAt(obj, patches[k], obj.find(path).value[at.field], at.hit, v);
      } else {
        EarlierBears(obj, patches, at, v, path);
        assert Bears(obj, patches[..k], at, v, path);
      }
    }
  }

  lemma {:induction false} BearsOne(obj: VirtualObject, patches: seq<Patch>, at: Place, v: NamespacedName, path: string,
                                    v': NamespacedName, path': string)
    requires GoodPatches(patches) && Bears(obj, patches, at, v, path) && Bears(obj, patches, at, v', path')
    ensures v == v' && path == path'
  {
    hide NamedSpan, WellFormedMatch, GoodRegex;
  }

  // ----- what the mapping of an object holds

  /** The name index has the host name h for the last place whose name has it. */
  ghost predicate NameFiled(physical: Physical, obj: VirtualObject, patches: seq<Patch>, m: Mappings, h: string,
                            at: Place, v: NamespacedName, path: string)
    requires GoodPatches(patches)
  {
    && Bears(obj, patches, at, v, path) && Host(physical, v) == h && Has(m, INDEX_NAME, h)
    && m[INDEX_NAME][h] == Encode(v)
    && forall at', v', path' :: Before(at, at') && Bears(obj, patches, at', v', path') ==> Host(physical, v') != h
  }

  ghost predicate PathFiled(physical: Physical, obj: VirtualObject, patches: seq<Patch>, m: Mappings, key: string,
                            at: Place, v: NamespacedName, path: string)
    requires GoodPatches(patches)
  {
    && Bears(obj, patches, at, v, path) && PathKey(Host(physical, v), path) == key && Has(m, INDEX_NAME_PATH, key)
    && m[INDEX_NAME_PATH][key] == Encode(v)
    && forall at', v', path' :: Before(at, at') && Bears(obj, patches, at', v', path') ==>
         PathKey(Host(physical, v'), path') != key
  }

  /**
   The mapping holds the host names of exactly the names that stand in the object, alone and with their paths;
   of several names with one host name the last one is filed.
   */
  ghost predicate Files(physical: Physical, obj: VirtualObject, patches: seq<Patch>, m: Mappings)
    requires GoodPatches(patches)
  {
    && m.Keys == {INDEX_NAME, INDEX_NAME_PATH}
    && (forall at, v, path :: Bears(obj, patches, at, v, path) ==>
         Has(m, INDEX_NAME, Host(physical, v)) && Has(m, INDEX_NAME_PATH, PathKey(Host(physical, v), path)))
    && (forall h :: Has(m, INDEX_NAME, h) ==>
         exists at, v, path :: NameFiled(physical, obj, patches, m, h, at, v, path))
    && (forall key :: Has(m, INDEX_NAME_PATH, key) ==>
         exists at, v, path :: PathFiled(physical, obj, patches, m, key, at, v, path))
  }

  /** A fact files its virtual name under its two keys and leaves all other keys as they are. */
  lemma {:induction false} CollectKey(physical: Physical, facts: seq<Fact>, f: Fact, byPath: bool, key: string)
    ensures var m, m' := Collect(physical, facts), Collect(physical, facts + [f]);
      && (Has(m', IndexOf(byPath), key) <==> KeyOf(physical, f, byPath) == key || Has(m, IndexOf(byPath), key))
      && (KeyOf(physical, f, byPath) == key ==> m'[IndexOf(byPath)][key] == Encode(f.virtual))
      && (KeyOf(physical, f, byPath) != key && Has(m, IndexOf(byPath), key) ==>
            m'[IndexOf(byPath)][key] == m[IndexOf(byPath)][key])
  {
    hide Encode, PathKey;
    IndicesDiffer();
    CollectStep(physical, facts, f);
  }

  lemma {:induction false} CollectNone(physical: Physical, byPath: bool, key: string)
    ensures !Has(Collect(physical, []), IndexOf(byPath), key)
  {
  }

  /** The last fact with the key is the one that is filed. */
  lemma {:induction false} LastFiled(physical: Physical, facts: seq<Fact>, byPath: bool, key: string) returns (i: nat)
    requires Has(Collect(physical, facts), IndexOf(byPath), key)
    ensures i < |facts| && KeyOf(physical, facts[i], byPath) == key
    ensures Collect(physical, facts)[IndexOf(byPath)][key] == Encode(facts[i].virtual)
    ensures forall j :: i < j < |facts| ==> KeyOf(physical, facts[j], byPath) != key
  {
    CollectNone(physical, byPath, key);
    hide Collect, Encode, KeyOf, IndexOf, AddSingleMapping;
    var init, last := facts[..|facts| - 1], facts[|facts| - 1];
    CollectKey(physical, init, last, byPath, key);
    assert facts == init + [last];
    if KeyOf(physical, last, byPath) == key {
      i := |facts| - 1;
    } else {
      i := LastFiled(physical, init, byPath, key);
    }
  }

  function IndexOf(byPath: bool): string {
    if byPath then INDEX_NAME_PATH else INDEX_NAME
  }

  function KeyOf(physical: Physical, f: Fact, byPath: bool): string {
    if byPath then PathKey(Host(physical, f.virtual), f.path) else Host(physical, f.virtual)
  }

  lemma {:induction false} CollectHas(physical: Physical, facts: seq<Fact>, f: Fact)
    requires f in facts
    ensures Has(Collect(physical, facts), INDEX_NAME_PATH, PathKey(Host(physical, f.virtual), f.path))
    ensures Has(Collect(physical, facts), INDEX_NAME, Host(physical, f.virtual))
  {
    var init, last := facts[..|facts| - 1], facts[|facts| - 1];
    IndicesDiffer();
    CollectStep(physical, init, last);
    assert facts == init + [last];
    if f != last {
      CollectHas(physical, init, f);
    }
  }

  /** The fact at a place. */
  lemma {:induction false} FactAt(obj: VirtualObject, patches: seq<Patch>, facts: seq<Fact>, places: seq<Place>,
                                  at: Place, v: NamespacedName, path: string)
    returns (i: nat)
    requires GoodPatches(patches) && Standing(obj, patches, facts, places) && Bears(obj, patches, at, v, path)
    ensures i < |facts| == |places| && places[i] == at && facts[i] == Fact(v, path)
  {
    hide Bears;
    assert at in places;
    i :| 0 <= i < |places| && places[i] == at;
    BearsOne(obj, patches, at, v, path, facts[i].virtual, facts[i].path);
  }

  /** A fact after another stands at a later place. */
  lemma {:induction false} LaterFact(obj: VirtualObject, patches: seq<Patch>, facts: seq<Fact>, places: seq<Place>,
                                     i: nat, at: Place, v: NamespacedName, path: string)
    returns (j: nat)
    requires GoodPatches(patches) && Standing(obj, patches, facts, places) && i < |places|
    requires Bears(obj, patches, at, v, path) && Before(places[i], at)
    ensures i < j < |facts| && facts[j] == Fact(v, path)
  {
    j := FactAt(obj, patches, facts, places, at, v, path);
    hide Bears;
  }

  lemma {:induction false} FactsFiled(physical: Physical, obj: VirtualObject, patches: seq<Patch>)
    requires GoodPatches(patches) && Facts(obj, patches).Some?
    ensures Files(physical, obj, patches, Collect(physical, Facts(obj, patches).value))
  {
    hide Standing, Bears, Facts, PathKey, Encode, NameFiled, PathFiled, Has, Host, GoodPatches;
    var facts := Facts(obj, patches).value;
    var m := Collect(physical, facts);
    assert m.Keys == {INDEX_NAME, INDEX_NAME_PATH};
    hide Collect;
    var places := FactsStanding(obj, patches);
    AllFiled(physical, obj, patches, facts, places);
    forall h | Has(m, INDEX_NAME, h)
      ensures exists at, v, path :: NameFiled(physical, obj, patches, m, h, at, v, path)
    {
      var at, v, path := NameLast(physical, obj, patches, facts, places, h);
    }
    forall key | Has(m, INDEX_NAME_PATH, key)
      ensures exists at, v, path :: PathFiled(physical, obj, patches, m, key, at, v, path)
    {
      var at, v, path := PathLast(physical, obj, patches, facts, places, key);
    }
  }

  lemma {:induction false} AllFiled(physical: Physical, obj: VirtualObject, patches: seq<Patch>, facts: seq<Fact>,
                                    places: seq<Place>)
    requires GoodPatches(patches) && Standing(obj, patches, facts, places)
    ensures var m := Collect(physical, facts);
      forall at, v, path :: Bears(obj, patches, at, v, path) ==>
        Has(m, INDEX_NAME, Host(physical, v)) && Has(m, INDEX_NAME_PATH, PathKey(Host(physical, v), path))
  {
    hide Standing, Bears, Collect, PathKey, Has;
    forall at, v, path | Bears(obj, patches, at, v, path)
      ensures Has(Collect(physical, facts), INDEX_NAME, Host(physical, v))
      ensures Has(Collect(physical, facts), INDEX_NAME_PATH, PathKey(Host(physical, v), path))
    {
      var i := FactAt(obj, patches, facts, places, at, v, path);
      CollectHas(physical, facts, facts[i]);
    }
  }

  lemma {:induction false} NameLast(physical: Physical, obj: VirtualObject, patches: seq<Patch>, facts: seq<Fact>,
                                    places: seq<Place>, h: string)
    returns (at: Place, v: NamespacedName, path: string)
    requires GoodPatches(patches) && Standing(obj, patches, facts, places)
    requires Has(Collect(physical, facts), INDEX_NAME, h)
    ensures NameFiled(physical, obj, patches, Collect(physical, facts), h, at, v, path)
  {
    hide Bears, Collect, Encode, PathKey;
    var i := LastFiled(physical, facts, false, h);
    at, v, path := places[i], facts[i].virtual, facts[i].path;
    assert Bears(obj, patches, at, v, path);
    hide Standing;
    forall at', v', path' | Before(at, at') && Bears(obj, patches, at', v', path')
      ensures Host(physical, v') != h
    {
      var j := LaterFact(obj, patches, facts, places, i, at', v', path');
      assert KeyOf(physical, facts[j], false) != h;
    }
  }

  lemma {:induction false} PathLast(physical: Physical, obj: VirtualObject, patches: seq<Patch>, facts: seq<Fact>,
                                    places: seq<Place>, key: string)
    returns (at: Place, v: NamespacedName, path: string)
    requires GoodPatches(patches) && Standing(obj, patches, facts, places)
    requires Has(Collect(physical, facts), INDEX_NAME_PATH, key)
    ensures PathFiled(physical, obj, patches, Collect(physical, facts), key, at, v, path)
  {
    hide Bears, Collect, Encode, PathKey;
    var i := LastFiled(physical, facts, true, key);
    at, v, path := places[i], facts[i].virtual, facts[i].path;
    assert Bears(obj, patches, at, v, path);
    hide Standing;
    forall at', v', path' | Before(at, at') && Bears(obj, patches, at', v', path')
      ensures PathKey(Host(physical, v'), path') != key
    {
      var j := LaterFact(obj, patches, facts, places, i, at', v', path');
      assert KeyOf(physical, facts[j], true) != key;
    }
  }

  /** The path of some rewrite patch does not compile. */
  ghost predicate Unreadable(obj: VirtualObject, patches: seq<Patch>) {
    exists p :: p in patches && p.rewriteName && obj.find(p.path).None?
  }

  /** The mapping fails exactly if a path does not compile. */
  lemma {:induction false} FactsFail(obj: VirtualObject, patches: seq<Patch>)
    requires GoodPatches(patches)
    ensures Facts(obj, patches).None? <==> Unreadable(obj, patches)
  {
    if patches != [] {
      var init, p := patches[..|patches| - 1], patches[|patches| - 1];
      FactsFail(obj, init);
      assert patches == init + [p];
    }
  }

  lemma {:induction false} FieldsStep(obj: VirtualObject, p: Patch, matches: seq<Field>, i: nat)
    requires GoodPatches([p]) && i <= |matches|
    ensures FieldsFacts(obj, p, matches[..0]) == []
    ensures i < |matches| ==>
              FieldsFacts(obj, p, matches[..i + 1])
                  == FieldsFacts(obj, p, matches[..i]) + FieldFacts(obj, p, matches[i])
  {
    if i < |matches| {
      assert matches[..i + 1][..i] == matches[..i];
    }
  }

  lemma {:induction false} FactsNone(obj: VirtualObject, patches: seq<Patch>, k: nat)
    requires GoodPatches(patches) && k <= |patches| && GoodPatches(patches[..k]) && Facts(obj, patches[..k]).None?
    ensures Facts(obj, patches).None?
    decreases |patches|
  {
    if k < |patches| {
      assert patches[..|patches| - 1][..k] == patches[..k];
      FactsNone(obj, patches[..|patches| - 1], k);
    } else {
      assert patches[..k] == patches;
    }
  }

  method MappingsFromVirtualObject(physical: Physical, obj: VirtualObject, patches: seq<Patch>)
    returns (r: Option<Mappings>)
    requires GoodPatches(patches)
    ensures r == var facts := Facts(obj, patches); if facts.None? then None else Some(Collect(physical, facts.value))
    ensures r.None? <==> Unreadable(obj, patches)
    ensures r.Some? ==> Files(physical, obj, patches, r.value)
  {
    hide Files, Bears, Unreadable, Collect, AddSingleMapping, FieldsFacts, FieldFacts;
    var mappings: Mappings := map[INDEX_NAME := map[], INDEX_NAME_PATH := map[]];

    mappings := AddSingleMapping(mappings, obj.namespace + "/" + obj.name, physical(obj.name, obj.namespace),
        METADATA_FIELD_PATH);
    ghost var facts := [Fact(NamespacedName(obj.namespace, obj.name), METADATA_FIELD_PATH)];
    CollectStep(physical, [], facts[0]);
    assert [] + [facts[0]] == facts;

    for k := 0 to |patches|
      invariant Facts(obj, patches[..k]) == Some(facts)
      invariant mappings == Collect(physical, facts)
    {
      var p := patches[k];
      assert patches[..k + 1][..k] == patches[..k];
      if !p.rewriteName {
        continue;
      }
      var found := obj.find(p.path);
      if found.None? {
        FactsNone(obj, patches, k + 1);
        FactsFail(obj, patches);
        return None;
      }
      var matches := found.value;
      ghost var before := facts;
      assert p in patches;
      assert before + [] == before;
      FieldsStep(obj, p, matches, 0);
      for i := 0 to |matches|
        invariant facts == before + FieldsFacts(obj, p, matches[..i])
        invariant mappings == Collect(physical, facts)
      {
        FieldsStep(obj, p, matches, i);
        mappings := AddField(physical, obj, p, matches[i], mappings, facts);
        facts := facts + FieldFacts(obj, p, matches[i]);
        Assoc(before, FieldsFacts(obj, p, matches[..i]), FieldFacts(obj, p, matches[i]));
      }
      assert matches[..|matches|] == matches;
    }
    assert patches[..|patches|] == patches;
    FactsFail(obj, patches);
    FactsFiled(physical, obj, patches);
    return Some(mappings);
  }

  /** The body of the loop over the matches; the regular expression reports its names one after the other. */
  method AddField(physical: Physical, obj: VirtualObject, p: Patch, m: Field, given: Mappings, ghost facts: seq<Fact>)
    returns (mappings: Mappings)
    requires GoodPatches([p]) && given == Collect(physical, facts)
    ensures mappings == Collect(physical, facts + FieldFacts(obj, p, m))
  {
    hide Collect, AddSingleMapping;
    mappings := given;
    assert facts + [] == facts;
    assert p in [p];
    if m.scalar {
      if p.regex.Some? {
        var calls := Calls(p.regex.value.groups, m.value, p.regex.value.findAll(m.value));
        for i := 0 to |calls|
          invariant mappings == Collect(physical, facts + CallFacts(obj, p.path, calls[..i]))
        {
          assert calls[..i + 1][..i] == calls[..i];
          var name, namespace := calls[i].name, calls[i].namespace;
          if namespace == "" {
            namespace := obj.namespace;
          }
          ghost var f := Fact(NamespacedName(namespace, name), p.path);
          CollectStep(physical, facts + CallFacts(obj, p.path, calls[..i]), f);
          Assoc(facts, CallFacts(obj, p.path, calls[..i]), [f]);
          mappings := AddSingleMapping(mappings, namespace + "/" + name, physical(name, namespace), p.path);
        }
        assert calls[..|calls|] == calls;
      } else {
        CollectStep(physical, facts, Fact(NamespacedName(obj.namespace, m.value), p.path));
        mappings := AddSingleMapping(mappings, obj.namespace + "/" + m.value, physical(m.value, obj.namespace), p.path);
      }
    }
  }

  // ----- what holds of every mapping so built

  /** Entry h of the name index comes from virtual name v, and the path index has h under path p too. */
  ghost predicate NameSource(physical: Physical, m: Mappings, h: string, v: NamespacedName, p: string) {
    Has(m, INDEX_NAME, h) && m[INDEX_NAME][h] == Encode(v) && Host(physical, v) == h
        && Has(m, INDEX_NAME_PATH, PathKey(h, p))
  }

  ghost predicate PathSource(physical: Physical, m: Mappings, key: string, v: NamespacedName, p: string) {
    Has(m, INDEX_NAME_PATH, key) && m[INDEX_NAME_PATH][key] == Encode(v) && key == PathKey(Host(physical, v), p)
  }

  /** Every cached value maps forward to the host name it is filed under. */
  ghost predicate Forward(physical: Physical, m: Mappings) {
    && (forall h :: Has(m, INDEX_NAME, h) ==> exists v, p :: NameSource(physical, m, h, v, p))
    && (forall k :: Has(m, INDEX_NAME_PATH, k) ==> exists v, p :: PathSource(physical, m, k, v, p))
  }

  lemma {:induction false} AddForward(physical: Physical, m0: Mappings, f: Fact)
    requires m0.Keys == {INDEX_NAME, INDEX_NAME_PATH} && Forward(physical, m0)
    ensures Forward(physical, AddSingleMapping(m0, Encode(f.virtual), Host(physical, f.virtual), f.path))
  {
    var host := Host(physical, f.virtual);
    var m := AddSingleMapping(m0, Encode(f.virtual), host, f.path);
    IndicesDiffer();
    hide Encode, PathKey;
    assert NameSource(physical, m, host, f.virtual, f.path);
    assert PathSource(physical, m, PathKey(host, f.path), f.virtual, f.path);
    forall h | Has(m, INDEX_NAME, h) && h != host
      ensures exists v, p :: NameSource(physical, m, h, v, p)
    {
      assert Has(m0, INDEX_NAME, h);
      var v, p :| NameSource(physical, m0, h, v, p);
      assert NameSource(physical, m, h, v, p);
    }
    forall k | Has(m, INDEX_NAME_PATH, k) && k != PathKey(host, f.path)
      ensures exists v, p :: PathSource(physical, m, k, v, p)
    {
      assert Has(m0, INDEX_NAME_PATH, k);
      var v, p :| PathSource(physical, m0, k, v, p);
      assert PathSource(physical, m, k, v, p);
    }
  }

  lemma {:induction false} CollectForward(physical: Physical, facts: seq<Fact>)
    ensures Forward(physical, Collect(physical, facts))
  {
    if facts != [] {
      var init, f := facts[..|facts| - 1], facts[|facts| - 1];
      CollectForward(physical, init);
      AddForward(physical, Collect(physical, init), f);
    }
  }

  ghost predicate AllForward(physical: Physical, log: Log) {
    forall o :: o in log ==> Forward(physical, o.mappings) && o.name != ""
  }

  /** Translating slash-free names never introduces a slash. */
  ghost predicate SlashFree(physical: Physical) {
    forall v: NamespacedName :: '/' !in v.name && '/' !in v.namespace ==> '/' !in Host(physical, v)
  }

  /** The mapping holds the virtual name somewhere. */
  ghost predicate Mentions(physical: Physical, m: Mappings, v: NamespacedName) {
    exists key, p :: NameSource(physical, m, key, v, p) || PathSource(physical, m, key, v, p)
  }

  ghost predicate Mentioned(physical: Physical, log: Log, v: NamespacedName) {
    exists o :: o in log && Mentions(physical, o.mappings, v)
  }

  /** A host name that resolves gives a cached virtual name that maps forward to that host name. */
  lemma {:induction false} ResolveNameForward(physical: Physical, log: Log, h: string)
    requires AllForward(physical, log)
    requires Resolve(log, INDEX_NAME, h).name != ""
    ensures Host(physical, Resolve(log, INDEX_NAME, h)) == h
    ensures Mentioned(physical, log, Resolve(log, INDEX_NAME, h))
  {
    var k := ProjectFirst(log, INDEX_NAME, h);
    assert log[k] in log;
    var v, p :| NameSource(physical, log[k].mappings, h, v, p);
    DecodeEncode(v);
    assert Mentions(physical, log[k].mappings, v);
  }

  lemma {:induction false} ResolveNamePathForward(physical: Physical, log: Log, h: string, path: string)
    requires AllForward(physical, log) && SlashFree(physical) && '/' !in h
    requires Resolve(log, INDEX_NAME_PATH, PathKey(h, path)).name != ""
    ensures Host(physical, Resolve(log, INDEX_NAME_PATH, PathKey(h, path))) == h
    ensures Mentioned(physical, log, Resolve(log, INDEX_NAME_PATH, PathKey(h, path)))
  {
    var key := PathKey(h, path);
    var k := ProjectFirst(log, INDEX_NAME_PATH, key);
    assert log[k] in log;
    var v, p :| PathSource(physical, log[k].mappings, key, v, p);
    DecodeEncode(v);
    PathKeyInjective(h, path, Host(physical, v), p);
    assert Mentions(physical, log[k].mappings, v);
  }
}
