/** When every name of a live object that is translated to the host and back returns unchanged. */
module RoundTrips {
  import opened Strings
  import opened Names
  import opened CacheLog
  import opened MappingSource

  /** No two of the names share a host name. */
  ghost predicate OneName(physical: Physical, names: iset<NamespacedName>) {
    forall v, v' :: v in names && v' in names && Host(physical, v) == Host(physical, v') ==> v == v'
  }

  // ----- what the handlers file

  /** What the handlers file for one virtual object: its own name first, then the names in its fields. */
  datatype Filed = Filed(obj: NamespacedName, fields: seq<Fact>)

  function AllFacts(d: Filed): seq<Fact> {
    [Fact(d.obj, METADATA_FIELD_PATH)] + d.fields
  }

  function EntryOf(physical: Physical, d: Filed): IndexMappings {
    IndexMappings(Encode(d.obj), Collect(physical, AllFacts(d)))
  }

  function LogOf(physical: Physical, filed: seq<Filed>): (log: Log)
    ensures |log| == |filed| && forall i :: 0 <= i < |filed| ==> log[i] == EntryOf(physical, filed[i])
  {
    seq(|filed|, i requires 0 <= i < |filed| => EntryOf(physical, filed[i]))
  }

  /** The names of every object are filed in this form, whatever its fields and patches. */
  lemma {:induction false} HandlersFile(physical: Physical, obj: VirtualObject, patches: seq<Patch>)
    requires GoodPatches(patches) && Facts(obj, patches).Some?
    ensures var facts := Facts(obj, patches).value;
      && facts != []
      && IndexMappings(obj.namespace + "/" + obj.name, Collect(physical, facts))
           == EntryOf(physical, Filed(NamespacedName(obj.namespace, obj.name), facts[1..]))
    ensures forall f :: f in AllFacts(Filed(NamespacedName(obj.namespace, obj.name), Facts(obj, patches).value[1..]))
              <==> exists at :: Bears(obj, patches, at, f.virtual, f.path)
  {
    OwnNameFirst(obj, patches);
    FactsBorne(obj, patches);
    hide Facts, Collect, Bears;
    var facts := Facts(obj, patches).value;
    assert facts == [facts[0]] + facts[1..];
  }

  /** The facts of an object are the names that stand in it. */
  lemma {:induction false} FactsBorne(obj: VirtualObject, patches: seq<Patch>)
    requires GoodPatches(patches) && Facts(obj, patches).Some?
    ensures forall f :: f in Facts(obj, patches).value <==> exists at :: Bears(obj, patches, at, f.virtual, f.path)
  {
    var facts := Facts(obj, patches).value;
    var places := FactsStanding(obj, patches);
    hide Bears, Facts;
    forall f | f in facts
      ensures exists at :: Bears(obj, patches, at, f.virtual, f.path)
    {
      var i :| 0 <= i < |facts| && facts[i] == f;
      assert Bears(obj, patches, places[i], f.virtual, f.path);
    }
    forall f: Fact, at | Bears(obj, patches, at, f.virtual, f.path)
      ensures f in facts
    {
      var i := FactAt(obj, patches, facts, places, at, f.virtual, f.path);
    }
  }

  lemma {:induction false} OwnNameFirst(obj: VirtualObject, patches: seq<Patch>)
    requires GoodPatches(patches) && Facts(obj, patches).Some?
    ensures Facts(obj, patches).value != []
    ensures Facts(obj, patches).value[0] == Fact(NamespacedName(obj.namespace, obj.name), METADATA_FIELD_PATH)
  {
    if patches != [] {
      OwnNameFirst(obj, patches[..|patches| - 1]);
    }
  }

  /** The cache holds live objects of distinct names, and learns no name outside the set. */
  ghost predicate LearnedFrom(names: iset<NamespacedName>, filed: seq<Filed>) {
    && (forall i, j :: 0 <= i < j < |filed| ==> filed[i].obj != filed[j].obj)
    && (forall d, f :: d in filed && f in AllFacts(d) ==> f.virtual in names)
  }

  /** Every filed name, translated to the host and looked up there, with its path or without, is the name again. */
  ghost predicate ComesBack(physical: Physical, filed: seq<Filed>) {
    forall d, f :: d in filed && f in AllFacts(d) ==>
      && Resolve(LogOf(physical, filed), INDEX_NAME_PATH, PathKey(Host(physical, f.virtual), f.path)) == f.virtual
      && Resolve(LogOf(physical, filed), INDEX_NAME, Host(physical, f.virtual)) == f.virtual
  }

  // ----- the round trip

  ghost predicate SlashFreeNames(names: iset<NamespacedName>) {
    forall v :: v in names ==> '/' !in v.name && '/' !in v.namespace
  }

  /** The first object that has the key answers for it. */
  lemma {:induction false} FirstAnswers(log: Log, index: string, key: string, v: NamespacedName)
    requires log != [] && Has(log[0].mappings, index, key) && log[0].mappings[index][key] == Encode(v)
    requires '/' !in v.name && '/' !in v.namespace
    ensures Resolve(log, index, key) == v
  {
    ProjectEmpty(log, index, key);
    assert log[0] in log;
    var k := ProjectFirst(log, index, key);
    DecodeEncode(v);
  }

  /** Names without a common host name come back from everything the cache can have learned of them. */
  lemma {:induction false} DistinctComeBack(physical: Physical, names: iset<NamespacedName>, filed: seq<Filed>)
    requires SlashFree(physical) && SlashFreeNames(names) && OneName(physical, names) && LearnedFrom(names, filed)
    ensures ComesBack(physical, filed)
  {
    hide Resolve, Collect;
    forall d, f | d in filed && f in AllFacts(d)
      ensures Resolve(LogOf(physical, filed), INDEX_NAME_PATH, PathKey(Host(physical, f.virtual), f.path)) == f.virtual
      ensures Resolve(LogOf(physical, filed), INDEX_NAME, Host(physical, f.virtual)) == f.virtual
    {
      var i :| 0 <= i < |filed| && filed[i] == d;
      CollectHas(physical, AllFacts(d), f);
      assert LogOf(physical, filed)[i] in LogOf(physical, filed);
      OneAnswers(physical, names, filed, f, true);
      OneAnswers(physical, names, filed, f, false);
    }
  }

  /** A key of a name that some object holds leads to the name, since no other name has the key. */
  lemma {:induction false} OneAnswers(physical: Physical, names: iset<NamespacedName>, filed: seq<Filed>, f: Fact,
                                      byPath: bool)
    requires SlashFree(physical) && SlashFreeNames(names) && OneName(physical, names) && LearnedFrom(names, filed)
    requires f.virtual in names
    requires exists o :: o in LogOf(physical, filed) && Has(o.mappings, IndexOf(byPath), KeyOf(physical, f, byPath))
    ensures Resolve(LogOf(physical, filed), IndexOf(byPath), KeyOf(physical, f, byPath)) == f.virtual
  {
    var log, index, key := LogOf(physical, filed), IndexOf(byPath), KeyOf(physical, f, byPath);
    ProjectEmpty(log, index, key);
    var k := ProjectFirst(log, index, key);
    assert filed[k] in filed;
    var facts := AllFacts(filed[k]);
    var i := LastFiled(physical, facts, byPath, key);
    assert facts[i] in facts;
    KeyOfOne(physical, names, f, facts[i], byPath);
    DecodeEncode(f.virtual);
    hide Collect, PathKey, Encode, StringToNamespacedName, Project, AllFacts;
  }

  lemma {:induction false} KeyOfOne(physical: Physical, names: iset<NamespacedName>, f: Fact, g: Fact, byPath: bool)
    requires SlashFree(physical) && SlashFreeNames(names) && OneName(physical, names) && f.virtual in names
    requires g.virtual in names && KeyOf(physical, f, byPath) == KeyOf(physical, g, byPath)
    ensures f.virtual == g.virtual && (byPath ==> f.path == g.path)
  {
    if byPath {
      PathKeyInjective(Host(physical, f.virtual), f.path, Host(physical, g.virtual), g.path);
    }
  }

  /** Of two names with a common host name, the one learned first answers for both. */
  lemma {:induction false} SharedDoesNotComeBack(physical: Physical, a: NamespacedName, b: NamespacedName)
    requires a != b && Host(physical, a) == Host(physical, b) && '/' !in a.name && '/' !in a.namespace
    ensures !ComesBack(physical, [Filed(a, []), Filed(b, [])])
  {
    hide Resolve, Collect, PathKey, Encode;
    var filed, f := [Filed(a, []), Filed(b, [])], Fact(b, METADATA_FIELD_PATH);
    OwnFiled(physical, a);
    FirstAnswers(LogOf(physical, filed), INDEX_NAME_PATH, PathKey(Host(physical, a), METADATA_FIELD_PATH), a);
    assert filed[1] in filed && f in AllFacts(filed[1]);
    assert Resolve(LogOf(physical, filed), INDEX_NAME_PATH, PathKey(Host(physical, f.virtual), f.path)) != f.virtual;
  }

  lemma {:induction false} TwoLearned(names: iset<NamespacedName>, a: NamespacedName, b: NamespacedName)
    requires a in names && b in names && a != b
    ensures LearnedFrom(names, [Filed(a, []), Filed(b, [])])
  {
  }

  lemma {:induction false} OwnFiled(physical: Physical, v: NamespacedName)
    ensures var m, key := EntryOf(physical, Filed(v, [])).mappings, PathKey(Host(physical, v), METADATA_FIELD_PATH);
      Has(m, INDEX_NAME_PATH, key) && m[INDEX_NAME_PATH][key] == Encode(v)
  {
    IndicesDiffer();
    CollectStep(physical, [], Fact(v, METADATA_FIELD_PATH));
    assert [] + [Fact(v, METADATA_FIELD_PATH)] == AllFacts(Filed(v, []));
  }

  ghost predicate AlwaysComesBack(physical: Physical, names: iset<NamespacedName>) {
    forall filed :: LearnedFrom(names, filed) ==> ComesBack(physical, filed)
  }

  /**
   In every cache content learned from the names every live name comes back, exactly if no two of them share
   a host name.
   */
  lemma {:induction false} RoundTripExactly(physical: Physical, names: iset<NamespacedName>)
    requires SlashFree(physical) && SlashFreeNames(names)
    ensures AlwaysComesBack(physical, names) <==> OneName(physical, names)
  {
    if OneName(physical, names) {
      hide LearnedFrom, ComesBack, SlashFree, SlashFreeNames;
      forall filed | LearnedFrom(names, filed)
        ensures ComesBack(physical, filed)
      {
        DistinctComeBack(physical, names, filed);
      }
    } else {
      var a, b :| a in names && b in names && Host(physical, a) == Host(physical, b) && a != b;
      hide ComesBack, LearnedFrom;
      SharedDoesNotComeBack(physical, a, b);
      TwoLearned(names, a, b);
      var filed := [Filed(a, []), Filed(b, [])];
      assert LearnedFrom(names, filed) && !ComesBack(physical, filed);
    }
  }

  ghost function AllNames(): iset<NamespacedName> {
    iset v: NamespacedName | '/' !in v.name && '/' !in v.namespace
  }

  /** A translation brings every name back, whatever the cache has learned, exactly if it is injective. */
  lemma {:induction false} InjectiveRoundTrip(physical: Physical)
    requires SlashFree(physical)
    ensures AlwaysComesBack(physical, AllNames())
      <==> forall v: NamespacedName, v': NamespacedName ::
             v in AllNames() && v' in AllNames() && Host(physical, v) == Host(physical, v') ==> v == v'
  {
    hide AlwaysComesBack;
    RoundTripExactly(physical, AllNames());
  }

  // ----- what the cache can hold

  /** What the handlers are told: an object is new or has changed, or one is gone. */
  datatype Event = Changed(obj: VirtualObject) | Gone(name: NamespacedName)

  /** What an event makes of the cache content, as the handlers leave it. */
  ghost function ContentNext(physical: Physical, patches: seq<Patch>, before: Log, e: Event): Log
    requires GoodPatches(patches)
  {
    match e
    case Changed(obj) =>
      var facts := Facts(obj, patches);
      if facts.None? then before
      else Exchanged(before, IndexMappings(obj.namespace + "/" + obj.name, Collect(physical, facts.value)))
    case Gone(name) => Without(before, Encode(name))
  }

  ghost function ContentAfter(physical: Physical, patches: seq<Patch>, events: seq<Event>): Log
    requires GoodPatches(patches)
  {
    if events == [] then []
    else
      var n := |events| - 1;
      ContentNext(physical, patches, ContentAfter(physical, patches, events[..n]), events[n])
  }

  /** Names of objects hold no slash, and every name found in an object is in the set. */
  ghost predicate GoodEvent(patches: seq<Patch>, names: iset<NamespacedName>, e: Event)
    requires GoodPatches(patches)
  {
    match e
    case Changed(obj) =>
      && '/' !in obj.namespace && '/' !in obj.name
      && (Facts(obj, patches).Some? ==> forall at, v, path :: Bears(obj, patches, at, v, path) ==> v in names)
    case Gone(v) => '/' !in v.namespace && '/' !in v.name
  }

  ghost predicate SlashFreeObjects(filed: seq<Filed>) {
    forall d :: d in filed ==> '/' !in d.obj.namespace && '/' !in d.obj.name
  }

  function Others(filed: seq<Filed>, obj: NamespacedName): seq<Filed> {
    if filed == [] then []
    else
      var d := filed[|filed| - 1];
      Others(filed[..|filed| - 1], obj) + if d.obj == obj then [] else [d]
  }

  lemma {:induction false} OthersAre(filed: seq<Filed>, obj: NamespacedName)
    ensures forall d :: d in Others(filed, obj) <==> d in filed && d.obj != obj
  {
    if filed != [] {
      OthersAre(filed[..|filed| - 1], obj);
      assert filed == filed[..|filed| - 1] + [filed[|filed| - 1]];
    }
  }

  ghost predicate DistinctObjects(filed: seq<Filed>) {
    forall i, j :: 0 <= i < j < |filed| ==> filed[i].obj != filed[j].obj
  }

  lemma {:induction false} OthersDistinct(filed: seq<Filed>, obj: NamespacedName)
    requires DistinctObjects(filed)
    ensures DistinctObjects(Others(filed, obj))
  {
    if filed != [] {
      var init, d := filed[..|filed| - 1], filed[|filed| - 1];
      OthersDistinct(init, obj);
      OthersAre(init, obj);
      var r := Others(init, obj);
      forall i | 0 <= i < |r|
        ensures r[i].obj != d.obj
      {
        assert r[i] in init;
        var j :| 0 <= j < |init| && init[j] == r[i];
        assert filed[j].obj != filed[|filed| - 1].obj;
      }
    }
  }

  /** Taking an object out of the cache takes out what was filed for it. */
  lemma {:induction false} WithoutFiled(physical: Physical, filed: seq<Filed>, obj: NamespacedName)
    requires SlashFreeObjects(filed) && '/' !in obj.namespace && '/' !in obj.name
    ensures CacheLog.Without(LogOf(physical, filed), Encode(obj)) == LogOf(physical, Others(filed, obj))
  {
    if filed != [] {
      hide EntryOf, Encode, StringToNamespacedName;
      var init, d := filed[..|filed| - 1], filed[|filed| - 1];
      assert d in filed;
      WithoutFiled(physical, init, obj);
      DecodeEncode(d.obj);
      DecodeEncode(obj);
      assert EntryOf(physical, d).name == Encode(d.obj) by { EntryNamed(physical, d); }
      assert LogOf(physical, filed)[..|filed| - 1] == LogOf(physical, init);
      assert LogOf(physical, Others(init, obj) + [d]) == LogOf(physical, Others(init, obj)) + [EntryOf(physical, d)];
    }
  }

  lemma {:induction false} EntryNamed(physical: Physical, d: Filed)
    ensures EntryOf(physical, d).name == Encode(d.obj) && EntryOf(physical, d).mappings != map[]
  {
    assert INDEX_NAME in EntryOf(physical, d).mappings;
  }

  /**
   Whatever the handlers are told, the cache holds what was filed for objects of distinct names, and learns no
   name that was in none of them.
   */
  lemma {:induction false} ContentIsFiled(physical: Physical, patches: seq<Patch>, names: iset<NamespacedName>,
                                          events: seq<Event>)
    returns (filed: seq<Filed>)
    requires GoodPatches(patches) && forall e :: e in events ==> GoodEvent(patches, names, e)
    ensures ContentAfter(physical, patches, events) == LogOf(physical, filed)
    ensures LearnedFrom(names, filed) && SlashFreeObjects(filed)
  {
    filed := [];
    if events != [] {
      var init, e := events[..|events| - 1], events[|events| - 1];
      assert e in events;
      var before := ContentIsFiled(physical, patches, names, init);
      match e
      case Changed(obj) =>
        filed := before;
        if Facts(obj, patches).Some? {
          HandlersFile(physical, obj, patches);
          FactsBorne(obj, patches);
          var d := Filed(NamespacedName(obj.namespace, obj.name), Facts(obj, patches).value[1..]);
          OwnNameFirst(obj, patches);
          assert AllFacts(d) == Facts(obj, patches).value;
          filed := FiledNext(physical, names, before, d);
        }
      case Gone(name) =>
        WithoutFiled(physical, before, name);
        OthersAre(before, name);
        OthersDistinct(before, name);
        filed := Others(before, name);
    }
  }

  lemma {:induction false} FiledNext(physical: Physical, names: iset<NamespacedName>, before: seq<Filed>, d: Filed)
    returns (filed: seq<Filed>)
    requires LearnedFrom(names, before) && SlashFreeObjects(before) && '/' !in d.obj.namespace && '/' !in d.obj.name
    requires forall f :: f in AllFacts(d) ==> f.virtual in names
    ensures Exchanged(LogOf(physical, before), EntryOf(physical, d)) == LogOf(physical, filed)
    ensures LearnedFrom(names, filed) && SlashFreeObjects(filed)
  {
    hide EntryOf, LearnedFrom, SlashFreeObjects, AllFacts, Others;
    filed := before;
    if EntryOf(physical, d) !in LogOf(physical, before) {
      filed := Others(before, d.obj) + [d];
      FiledLast(names, before, d);
      WithoutFiled(physical, before, d.obj);
      EntryNamed(physical, d);
      assert LogOf(physical, filed) == LogOf(physical, Others(before, d.obj)) + [EntryOf(physical, d)];
    }
  }

  lemma {:induction false} FiledLast(names: iset<NamespacedName>, before: seq<Filed>, d: Filed)
    requires LearnedFrom(names, before) && SlashFreeObjects(before) && '/' !in d.obj.namespace && '/' !in d.obj.name
    requires forall f :: f in AllFacts(d) ==> f.virtual in names
    ensures LearnedFrom(names, Others(before, d.obj) + [d]) && SlashFreeObjects(Others(before, d.obj) + [d])
  {
    hide AllFacts;
    OthersAre(before, d.obj);
    OthersDistinct(before, d.obj);
    var others, filed := Others(before, d.obj), Others(before, d.obj) + [d];
    forall i, j | 0 <= i < j < |filed|
      ensures filed[i].obj != filed[j].obj
    {
      assert filed[i] in others;
      assert j < |others| ==> others[i].obj != others[j].obj;
    }
    forall e, f | e in filed && f in AllFacts(e)
      ensures f.virtual in names
    {
      assert e == d || e in others;
    }
  }

  /** In every content the handlers can reach every live name comes back, if no two of the names share a host name. */
  lemma {:induction false} ReachedComesBack(physical: Physical, patches: seq<Patch>, names: iset<NamespacedName>,
                                            events: seq<Event>)
    returns (filed: seq<Filed>)
    requires SlashFree(physical) && SlashFreeNames(names) && OneName(physical, names)
    requires GoodPatches(patches) && forall e :: e in events ==> GoodEvent(patches, names, e)
    ensures ContentAfter(physical, patches, events) == LogOf(physical, filed) && ComesBack(physical, filed)
  {
    filed := ContentIsFiled(physical, patches, names, events);
    DistinctComeBack(physical, names, filed);
  }
}
