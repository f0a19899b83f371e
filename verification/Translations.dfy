/** Translating host names back: what the resolver of the back syncer answers in the contents the cache can have. */
module Translations {
  import opened Strings
  import opened Names
  import opened CacheLog
  import opened MappingSource
  import opened Lookup
  import opened RoundTrips

  /** The name is known under the path, or under any path if none is asked for. */
  ghost predicate Known(physical: Physical, filed: seq<Filed>, h: string, path: string, d: Filed, f: Fact) {
    d in filed && f in AllFacts(d) && Host(physical, f.virtual) == h && (path == "" || path == f.path)
  }

  /** What a live name translates to is its own name, whatever has been remembered. */
  lemma {:induction false} LiveTranslates(physical: Physical, names: iset<NamespacedName>, filed: seq<Filed>,
                                          memo: map<string, string>, h: string, path: string, d: Filed, f: Fact)
    requires SlashFree(physical) && SlashFreeNames(names) && OneName(physical, names) && LearnedFrom(names, filed)
    requires Known(physical, filed, h, path, d, f) && f.virtual.name != ""
    ensures Translate(LogOf(physical, filed), memo, h, path) == Some(f.virtual.name)
  {
    DistinctComeBack(physical, names, filed);
    hide Resolve, AllFacts, LogOf;
  }

  /** A host name that the cache translates belongs to a name some live object has there. */
  lemma {:induction false} TranslatedIsLive(physical: Physical, filed: seq<Filed>, h: string, path: string)
    returns (d: Filed, f: Fact)
    requires SlashFree(physical) && '/' !in h && Translate(LogOf(physical, filed), map[], h, path).Some?
    requires forall e :: e in filed ==> forall g :: g in AllFacts(e) ==> SlashFreeName(g.virtual)
    ensures Known(physical, filed, h, path, d, f)
    ensures Translate(LogOf(physical, filed), map[], h, path) == Some(f.virtual.name) && f.virtual.name != ""
  {
    var log, byPath := LogOf(physical, filed), path != "";
    var index, key := IndexOf(byPath), if byPath then PathKey(h, path) else h;
    assert Resolve(log, index, key).name != "";
    var k := ProjectFirst(log, index, key);
    d := filed[k];
    var facts := AllFacts(d);
    var i := LastFiled(physical, facts, byPath, key);
    f := facts[i];
    assert d in filed && f in facts;
    DecodeEncode(f.virtual);
    if byPath {
      PathKeyInjective(h, path, Host(physical, f.virtual), f.path);
    }
    hide Collect, PathKey, Encode, StringToNamespacedName, Project, AllFacts;
  }

  predicate SlashFreeName(v: NamespacedName) {
    '/' !in v.name && '/' !in v.namespace
  }

  /**
   Under names that do not share host names, a host name translates under a path exactly if some live object has a
   name there that maps to it, and then to that name.
   */
  lemma {:induction false} TranslatesExactly(physical: Physical, names: iset<NamespacedName>, filed: seq<Filed>,
                                             h: string, path: string, name: string)
    requires SlashFree(physical) && SlashFreeNames(names) && OneName(physical, names) && LearnedFrom(names, filed)
    requires '/' !in h
    ensures Translate(LogOf(physical, filed), map[], h, path) == Some(name)
      <==> name != "" && exists d, f :: Known(physical, filed, h, path, d, f) && f.virtual.name == name
  {
    hide Known, Translate, OneName;
    if Translate(LogOf(physical, filed), map[], h, path) == Some(name) {
      forall e, g | e in filed && g in AllFacts(e)
        ensures SlashFreeName(g.virtual)
      {
      }
      var d, f := TranslatedIsLive(physical, filed, h, path);
    }
    if name != "" && exists d, f :: Known(physical, filed, h, path, d, f) && f.virtual.name == name {
      var d, f :| Known(physical, filed, h, path, d, f) && f.virtual.name == name;
      LiveTranslates(physical, names, filed, map[], h, path, d, f);
    }
  }

  // ----- from the objects to the answers

  predicate Renews(e: Event, obj: VirtualObject) {
    match e
    case Changed(o) => o.namespace == obj.namespace && o.name == obj.name
    case Gone(v) => v.namespace == obj.namespace && v.name == obj.name
  }

  /** The handlers were told of the object at i, could read it, and were told nothing newer of it that they could. */
  ghost predicate Current(patches: seq<Patch>, events: seq<Event>, i: nat, obj: VirtualObject)
    requires GoodPatches(patches)
  {
    && i < |events| && events[i] == Changed(obj) && Facts(obj, patches).Some?
    && forall j :: i < j < |events| && Renews(events[j], obj) ==>
         events[j].Changed? && Facts(events[j].obj, patches).None?
  }

  function Entry(physical: Physical, obj: VirtualObject, facts: seq<Fact>): IndexMappings {
    IndexMappings(obj.namespace + "/" + obj.name, Collect(physical, facts))
  }

  /** The names of a current object are in the cache. */
  lemma {:induction false} CurrentIsHeld(physical: Physical, patches: seq<Patch>, names: iset<NamespacedName>,
                                         events: seq<Event>, i: nat, obj: VirtualObject)
    requires GoodPatches(patches) && forall e :: e in events ==> GoodEvent(patches, names, e)
    requires Current(patches, events, i, obj)
    ensures Entry(physical, obj, Facts(obj, patches).value) in ContentAfter(physical, patches, events)
  {
    hide ContentNext, Facts, Collect, GoodEvent;
    var n := |events| - 1;
    var init, e := events[..n], events[n];
    assert e in events && events[i] in events;
    if i == n {
      HeldAtOnce(physical, patches, ContentAfter(physical, patches, init), obj);
    } else {
      CurrentIsHeld(physical, patches, names, init, i, obj);
      SlashFreeEvents(patches, names, events[i], e);
      hide GoodPatches;
      HeldOn(physical, patches, ContentAfter(physical, patches, init), obj, e);
    }
  }

  lemma {:induction false} SlashFreeEvents(patches: seq<Patch>, names: iset<NamespacedName>, a: Event, b: Event)
    requires GoodPatches(patches) && GoodEvent(patches, names, a) && GoodEvent(patches, names, b)
    ensures SlashFreeName(Subject(a)) && SlashFreeName(Subject(b))
  {
    hide Facts, Bears;
  }

  function Subject(e: Event): NamespacedName {
    match e
    case Changed(obj) => NamespacedName(obj.namespace, obj.name)
    case Gone(v) => v
  }

  lemma {:induction false} HeldAtOnce(physical: Physical, patches: seq<Patch>, before: Log, obj: VirtualObject)
    requires GoodPatches(patches) && Facts(obj, patches).Some?
    ensures Entry(physical, obj, Facts(obj, patches).value) in ContentNext(physical, patches, before, Changed(obj))
  {
    var o := Entry(physical, obj, Facts(obj, patches).value);
    assert INDEX_NAME in o.mappings;
    hide Collect, Facts;
    ExchangedHolds(before, o);
  }

  lemma {:induction false} HeldOn(physical: Physical, patches: seq<Patch>, before: Log, obj: VirtualObject, e: Event)
    requires GoodPatches(patches) && Facts(obj, patches).Some?
    requires SlashFreeName(Subject(Changed(obj))) && SlashFreeName(Subject(e))
    requires Renews(e, obj) ==> e.Changed? && Facts(e.obj, patches).None?
    requires Entry(physical, obj, Facts(obj, patches).value) in before
    ensures Entry(physical, obj, Facts(obj, patches).value) in ContentNext(physical, patches, before, e)
  {
    hide Collect, Facts, Encode, StringToNamespacedName;
    if !Renews(e, obj) {
      DecodeEncode(Subject(Changed(obj)));
      DecodeEncode(Subject(e));
      var o := Entry(physical, obj, Facts(obj, patches).value);
      assert o.name == Encode(Subject(Changed(obj))) by { NameEncoded(obj); }
      match e
      case Changed(other) =>
        NameEncoded(other);
        if Facts(other, patches).Some? {
          OtherHeld(before, o, Entry(physical, other, Facts(other, patches).value));
        }
      case Gone(v) => WithoutMembers(before, Encode(v));
    }
  }

  lemma {:induction false} NameEncoded(obj: VirtualObject)
    ensures obj.namespace + "/" + obj.name == Encode(Subject(Changed(obj)))
  {
  }

  lemma {:induction false} ExchangedHolds(log: Log, o: IndexMappings)
    requires o.mappings != map[]
    ensures o in Exchanged(log, o)
  {
    var w := Without(log, o.name) + [o];
    assert w[|w| - 1] == o;
  }

  lemma {:induction false} OtherHeld(log: Log, o: IndexMappings, other: IndexMappings)
    requires o in log && o.name != other.name
    ensures o in Exchanged(log, other)
  {
    WithoutMembers(log, other.name);
  }

  /**
   Every name that stands in a current object, translated to the host and back, under its path or alone, comes
   back: by the cache as it is, and by the resolver as its name, whatever has been remembered.
   */
  lemma {:induction false} EveryNameComesBack(physical: Physical, patches: seq<Patch>, names: iset<NamespacedName>,
                                              events: seq<Event>, i: nat, obj: VirtualObject, at: Place,
                                              v: NamespacedName, path: string, memo: map<string, string>)
    requires SlashFree(physical) && SlashFreeNames(names) && OneName(physical, names)
    requires GoodPatches(patches) && forall e :: e in events ==> GoodEvent(patches, names, e)
    requires Current(patches, events, i, obj) && Bears(obj, patches, at, v, path)
    ensures var log := ContentAfter(physical, patches, events);
      && Resolve(log, INDEX_NAME_PATH, PathKey(Host(physical, v), path)) == v
      && Resolve(log, INDEX_NAME, Host(physical, v)) == v
      && (v.name != "" ==> Translate(log, memo, Host(physical, v), path) == Some(v.name))
  {
    var filed := ContentIsFiled(physical, patches, names, events);
    var log, facts, f := LogOf(physical, filed), Facts(obj, patches).value, Fact(v, path);
    assert events[i] in events && GoodEvent(patches, names, events[i]);
    FactsBorne(obj, patches);
    CollectHas(physical, facts, f);
    CurrentIsHeld(physical, patches, names, events, i, obj);
    var o := Entry(physical, obj, facts);
    assert o in log;
    assert Has(o.mappings, IndexOf(true), KeyOf(physical, f, true));
    assert Has(o.mappings, IndexOf(false), KeyOf(physical, f, false));
    hide Bears, Collect, GoodEvent, ContentAfter, Current, LearnedFrom, Facts, Resolve;
    OneAnswers(physical, names, filed, f, true);
    OneAnswers(physical, names, filed, f, false);
  }
}
