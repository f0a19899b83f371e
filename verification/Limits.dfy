/** Inputs on which the code falls short, and the exact conditions under which it does not. */
module Limits {
  import opened Strings
  import opened Names
  import opened CacheLog
  import opened MappingSource
  import opened Lookup
  import opened RoundTrips
  import opened BackSync
  import opened BackSyncProofs
  import opened BackSyncSafety
  import opened BackSyncOwnership

  // ----- the real translation

  /** Slash-free parts of a translator. */
  ghost predicate SaneTranslator(t: Translator) {
    '/' !in t.suffix && forall s :: '/' !in t.digest(s)
  }

  function PhysicalOf(t: Translator): Physical {
    (name: string, namespace: string) => PhysicalName(t, name, namespace)
  }

  lemma {:induction false} SaneIsSlashFree(t: Translator)
    requires SaneTranslator(t)
    ensures SlashFree(PhysicalOf(t))
  {
    forall v: NamespacedName | '/' !in v.name && '/' !in v.namespace
      ensures '/' !in Host(PhysicalOf(t), v)
    {
      PhysicalNameNoSlash(t, v.name, v.namespace);
    }
  }

  const FIRST := NamespacedName("c", "a-x-b")
  const SECOND := NamespacedName("b-x-c", "a")

  /** With the real translation a live object's own name can come back as another object's name. */
  lemma {:induction false} RoundTripCanFail(t: Translator)
    requires SaneTranslator(t)
    ensures LearnedFrom(AllNames(), [Filed(FIRST, []), Filed(SECOND, [])])
    ensures !ComesBack(PhysicalOf(t), [Filed(FIRST, []), Filed(SECOND, [])])
    ensures !OneName(PhysicalOf(t), AllNames()) && !AlwaysComesBack(PhysicalOf(t), AllNames())
  {
    PhysicalNameCollides(t);
    assert FIRST.name != SECOND.name;
    assert FIRST in AllNames() && SECOND in AllNames();
    assert Host(PhysicalOf(t), FIRST) == Host(PhysicalOf(t), SECOND);
    hide PhysicalName, ComesBack, PhysicalOf, LearnedFrom;
    SharedDoesNotComeBack(PhysicalOf(t), FIRST, SECOND);
    TwoLearned(AllNames(), FIRST, SECOND);
  }

  // ----- what one selector sees

  /** The names of objects that live in a namespace. */
  ghost predicate ProperNames(names: iset<NamespacedName>) {
    SlashFreeNames(names) && forall v :: v in names ==> v.name != "" && v.namespace != ""
  }

  /** Some selector resolves names. */
  predicate Selects(selectors: seq<Selector>) {
    selectors != [] && (selectors[0].rewrittenPath.Some? || Selects(selectors[1..]))
  }

  /** The path of the first selector that resolves names. */
  function FirstPath(selectors: seq<Selector>): string
    requires Selects(selectors)
  {
    if selectors[0].rewrittenPath.Some? then selectors[0].rewrittenPath.value else FirstPath(selectors[1..])
  }

  lemma {:induction false} FirstSelectorAnswers(log: Log, h: string, selectors: seq<Selector>)
    requires Selects(selectors) && ResolveSelector(log, h, Selector(Some(FirstPath(selectors)))).name != ""
    ensures ResolveSelectors(log, h, selectors) == ResolveSelector(log, h, Selector(Some(FirstPath(selectors))))
  {
    if selectors[0].rewrittenPath.None? {
      FirstSelectorAnswers(log, h, selectors[1..]);
    }
  }

  /** A virtual object whose own name is found under the path. */
  function Solo(v: NamespacedName, path: string): Filed {
    Filed(v, if path == "" then [] else [Fact(v, path)])
  }

  lemma {:induction false} SoloKeys(physical: Physical, v: NamespacedName, path: string)
    ensures var o := EntryOf(physical, Solo(v, path));
      && o.mappings.Keys == {INDEX_NAME, INDEX_NAME_PATH} && o.name == Encode(v) && o.name != ""
      && Forward(physical, o.mappings)
      && Has(o.mappings, INDEX_NAME, Host(physical, v)) && o.mappings[INDEX_NAME][Host(physical, v)] == Encode(v)
      && (path != "" ==>
            && Has(o.mappings, INDEX_NAME_PATH, PathKey(Host(physical, v), path))
            && o.mappings[INDEX_NAME_PATH][PathKey(Host(physical, v), path)] == Encode(v))
  {
    IndicesDiffer();
    var own := Fact(v, METADATA_FIELD_PATH);
    CollectForward(physical, AllFacts(Solo(v, path)));
    CollectStep(physical, [], own);
    assert [] + [own] == [own];
    CollectStep(physical, [own], Fact(v, path));
    assert [own] + [Fact(v, path)] == [own, Fact(v, path)];
    assert AllFacts(Solo(v, path)) == if path == "" then [own] else [own, Fact(v, path)];
    assert Encode(v)[|v.namespace|] == '/';
  }

  /** Everything such an object teaches the cache is its own name. */
  lemma {:induction false} SoloMentions(physical: Physical, v: NamespacedName, path: string, w: NamespacedName)
    requires '/' !in v.name && '/' !in v.namespace && v.name != ""
    requires Mentions(physical, EntryOf(physical, Solo(v, path)).mappings, w)
    ensures w == v
  {
    var facts := AllFacts(Solo(v, path));
    var m := Collect(physical, facts);
    var key, p :| NameSource(physical, m, key, w, p) || PathSource(physical, m, key, w, p);
    var i := LastFiled(physical, facts, !NameSource(physical, m, key, w, p), key);
    hide Collect, Encode, PathKey;
    assert facts[i] in facts && facts[i].virtual == v;
    DecodeEncode(v);
    DecodeEncode(w);
  }

  /** The object filed first answers for its host name. */
  lemma {:induction false} SoloAnswers(cfg: Config, v: NamespacedName, log: Log)
    requires Selects(cfg.selectors) && '/' !in v.name && '/' !in v.namespace && v.name != ""
    requires log != [] && log[0] == EntryOf(cfg.physical, Solo(v, FirstPath(cfg.selectors)))
    ensures ResolveSelectors(log, Host(cfg.physical, v), cfg.selectors) == v
  {
    var path, h := FirstPath(cfg.selectors), Host(cfg.physical, v);
    SoloKeys(cfg.physical, v, path);
    if path == "" {
      FirstAnswers(log, INDEX_NAME, h, v);
    } else {
      FirstAnswers(log, INDEX_NAME_PATH, PathKey(h, path), v);
    }
    hide Resolve;
    FirstSelectorAnswers(log, h, cfg.selectors);
  }

  // ----- a cache that switches between two names

  /** The name cache answers a before the call and b after it, and knows no name outside the set. */
  ghost predicate Switch(cfg: Config, names: iset<NamespacedName>, h: string, a: NamespacedName, b: NamespacedName,
                         log: Log, op: Op) {
    && GoodConfig(cfg) && '/' !in h && AllForward(cfg.physical, log) && op.Remove? && CacheNames(cfg, names, log)
    && a != b && a.name != "" && b.name != "" && b.namespace != ""
    && ResolveSelectors(log, h, cfg.selectors) == a
    && ResolveSelectors(Apply1(log, op), h, cfg.selectors) == b
  }

  /** The cache holds nothing but objects of these names. */
  ghost predicate SoloLog(cfg: Config, names: iset<NamespacedName>, log: Log)
    requires Selects(cfg.selectors)
  {
    forall o :: o in log ==> exists v :: v in names && o == EntryOf(cfg.physical, Solo(v, FirstPath(cfg.selectors)))
  }

  lemma {:induction false} SoloLogNames(cfg: Config, names: iset<NamespacedName>, log: Log)
    requires Selects(cfg.selectors) && ProperNames(names) && SoloLog(cfg, names, log)
    ensures CacheNames(cfg, names, log) && AllForward(cfg.physical, log)
  {
    var path := FirstPath(cfg.selectors);
    hide Mentions, Forward, EntryOf, Solo;
    forall o | o in log
      ensures Forward(cfg.physical, o.mappings) && o.name != ""
      ensures forall v :: Mentions(cfg.physical, o.mappings, v) ==> v in names
    {
      var u :| u in names && o == EntryOf(cfg.physical, Solo(u, path));
      SoloKeys(cfg.physical, u, path);
      forall v | Mentions(cfg.physical, o.mappings, v)
        ensures v in names
      {
        SoloMentions(cfg.physical, u, path, v);
      }
    }
  }

  function PairLog(cfg: Config, a: NamespacedName, b: NamespacedName): Log
    requires Selects(cfg.selectors)
  {
    [EntryOf(cfg.physical, Solo(a, FirstPath(cfg.selectors))), EntryOf(cfg.physical, Solo(b, FirstPath(cfg.selectors)))]
  }

  /** Removing the first of two objects leaves the second. */
  lemma {:induction false} WithoutFirst(a: IndexMappings, b: IndexMappings)
    requires a.name != b.name
    ensures Without([a, b], a.name) == [b]
  {
    assert [a, b][..1] == [a];
    assert [a][..0] == [];
    assert Without([a], a.name) == [];
  }

  lemma {:induction false} PairLogNames(cfg: Config, names: iset<NamespacedName>, a: NamespacedName, b: NamespacedName)
    requires Selects(cfg.selectors) && ProperNames(names) && a in names && b in names && a != b
    ensures CacheNames(cfg, names, PairLog(cfg, a, b)) && AllForward(cfg.physical, PairLog(cfg, a, b))
    ensures PairLog(cfg, a, b)[0].name == Encode(a) != PairLog(cfg, a, b)[1].name
  {
    DecodeEncode(a);
    DecodeEncode(b);
    hide Collect, Encode, StringToNamespacedName;
    assert SoloLog(cfg, names, PairLog(cfg, a, b));
    SoloLogNames(cfg, names, PairLog(cfg, a, b));
  }

  /** Two objects that share a host name make the cache switch when the first is deleted. */
  lemma {:induction false} CacheSwitches(cfg: Config, names: iset<NamespacedName>, gvk: GVK, a: NamespacedName,
                                         b: NamespacedName)
    requires GoodConfig(cfg) && Selects(cfg.selectors) && ProperNames(names)
    requires a in names && b in names && a != b && Host(cfg.physical, a) == Host(cfg.physical, b)
    ensures Switch(cfg, names, Host(cfg.physical, a), a, b, PairLog(cfg, a, b), Remove(gvk, Encode(a)))
  {
    var path := FirstPath(cfg.selectors);
    var one, two := EntryOf(cfg.physical, Solo(a, path)), EntryOf(cfg.physical, Solo(b, path));
    PairLogNames(cfg, names, a, b);
    assert PairLog(cfg, a, b) == [one, two];
    hide EntryOf, Solo, Encode, PairLog, Has, Forward, AllForward, CacheNames, StringToNamespacedName;
    WithoutFirst(one, two);
    SoloAnswers(cfg, a, [one, two]);
    SoloAnswers(cfg, b, [two]);
    assert '/' !in Host(cfg.physical, a);
    hide ResolveSelectors, Host, Without;
  }

  // ----- a reconcile during such a switch

  const BARE := HostObj(map[], map[], map[], "")
  const THEIRS := VirtObj(map[], "theirs")
  const WRITTEN := VirtObj(map[], "written")

  /** Nobody but the cache and the reconcile acts. */
  predicate Calm(a: Action) {
    !a.WorldVirtual? && !a.WorldHost? && (a.CacheCall? ==> a.op.Remove?)
  }

  /** One more step of a calm run. */
  lemma {:induction false} Extend(cfg: Config, states: seq<State>, actions: seq<Action>, a: Action, s: State)
    returns (states': seq<State>, actions': seq<Action>)
    requires |states| == |actions| + 1 && Run(cfg, states, actions) && Next(cfg, states[|actions|], a, s) && Calm(a)
    requires forall i :: 0 <= i < |actions| ==> Calm(actions[i])
    ensures |states'| == |actions'| + 1 && Run(cfg, states', actions') && states'[0] == states[0]
        && |actions'| == |actions| + 1 && actions'[|actions|] == a
    ensures states'[|actions|] == states[|actions|] && states'[|actions'|] == s
    ensures forall i :: 0 <= i < |actions'| ==> Calm(actions'[i])
  {
    hide Next, Calm;
    states', actions' := states + [s], actions + [a];
  }

  /** A host object without markers, the given virtual objects, and a reconcile in the given place. */
  function Before(h: string, virt: map<NamespacedName, VirtObj>, log: Log, pc: PC): State {
    State(map[h := BARE], virt, log, pc, virt.Keys, {}, false)
  }

  /** The same after the host object has been marked with b. */
  function After(cfg: Config, h: string, b: NamespacedName, virt: map<NamespacedName, VirtObj>, log: Log, pc: PC)
    : State
  {
    State(map[h := Annotated(cfg, BARE, b, map[])], virt, log, pc, virt.Keys, {}, false)
  }

  lemma {:induction false} ReadSteps(cfg: Config, h: string, a: NamespacedName, virt: map<NamespacedName, VirtObj>,
                                     log: Log)
    requires '/' !in h && cfg.marker != "" && a.name != "" && a !in virt && ResolveSelectors(log, h, cfg.selectors) == a
    ensures Next(cfg, Before(h, virt, log, Idle), GetHost(h), Before(h, virt, log, HaveHost(h, Some(BARE))))
    ensures Next(cfg, Before(h, virt, log, HaveHost(h, Some(BARE))), ResolveVirtual,
        Before(h, virt, log, HaveName(h, Some(BARE), a)))
    ensures Next(cfg, Before(h, virt, log, HaveName(h, Some(BARE), a)), GetVirtual,
        Before(h, virt, log, Up(h, BARE, a)))
  {
    assert !Bound(cfg, BARE);
    hide Bound, ResolveSelectors;
  }

  lemma {:induction false} CacheStep(cfg: Config, h: string, virt: map<NamespacedName, VirtObj>, log: Log, op: Op,
                                     pc: PC)
    requires op.Remove?
    ensures Next(cfg, Before(h, virt, log, pc), CacheCall(op), Before(h, virt, Apply1(log, op), pc))
  {
    hide Apply1;
  }

  lemma {:induction false} ResolveStep(cfg: Config, h: string, a: NamespacedName, b: NamespacedName,
                                       virt: map<NamespacedName, VirtObj>, log: Log)
    requires cfg.marker != "" && b.name != "" && ResolveSelectors(log, h, cfg.selectors) == b
    ensures Next(cfg, Before(h, virt, log, Up(h, BARE, a)), ResolveAgain, Before(h, virt, log, UpMark(h, BARE, b)))
  {
    assert !Bound(cfg, BARE);
    hide Bound, ResolveSelectors;
  }

  lemma {:induction false} MarkStep(cfg: Config, h: string, b: NamespacedName, virt: map<NamespacedName, VirtObj>,
                                    log: Log)
    requires cfg.marker != ""
    ensures var marked := Annotated(cfg, BARE, b, map[]);
      Next(cfg, Before(h, virt, log, UpMark(h, BARE, b)), MarkHost(true),
          After(cfg, h, b, virt, log, UpApply(h, marked, b)))
  {
    MarkersDiffer();
    var marked := Annotated(cfg, BARE, b, map[]);
    assert marked.annotations[MARKER_LABEL] == cfg.marker;
    MergeDiff(BARE.annotations, marked.annotations);
    assert PatchHost(BARE, BARE, marked) == marked;
    assert map[h := BARE][h := marked] == map[h := marked];
    hide Bound, ResolveSelectors, Merge, Diff, Annotated, PatchHost;
  }

  /** Whatever stands under b, or nothing, becomes what the patches make of it. */
  lemma {:induction false} WriteSteps(cfg: Config, h: string, b: NamespacedName, virt: map<NamespacedName, VirtObj>,
                                      log: Log, w: VirtObj)
    requires cfg.marker != "" && b.name != "" && b.namespace != "" && virt.Keys <= {b}
    ensures var marked := Annotated(cfg, BARE, b, map[]);
      var base := Translated(cfg, marked);
      && Next(cfg, After(cfg, h, b, virt, log, UpApply(h, marked, b)), TranslateUp,
              After(cfg, h, b, virt, log, UpWrite(h, marked, b, b, base, map[])))
      && Next(cfg, After(cfg, h, b, virt, log, UpWrite(h, marked, b, b, base, map[])), WriteObject(w, true),
              After(cfg, h, b, map[b := w], log, UpMemo(h, marked, b, map[])))
  {
    MarkersDiffer();
    var marked := Annotated(cfg, BARE, b, map[]);
    assert Bound(cfg, marked) && Binding(marked) == b;
    assert virt[b := w] == map[b := w];
    hide Bound, Binding, ResolveSelectors, Annotated, Translated;
  }

  /** A reconcile looks for a, and the cache changes before it looks again. */
  lemma {:induction false} ReadRun(cfg: Config, h: string, a: NamespacedName, virt: map<NamespacedName, VirtObj>,
                                   log: Log, op: Op)
    returns (states: seq<State>, actions: seq<Action>)
    requires GoodConfig(cfg) && '/' !in h && op.Remove? && a.name != "" && a !in virt
    requires ResolveSelectors(log, h, cfg.selectors) == a
    ensures Run(cfg, states, actions) && |states| == 5 && states[0] == Before(h, virt, log, Idle)
    ensures |actions| == 4 && states[4] == Before(h, virt, Apply1(log, op), Up(h, BARE, a))
    ensures forall i :: 0 <= i < |actions| ==> Calm(actions[i])
  {
    ReadSteps(cfg, h, a, virt, log);
    CacheStep(cfg, h, virt, log, op, Up(h, BARE, a));
    var s0, s1 := Before(h, virt, log, Idle), Before(h, virt, log, HaveHost(h, Some(BARE)));
    assert Run(cfg, [s0], []);
    hide Next, Before, ResolveSelectors, Apply1, GoodConfig, Run;
    states, actions := Extend(cfg, [s0], [], GetHost(h), s1);
    states, actions := Extend(cfg, states, actions, ResolveVirtual, Before(h, virt, log, HaveName(h, Some(BARE), a)));
    states, actions := Extend(cfg, states, actions, GetVirtual, Before(h, virt, log, Up(h, BARE, a)));
    states, actions := Extend(cfg, states, actions, CacheCall(op), Before(h, virt, Apply1(log, op), Up(h, BARE, a)));
  }

  /** The reconcile goes on to mark the host object with b. */
  lemma {:induction false} MarkRun(cfg: Config, h: string, a: NamespacedName, b: NamespacedName,
                                   virt: map<NamespacedName, VirtObj>, log: Log, op: Op)
    returns (states: seq<State>, actions: seq<Action>)
    requires GoodConfig(cfg) && '/' !in h && op.Remove? && a.name != "" && a !in virt && b.name != ""
    requires ResolveSelectors(log, h, cfg.selectors) == a && ResolveSelectors(Apply1(log, op), h, cfg.selectors) == b
    ensures Run(cfg, states, actions) && |states| == 7 && states[0] == Before(h, virt, log, Idle)
    ensures |actions| == 6 && forall i :: 0 <= i < |actions| ==> Calm(actions[i])
    ensures states[6] == After(cfg, h, b, virt, Apply1(log, op), UpApply(h, Annotated(cfg, BARE, b, map[]), b))
  {
    var log', marked := Apply1(log, op), Annotated(cfg, BARE, b, map[]);
    ResolveStep(cfg, h, a, b, virt, log');
    MarkStep(cfg, h, b, virt, log');
    hide Next, Annotated, Before, After, ResolveSelectors, Apply1, GoodConfig, Run;
    states, actions := ReadRun(cfg, h, a, virt, log, op);
    states, actions := Extend(cfg, states, actions, ResolveAgain, Before(h, virt, log', UpMark(h, BARE, b)));
    states, actions := Extend(cfg, states, actions, MarkHost(true),
        After(cfg, h, b, virt, log', UpApply(h, marked, b)));
  }

  /** And to write what stands under b. */
  lemma {:induction false} WriteRun(cfg: Config, h: string, a: NamespacedName, b: NamespacedName,
                                    virt: map<NamespacedName, VirtObj>, log: Log, op: Op, w: VirtObj)
    returns (states: seq<State>, actions: seq<Action>)
    requires GoodConfig(cfg) && '/' !in h && op.Remove? && a.name != "" && b.name != "" && b.namespace != ""
    requires a !in virt && virt.Keys <= {b}
    requires ResolveSelectors(log, h, cfg.selectors) == a && ResolveSelectors(Apply1(log, op), h, cfg.selectors) == b
    ensures Run(cfg, states, actions) && |states| == 9 && states[0] == Before(h, virt, log, Idle)
    ensures |actions| == 8 && actions[7] == WriteObject(w, true) && forall i :: 0 <= i < |actions| ==> Calm(actions[i])
    ensures states[7].virt == virt && states[7].pc.UpWrite? && states[8].virt == map[b := w] && states[7].pc.target == b
  {
    var log', marked := Apply1(log, op), Annotated(cfg, BARE, b, map[]);
    WriteSteps(cfg, h, b, virt, log', w);
    var s7 := After(cfg, h, b, virt, log', UpWrite(h, marked, b, b, Translated(cfg, marked), map[]));
    var s8 := After(cfg, h, b, map[b := w], log', UpMemo(h, marked, b, map[]));
    assert s7.pc.UpWrite? && s7.pc.target == b && s7.virt == virt && s8.virt == map[b := w];
    hide Next, Annotated, Before, After, ResolveSelectors, Apply1, Translated, GoodConfig, Run;
    states, actions := MarkRun(cfg, h, a, b, virt, log, op);
    states, actions := Extend(cfg, states, actions, TranslateUp, s7);
    states, actions := Extend(cfg, states, actions, WriteObject(w, true), s8);
  }

  lemma {:induction false} BeforeStarted(cfg: Config, h: string, virt: map<NamespacedName, VirtObj>, log: Log)
    requires GoodConfig(cfg) && '/' !in h && AllForward(cfg.physical, log)
    ensures Started(cfg, Before(h, virt, log, Idle))
  {
    assert !Bound(cfg, BARE);
  }

  // ----- ownership

  /** A quiet run whose last step overwrites an object without the label. */
  ghost predicate Overwrites(cfg: Config, names: iset<NamespacedName>, states: seq<State>, actions: seq<Action>) {
    && QuietRun(cfg, names, states, actions) && |actions| > 0
    && !actions[|actions| - 1].WorldVirtual? && !Spares(cfg, states[|actions| - 1], states[|actions|])
  }

  lemma {:induction false} CalmIsQuiet(cfg: Config, names: iset<NamespacedName>, states: seq<State>,
                                       actions: seq<Action>)
    requires Run(cfg, states, actions) && Started(cfg, states[0]) && CacheNames(cfg, names, states[0].cache)
    requires forall i :: 0 <= i < |actions| ==> Calm(actions[i])
    ensures QuietRun(cfg, names, states, actions)
  {
    assert |states| == |actions| + 1;
    hide Run, Started, CacheNames;
    forall i | 0 <= i < |actions|
      ensures Tame(cfg, names, actions[i]) && Quiet(states[i], actions[i])
    {
      assert Calm(actions[i]);
    }
  }

  /** A reconcile during which the cache switches overwrites whatever stands under the second name. */
  lemma {:induction false} SwitchOverwrites(cfg: Config, names: iset<NamespacedName>, h: string, a: NamespacedName,
                                            b: NamespacedName, log: Log, op: Op)
    returns (states: seq<State>, actions: seq<Action>)
    requires Switch(cfg, names, h, a, b, log, op)
    ensures Overwrites(cfg, names, states, actions)
  {
    hide ResolveSelectors, GoodConfig, AllForward, CacheNames, Apply1, Run, Started, Calm, QuietRun;
    var virt := map[b := THEIRS];
    states, actions := WriteRun(cfg, h, a, b, virt, log, op, WRITTEN);
    BeforeStarted(cfg, h, virt, log);
    CalmIsQuiet(cfg, names, states, actions);
    assert IsExcluded(cfg, THEIRS) by { GoodConfigNamed(cfg); }
    assert b in states[7].virt && states[8].virt[b] != THEIRS;
  }

  lemma {:induction false} GoodConfigNamed(cfg: Config)
    requires GoodConfig(cfg)
    ensures cfg.controllerID != "" && cfg.marker != ""
  {
  }

  ghost predicate RunSpares(cfg: Config, states: seq<State>, actions: seq<Action>) {
    |states| == |actions| + 1
    && forall n :: 0 <= n < |actions| && !actions[n].WorldVirtual? ==> Spares(cfg, states[n], states[n + 1])
  }

  ghost predicate AlwaysSpares(cfg: Config, names: iset<NamespacedName>) {
    forall states, actions :: QuietRun(cfg, names, states, actions) ==> RunSpares(cfg, states, actions)
  }

  /**
   If the cache learns names of the set only, no quiet run ever modifies or deletes an object without this
   controller's label, exactly if no two of the names share a host name.
   */
  lemma {:induction false} OwnershipExactly(cfg: Config, names: iset<NamespacedName>, gvk: GVK)
    requires GoodConfig(cfg) && Selects(cfg.selectors) && ProperNames(names)
    ensures AlwaysSpares(cfg, names) <==> OneName(cfg.physical, names)
  {
    if OneName(cfg.physical, names) {
      forall states, actions | QuietRun(cfg, names, states, actions)
        ensures RunSpares(cfg, states, actions)
      {
        OwnershipOfRun(cfg, names, states, actions);
      }
    } else {
      var a, b :| a in names && b in names && Host(cfg.physical, a) == Host(cfg.physical, b) && a != b;
      hide GoodConfig, Switch, QuietRun, Spares, ProperNames;
      CacheSwitches(cfg, names, gvk, a, b);
      var states, actions :=
        SwitchOverwrites(cfg, names, Host(cfg.physical, a), a, b, PairLog(cfg, a, b), Remove(gvk, Encode(a)));
      assert QuietRun(cfg, names, states, actions) && !RunSpares(cfg, states, actions);
    }
  }

  lemma {:induction false} OwnershipOfRun(cfg: Config, names: iset<NamespacedName>, states: seq<State>,
                                          actions: seq<Action>)
    requires QuietRun(cfg, names, states, actions) && OneName(cfg.physical, names)
    ensures RunSpares(cfg, states, actions)
  {
    assert Run(cfg, states, actions);
    hide Spares, QuietRun, OneName;
    forall n | 0 <= n < |actions| && !actions[n].WorldVirtual?
      ensures Spares(cfg, states[n], states[n + 1])
    {
      Ownership(cfg, names, states, actions, n);
    }
  }

  /** With the real translation such a run exists. */
  lemma {:induction false} OwnershipCanFail(t: Translator, gvk: GVK) returns (states: seq<State>, actions: seq<Action>)
    requires SaneTranslator(t)
    ensures Overwrites(Config("vcluster", "controller", [Selector(Some(""))], PhysicalOf(t)), iset{FIRST, SECOND},
        states, actions)
  {
    var cfg := Config("vcluster", "controller", [Selector(Some(""))], PhysicalOf(t));
    SaneIsSlashFree(t);
    PhysicalNameCollides(t);
    assert FIRST.name != SECOND.name && Host(PhysicalOf(t), FIRST) == Host(PhysicalOf(t), SECOND);
    assert ProperNames(iset{FIRST, SECOND}) && Selects(cfg.selectors) && GoodConfig(cfg);
    hide Switch, Overwrites, Host, PhysicalOf, GoodConfig, ProperNames;
    CacheSwitches(cfg, iset{FIRST, SECOND}, gvk, FIRST, SECOND);
    states, actions := SwitchOverwrites(cfg, iset{FIRST, SECOND}, Host(PhysicalOf(t), FIRST), FIRST, SECOND,
                                        PairLog(cfg, FIRST, SECOND), Remove(gvk, Encode(FIRST)));
  }

  // ----- the label of created objects

  /** If the patches drop the label, a quiet run creates an object without it. */
  lemma {:induction false} LabelCanBeLost(cfg: Config, v: NamespacedName, gvk: GVK)
    returns (states: seq<State>, actions: seq<Action>)
    requires GoodConfig(cfg) && Selects(cfg.selectors) && ProperNames(iset{v})
    ensures QuietRun(cfg, iset{v}, states, actions) && OneName(cfg.physical, iset{v})
    ensures |actions| == 8 && |states| == 9 && v !in states[7].virt && v in states[8].virt
        && IsExcluded(cfg, states[8].virt[v])
    ensures (states[7].pc.UpWrite? && actions[7].WriteObject?) && !Leaves(states[7].pc.base, actions[7].patched)
  {
    var h, log := Host(cfg.physical, v), [EntryOf(cfg.physical, Solo(v, FirstPath(cfg.selectors)))];
    var other := Remove(gvk, "");
    assert v in iset{v};
    assert SoloLog(cfg, iset{v}, log);
    SoloLogNames(cfg, iset{v}, log);
    SoloAnswers(cfg, v, log);
    assert '/' !in h;
    NothingRemoved(cfg, log, gvk);
    hide ResolveSelectors, GoodConfig, AllForward, CacheNames, Apply1, Run, Started, Calm, QuietRun, ProperNames;
    states, actions := WriteRun(cfg, h, v, v, map[], log, other, WRITTEN);
    BeforeStarted(cfg, h, map[], log);
    CalmIsQuiet(cfg, iset{v}, states, actions);
    assert IsExcluded(cfg, WRITTEN) by { GoodConfigNamed(cfg); }
    LabelExactlyAt(cfg, iset{v}, states, actions, v);
  }

  /** Removing an object the cache does not hold changes nothing. */
  lemma {:induction false} NothingRemoved(cfg: Config, log: Log, gvk: GVK)
    requires AllForward(cfg.physical, log)
    ensures Apply1(log, Remove(gvk, "")) == log
  {
    assert forall o :: o in log ==> o.name != "";
    hide AllForward;
    WithoutAbsent(log, "");
  }

  lemma {:induction false} WithoutAbsent(log: Log, name: string)
    requires forall o :: o in log ==> o.name != name
    ensures Without(log, name) == log
  {
    if log != [] {
      var init := log[..|log| - 1];
      assert log == init + [log[|log| - 1]];
      WithoutAbsent(init, name);
    }
  }

  lemma {:induction false} LabelExactlyAt(cfg: Config, names: iset<NamespacedName>, states: seq<State>,
                                          actions: seq<Action>, v: NamespacedName)
    requires QuietRun(cfg, names, states, actions) && |actions| == 8 && actions[7].WriteObject? && |states| == 9
    requires states[7].pc.UpWrite? && v !in states[7].virt && v in states[8].virt && IsExcluded(cfg, states[8].virt[v])
    ensures !Leaves(states[7].pc.base, actions[7].patched)
  {
    assert Run(cfg, states, actions) && Started(cfg, states[0]);
    hide Run, Started, IsExcluded, Leaves;
    LabelExactly(cfg, states, actions, 7);
  }
}
