/** Runs in which a deletion hits an object that should have stayed. */
module DeletionLimits {
  import opened Strings
  import opened Names
  import opened CacheLog
  import opened MappingSource
  import opened Lookup
  import opened RoundTrips
  import opened BackSync
  import opened BackSyncProofs
  import opened BackSyncSafety
  import opened Limits

  /** A state in which nothing was deleted and nothing left behind. */
  function At(host: map<string, HostObj>, virt: map<NamespacedName, VirtObj>, log: Log, existed: set<NamespacedName>,
              pc: PC): State {
    State(host, virt, log, pc, existed, {}, false)
  }

  /** One more step of a run that is tame for the names. */
  lemma {:induction false} ExtendTame(cfg: Config, names: iset<NamespacedName>, states: seq<State>,
                                      actions: seq<Action>, a: Action, s: State)
    returns (states': seq<State>, actions': seq<Action>)
    requires |states| == |actions| + 1 && TameRun(cfg, names, states, actions)
    requires Next(cfg, states[|actions|], a, s) && Tame(cfg, names, a)
    ensures |states'| == |actions'| + 1 && TameRun(cfg, names, states', actions') && |actions'| == |actions| + 1
    ensures states'[|actions|] == states[|actions|] && states'[|actions'|] == s && actions'[|actions|] == a
  {
    hide Next, Tame, Started, CacheNames;
    states', actions' := states + [s], actions + [a];
  }

  // ----- a partly marked object

  /** An earlier mark of which only the name is left. */
  function Part(a: NamespacedName): HostObj {
    HostObj(map[NAME_ANNOTATION := a.name], map[], map[], "")
  }

  /** The other two markers. */
  function Half(cfg: Config, a: NamespacedName): HostObj {
    HostObj(map[MARKER_LABEL := cfg.marker, NAMESPACE_ANNOTATION := a.namespace], map[], map[], "")
  }

  function Full(cfg: Config, a: NamespacedName): HostObj {
    Annotated(cfg, Half(cfg, a), a, map[])
  }

  lemma {:induction false} PartMarked(cfg: Config, a: NamespacedName)
    requires cfg.marker != "" && a.name != "" && a.namespace != ""
    ensures !Bound(cfg, Part(a)) && !Bound(cfg, Half(cfg, a)) && !Bound(cfg, BARE)
    ensures Bound(cfg, Full(cfg, a)) && Binding(Full(cfg, a)) == a
    ensures PatchHost(BARE, Part(a), Annotated(cfg, Part(a), a, map[])) == Half(cfg, a)
    ensures PatchHost(Half(cfg, a), Half(cfg, a), Annotated(cfg, Half(cfg, a), a, map[])) == Full(cfg, a)
    ensures Part(a) != Annotated(cfg, Part(a), a, map[]) && Half(cfg, a) != Full(cfg, a)
  {
    MarkersDiffer();
    var from, to := Part(a).annotations, Annotated(cfg, Part(a), a, map[]).annotations;
    var d := Diff(from, to);
    assert MARKER_LABEL in d && NAMESPACE_ANNOTATION in d && NAME_ANNOTATION !in d;
    assert d == map[MARKER_LABEL := Some(cfg.marker), NAMESPACE_ANNOTATION := Some(a.namespace)];
    assert Merge(map[], d) == Half(cfg, a).annotations;
    MergeDiff(Half(cfg, a).annotations, Full(cfg, a).annotations);
    assert MARKER_LABEL in to && MARKER_LABEL !in from;
    assert NAME_ANNOTATION in Full(cfg, a).annotations && NAME_ANNOTATION !in Half(cfg, a).annotations;
    hide Diff, Merge;
  }

  /** The object with the name only is read, and a found for it. */
  lemma {:induction false} PartReads(cfg: Config, h: string, a: NamespacedName, log: Log)
    requires '/' !in h && a.name != "" && !Bound(cfg, Part(a)) && ResolveSelectors(log, h, cfg.selectors) == a
    ensures var host, p := map[h := Part(a)], Part(a);
      && Next(cfg, At(host, map[], log, {}, Idle), GetHost(h), At(host, map[], log, {}, HaveHost(h, Some(p))))
      && Next(cfg, At(host, map[], log, {}, HaveHost(h, Some(p))), ResolveVirtual,
           At(host, map[], log, {}, HaveName(h, Some(p), a)))
      && Next(cfg, At(host, map[], log, {}, HaveName(h, Some(p), a)), GetVirtual, At(host, map[], log, {}, Up(h, p, a)))
      && Next(cfg, At(host, map[], log, {}, Up(h, p, a)), ResolveAgain, At(host, map[], log, {}, UpMark(h, p, a)))
  {
    hide Bound, ResolveSelectors, Part;
  }

  /** The name goes before the other two markers come. */
  lemma {:induction false} PartUnmarked(cfg: Config, h: string, a: NamespacedName, log: Log)
    requires '/' !in h && cfg.marker != ""
    ensures var before, bare := map[h := Part(a)], map[h := BARE];
      Next(cfg, At(before, map[], log, {}, UpMark(h, Part(a), a)), WorldHost(bare),
          At(bare, map[], log, {}, UpMark(h, Part(a), a)))
  {
    var before, bare := map[h := Part(a)], map[h := BARE];
    assert ForeignHostChange(cfg, before, bare);
    var none: set<(string, HostObj)> := set g | g in before && g !in bare :: (g, before[g]);
    assert none == {};
    hide Bound, Part, ForeignHostChange;
  }

  lemma {:induction false} PartMarks(cfg: Config, h: string, a: NamespacedName, log: Log)
    requires '/' !in h && cfg.marker != "" && a.name != "" && a.namespace != ""
    ensures var bare, half := map[h := BARE], map[h := Half(cfg, a)];
      Next(cfg, At(bare, map[], log, {}, UpMark(h, Part(a), a)), MarkHost(true),
          At(half, map[], log, {}, UpApply(h, Half(cfg, a), a)))
  {
    hide Bound, Annotated, PatchHost, Part, Half;
    PartMarked(cfg, a);
    var bare := map[h := BARE];
    assert bare[h := Half(cfg, a)] == map[h := Half(cfg, a)];
  }

  lemma {:induction false} PartCaches(cfg: Config, host: map<string, HostObj>, log: Log, op: Op, pc: PC)
    requires op.Remove?
    ensures Next(cfg, At(host, map[], log, {}, pc), CacheCall(op), At(host, map[], Apply1(log, op), {}, pc))
  {
    hide Apply1;
  }

  /** The object written is b, the name saved is a. */
  lemma {:induction false} PartTranslates(cfg: Config, h: string, a: NamespacedName, b: NamespacedName, log: Log)
    requires !Bound(cfg, Half(cfg, a)) && b.name != "" && ResolveSelectors(log, h, cfg.selectors) == b
    ensures var half, p, base := map[h := Half(cfg, a)], Half(cfg, a), Translated(cfg, Half(cfg, a));
      Next(cfg, At(half, map[], log, {}, UpApply(h, p, a)), TranslateUp,
          At(half, map[], log, {}, UpWrite(h, p, a, b, base, map[])))
  {
    hide Bound, Half, Translated, ResolveSelectors;
  }

  lemma {:induction false} PartWrites(cfg: Config, h: string, a: NamespacedName, b: NamespacedName, log: Log,
                                      base: VirtObj, w: VirtObj)
    ensures var half, p := map[h := Half(cfg, a)], Half(cfg, a);
      Next(cfg, At(half, map[], log, {}, UpWrite(h, p, a, b, base, map[])), WriteObject(w, true),
           At(half, map[b := w], log, {b}, UpMemo(h, p, a, map[])))
  {
    var none: map<NamespacedName, VirtObj> := map[];
    assert none[b := w] == map[b := w];
    hide Half;
  }

  lemma {:induction false} PartSaves(cfg: Config, h: string, a: NamespacedName, b: NamespacedName, log: Log, w: VirtObj)
    requires cfg.marker != "" && a.name != "" && a.namespace != ""
    ensures var half, p := map[h := Half(cfg, a)], Half(cfg, a);
      Next(cfg, At(half, map[b := w], log, {b}, UpMemo(h, p, a, map[])), SaveMemo(true),
           At(map[h := Full(cfg, a)], map[b := w], log, {b}, Idle))
  {
    PartSaved(cfg, h, a);
    hide PatchApi, Annotated, Half, Full;
  }

  lemma {:induction false} PartSaved(cfg: Config, h: string, a: NamespacedName)
    requires cfg.marker != "" && a.name != "" && a.namespace != ""
    ensures PatchApi(map[h := Half(cfg, a)], h, Half(cfg, a), Annotated(cfg, Half(cfg, a), a, map[]), true)
         == Some((map[h := Full(cfg, a)], Full(cfg, a)))
  {
    PartMarked(cfg, a);
    var half := map[h := Half(cfg, a)];
    assert half[h := Full(cfg, a)] == map[h := Full(cfg, a)];
    hide Bound, Annotated, PatchHost, Half;
  }

  /** From then on the object is taken for a twin of a, and deleted. */
  lemma {:induction false} PartEnds(cfg: Config, h: string, a: NamespacedName, b: NamespacedName, log: Log, w: VirtObj)
    requires '/' !in h && a != b && a.name != "" && Bound(cfg, Full(cfg, a)) && Binding(Full(cfg, a)) == a
    ensures var host, p, virt, existed := map[h := Full(cfg, a)], Full(cfg, a), map[b := w], {b};
      && Next(cfg, At(host, virt, log, existed, Idle), GetHost(h), At(host, virt, log, existed, HaveHost(h, Some(p))))
      && Next(cfg, At(host, virt, log, existed, HaveHost(h, Some(p))), ResolveVirtual,
           At(host, virt, log, existed, HaveName(h, Some(p), a)))
      && Next(cfg, At(host, virt, log, existed, HaveName(h, Some(p), a)), GetVirtual,
           At(host, virt, log, existed, Up(h, p, a)))
      && Next(cfg, At(host, virt, log, existed, Up(h, p, a)), DeleteHost(true),
           State(map[], virt, log, Idle, existed, {(h, p)}, false))
  {
    var gone: map<string, HostObj> := map[h := Full(cfg, a)] - {h};
    assert gone == map[];
    hide Bound, Binding, Full, ResolveSelectors;
  }

  lemma {:induction false} PartStarted(cfg: Config, names: iset<NamespacedName>, h: string, a: NamespacedName, log: Log)
    requires GoodConfig(cfg) && '/' !in h && AllForward(cfg.physical, log) && CacheNames(cfg, names, log)
    requires a.name != "" && a.namespace != ""
    ensures !Bound(cfg, Part(a)) && TameRun(cfg, names, [At(map[h := Part(a)], map[], log, {}, Idle)], [])
  {
    PartMarked(cfg, a);
    hide Bound, Part, CacheNames, AllForward;
  }

  lemma {:induction false} PartFirst(cfg: Config, names: iset<NamespacedName>, h: string, a: NamespacedName,
                                     b: NamespacedName, log: Log, op: Op)
    returns (states: seq<State>, actions: seq<Action>)
    requires Switch(cfg, names, h, a, b, log, op) && a.namespace != ""
    ensures |states| == |actions| + 1 && TameRun(cfg, names, states, actions)
    ensures states[|actions|] == At(map[h := Part(a)], map[], log, {}, UpMark(h, Part(a), a))
  {
    PartStarted(cfg, names, h, a, log);
    PartReads(cfg, h, a, log);
    var host, p := map[h := Part(a)], Part(a);
    hide Next, At, Switch, Part, TameRun, Bound;
    states, actions := ExtendTame(cfg, names, [At(host, map[], log, {}, Idle)], [], GetHost(h),
        At(host, map[], log, {}, HaveHost(h, Some(p))));
    states, actions := ExtendTame(cfg, names, states, actions, ResolveVirtual,
        At(host, map[], log, {}, HaveName(h, Some(p), a)));
    states, actions := ExtendTame(cfg, names, states, actions, GetVirtual, At(host, map[], log, {}, Up(h, p, a)));
    states, actions := ExtendTame(cfg, names, states, actions, ResolveAgain, At(host, map[], log, {}, UpMark(h, p, a)));
  }

  lemma {:induction false} PartSecond(cfg: Config, names: iset<NamespacedName>, h: string, a: NamespacedName,
                                      b: NamespacedName, log: Log, op: Op)
    returns (states: seq<State>, actions: seq<Action>)
    requires Switch(cfg, names, h, a, b, log, op) && a.namespace != ""
    ensures |states| == |actions| + 1 && TameRun(cfg, names, states, actions)
    ensures states[|actions|] == At(map[h := Half(cfg, a)], map[], Apply1(log, op), {}, UpApply(h, Half(cfg, a), a))
  {
    states, actions := PartFirst(cfg, names, h, a, b, log, op);
    assert '/' !in h && cfg.marker != "" && op.Remove? && a.name != "";
    PartUnmarked(cfg, h, a, log);
    PartMarks(cfg, h, a, log);
    var half := map[h := Half(cfg, a)];
    PartCaches(cfg, half, log, op, UpApply(h, Half(cfg, a), a));
    hide Next, At, Switch, Part, Half, TameRun, Apply1;
    states, actions := ExtendTame(cfg, names, states, actions, WorldHost(map[h := BARE]),
        At(map[h := BARE], map[], log, {}, UpMark(h, Part(a), a)));
    states, actions := ExtendTame(cfg, names, states, actions, MarkHost(true),
        At(half, map[], log, {}, UpApply(h, Half(cfg, a), a)));
    states, actions := ExtendTame(cfg, names, states, actions, CacheCall(op),
        At(half, map[], Apply1(log, op), {}, UpApply(h, Half(cfg, a), a)));
  }

  lemma {:induction false} PartThird(cfg: Config, names: iset<NamespacedName>, h: string, a: NamespacedName,
                                     b: NamespacedName, log: Log, op: Op)
    returns (states: seq<State>, actions: seq<Action>)
    requires Switch(cfg, names, h, a, b, log, op) && a.namespace != ""
    ensures |states| == |actions| + 1 && TameRun(cfg, names, states, actions)
    ensures states[|actions|] == At(map[h := Full(cfg, a)], map[b := WRITTEN], Apply1(log, op), {b}, Idle)
  {
    states, actions := PartSecond(cfg, names, h, a, b, log, op);
    var log', p := Apply1(log, op), Half(cfg, a);
    var half := map[h := p];
    assert cfg.marker != "" && a.name != "" && b.name != "" && ResolveSelectors(log', h, cfg.selectors) == b;
    PartMarked(cfg, a);
    PartTranslates(cfg, h, a, b, log');
    PartWrites(cfg, h, a, b, log', Translated(cfg, p), WRITTEN);
    PartSaves(cfg, h, a, b, log', WRITTEN);
    hide Next, At, Switch, Half, Full, TameRun, Apply1, Translated, ResolveSelectors, Bound;
    states, actions := ExtendTame(cfg, names, states, actions, TranslateUp,
                                  At(half, map[], log', {}, UpWrite(h, p, a, b, Translated(cfg, p), map[])));
    states, actions := ExtendTame(cfg, names, states, actions, WriteObject(WRITTEN, true),
        At(half, map[b := WRITTEN], log', {b}, UpMemo(h, p, a, map[])));
    states, actions := ExtendTame(cfg, names, states, actions, SaveMemo(true),
        At(map[h := Full(cfg, a)], map[b := WRITTEN], log', {b}, Idle));
  }

  /** A deletion of an object that was never the twin of anything, without a crash or a failed rollback. */
  ghost predicate UnsafeDeletion(cfg: Config, states: seq<State>, actions: seq<Action>) {
    && |actions| > 0 && |states| == |actions| + 1
    && var last := states[|actions| - 1];
       && actions[|actions| - 1] == DeleteHost(true) && !last.leftBehind
       && last.pc.Up? && last.pc.h in last.host && Binding(last.host[last.pc.h]) !in last.existed
       && !SafeDeletion(cfg, last, actions[|actions| - 1])
  }

  /**
   If somebody removes a single marker while the cache switches between two names, the back syncer deletes a
   host object whose virtual object has never existed.
   */
  lemma {:induction false} PartlyMarkedDeletion(cfg: Config, names: iset<NamespacedName>, h: string, a: NamespacedName,
                                                b: NamespacedName, log: Log, op: Op)
    returns (states: seq<State>, actions: seq<Action>)
    requires Switch(cfg, names, h, a, b, log, op) && a.namespace != ""
    ensures TameRun(cfg, names, states, actions) && UnsafeDeletion(cfg, states, actions)
  {
    states, actions := PartThird(cfg, names, h, a, b, log, op);
    var log', host, virt, p := Apply1(log, op), map[h := Full(cfg, a)], map[b := WRITTEN], Full(cfg, a);
    assert '/' !in h && a != b && a.name != "" && cfg.marker != "";
    PartMarked(cfg, a);
    PartEnds(cfg, h, a, b, log', WRITTEN);
    var last := At(host, virt, log', {b}, Up(h, p, a));
    assert !SafeDeletion(cfg, last, DeleteHost(true)) && !last.leftBehind && last.pc.Up?;
    assert last.pc.h in last.host && Binding(last.host[last.pc.h]) !in last.existed;
    hide Next, At, Switch, Full, TameRun, Apply1, SafeDeletion, Binding, Bound;
    states, actions := ExtendTame(cfg, names, states, actions, GetHost(h),
        At(host, virt, log', {b}, HaveHost(h, Some(p))));
    states, actions := ExtendTame(cfg, names, states, actions, ResolveVirtual,
        At(host, virt, log', {b}, HaveName(h, Some(p), a)));
    states, actions := ExtendTame(cfg, names, states, actions, GetVirtual, last);
    states, actions := ExtendTame(cfg, names, states, actions, DeleteHost(true),
        State(map[], virt, log', Idle, {b}, {(h, p)}, false));
  }

  /** Such runs exist for every two names that share a host name. */
  lemma {:induction false} CollidingDeletion(cfg: Config, names: iset<NamespacedName>, gvk: GVK, a: NamespacedName,
                                             b: NamespacedName)
    returns (states: seq<State>, actions: seq<Action>)
    requires GoodConfig(cfg) && Selects(cfg.selectors) && ProperNames(names)
    requires a in names && b in names && a != b && Host(cfg.physical, a) == Host(cfg.physical, b)
    ensures TameRun(cfg, names, states, actions) && UnsafeDeletion(cfg, states, actions)
  {
    assert a.namespace != "";
    hide Switch, UnsafeDeletion, TameRun, GoodConfig, ProperNames;
    CacheSwitches(cfg, names, gvk, a, b);
    states, actions := PartlyMarkedDeletion(cfg, names, Host(cfg.physical, a), a, b, PairLog(cfg, a, b),
        Remove(gvk, Encode(a)));
  }

  ghost predicate RunSafe(cfg: Config, states: seq<State>, actions: seq<Action>) {
    && |states| == |actions| + 1
    && forall n :: 0 <= n < |actions| && !states[n].leftBehind ==> SafeDeletion(cfg, states[n], actions[n])
  }

  ghost predicate AlwaysSafe(cfg: Config, names: iset<NamespacedName>) {
    forall states: seq<State>, actions: seq<Action> ::
      TameRun(cfg, names, states, actions) ==> RunSafe(cfg, states, actions)
  }

  /**
   If the cache learns names of the set only and foreign changes may remove single markers, deletions are always
   safe, exactly if no two of the names share a host name.
   */
  lemma {:induction false} DeletionSafeExactly(cfg: Config, names: iset<NamespacedName>, gvk: GVK)
    requires GoodConfig(cfg) && Selects(cfg.selectors) && ProperNames(names)
    ensures AlwaysSafe(cfg, names) <==> OneName(cfg.physical, names)
  {
    if OneName(cfg.physical, names) {
      forall states: seq<State>, actions: seq<Action> | TameRun(cfg, names, states, actions)
        ensures RunSafe(cfg, states, actions)
      {
        assert |states| == |actions| + 1;
        hide TameRun, OneName, SafeDeletion;
        forall n | 0 <= n < |actions| && !states[n].leftBehind
          ensures SafeDeletion(cfg, states[n], actions[n])
        {
          DeletionSafetyPartlyMarked(cfg, names, states, actions, n);
        }
      }
    } else {
      var a, b :| a in names && b in names && Host(cfg.physical, a) == Host(cfg.physical, b) && a != b;
      hide GoodConfig, ProperNames, TameRun, SafeDeletion;
      var states, actions := CollidingDeletion(cfg, names, gvk, a, b);
      assert TameRun(cfg, names, states, actions) && !RunSafe(cfg, states, actions);
    }
  }

  // ----- an object recreated in between

  /**
   Deletions carry no precondition: a host object that the rest of the world recreates, without any marker,
   between the read and the deletion of a reconcile is deleted in place of the one that was read.
   */
  lemma {:induction false} StaleDeletion(cfg: Config, h: string, v: NamespacedName)
    returns (states: seq<State>, actions: seq<Action>)
    requires GoodConfig(cfg) && '/' !in h && v.name != "" && v.namespace != "" && Host(cfg.physical, v) == h
    ensures Run(cfg, states, actions) && Started(cfg, states[0])
    ensures |actions| > 0
    ensures var last := states[|actions| - 1];
      actions[|actions| - 1] == DeleteHost(true) && h in last.host && last.host[h].annotations == map[]
      && h !in states[|actions|].host
  {
    var marked := Annotated(cfg, HostObj(map[], map[], map[], "old"), v, map[]);
    var renewed := HostObj(map[], map[], map[], "new");
    var gone: map<string, HostObj> := map[];
    StaleStart(cfg, h, v, marked);
    StaleReads(cfg, h, v, marked);
    StaleEnds(cfg, h, v, marked, renewed);
    states := [
      Stale(map[h := marked], v, {}, Idle), Stale(map[h := marked], v, {}, HaveHost(h, Some(marked))),
      Stale(map[h := marked], v, {}, HaveName(h, Some(marked), v)), Stale(map[h := marked], v, {}, Up(h, marked, v)),
      Stale(map[], v, {(h, marked)}, Up(h, marked, v)), Stale(map[h := renewed], v, {(h, marked)}, Up(h, marked, v)),
      Stale(map[], v, {(h, marked), (h, renewed)}, Idle)
    ];
    actions := [GetHost(h), ResolveVirtual, GetVirtual, WorldHost(gone), WorldHost(map[h := renewed]),
        DeleteHost(true)];
    hide Next, Started, Annotated;
    assert Run(cfg, states, actions);
  }

  /** No virtual object exists, but v did. */
  ghost function Stale(host: map<string, HostObj>, v: NamespacedName, deleted: set<(string, HostObj)>, pc: PC): State {
    State(host, map[], [], pc, {v}, deleted, false)
  }

  lemma {:induction false} StaleStart(cfg: Config, h: string, v: NamespacedName, marked: HostObj)
    requires GoodConfig(cfg) && '/' !in h && v.name != "" && v.namespace != "" && Host(cfg.physical, v) == h
    requires marked == Annotated(cfg, HostObj(map[], map[], map[], "old"), v, map[])
    ensures Started(cfg, Stale(map[h := marked], v, {}, Idle)) && Bound(cfg, marked) && Binding(marked) == v
  {
    MarkersDiffer();
    hide SlashFree, Host;
  }

  lemma {:induction false} StaleReads(cfg: Config, h: string, v: NamespacedName, marked: HostObj)
    requires '/' !in h && v.name != "" && Bound(cfg, marked) && Binding(marked) == v
    ensures var host := map[h := marked];
      && Next(cfg, Stale(host, v, {}, Idle), GetHost(h), Stale(host, v, {}, HaveHost(h, Some(marked))))
      && Next(cfg, Stale(host, v, {}, HaveHost(h, Some(marked))), ResolveVirtual,
           Stale(host, v, {}, HaveName(h, Some(marked), v)))
      && Next(cfg, Stale(host, v, {}, HaveName(h, Some(marked), v)), GetVirtual, Stale(host, v, {}, Up(h, marked, v)))
  {
    hide Bound, Binding, ResolveSelectors, SlashFree;
  }

  lemma {:induction false} StaleEnds(cfg: Config, h: string, v: NamespacedName, marked: HostObj, renewed: HostObj)
    requires '/' !in h && Bound(cfg, marked) && renewed == HostObj(map[], map[], map[], "new")
    ensures var gone: map<string, HostObj>, one, two := map[], {(h, marked)}, {(h, marked), (h, renewed)};
      && Next(cfg, Stale(map[h := marked], v, {}, Up(h, marked, v)), WorldHost(gone),
           Stale(gone, v, one, Up(h, marked, v)))
      && Next(cfg, Stale(gone, v, one, Up(h, marked, v)), WorldHost(map[h := renewed]),
           Stale(map[h := renewed], v, one, Up(h, marked, v)))
      && Next(cfg, Stale(map[h := renewed], v, one, Up(h, marked, v)), DeleteHost(true), Stale(gone, v, two, Idle))
  {
    hide Next, Bound, Stale;
    StaleGone(cfg, h, v, marked);
    StaleRenewed(cfg, h, v, marked, renewed);
    StaleDeleted(cfg, h, v, marked, renewed);
  }

  lemma {:induction false} StaleGone(cfg: Config, h: string, v: NamespacedName, marked: HostObj)
    ensures var gone: map<string, HostObj> := map[];
      Next(cfg, Stale(map[h := marked], v, {}, Up(h, marked, v)), WorldHost(gone),
        Stale(gone, v, {(h, marked)}, Up(h, marked, v)))
  {
    hide Bound, ResolveSelectors, SlashFree, Annotated;
    var gone: map<string, HostObj>, was := map[], map[h := marked];
    var reported := set x | x in was && x !in gone :: (x, was[x]);
    assert h in was && (h, was[h]) in reported;
    assert reported == {(h, marked)};
  }

  lemma {:induction false} StaleRenewed(cfg: Config, h: string, v: NamespacedName, marked: HostObj, renewed: HostObj)
    requires '/' !in h && renewed == HostObj(map[], map[], map[], "new")
    ensures var gone: map<string, HostObj>, one := map[], {(h, marked)};
      Next(cfg, Stale(gone, v, one, Up(h, marked, v)), WorldHost(map[h := renewed]),
        Stale(map[h := renewed], v, one, Up(h, marked, v)))
  {
    hide ResolveSelectors, SlashFree, Annotated;
    var gone: map<string, HostObj>, now := map[], map[h := renewed];
    assert (set x | x in gone && x !in now :: (x, gone[x])) == {};
  }

  lemma {:induction false} StaleDeleted(cfg: Config, h: string, v: NamespacedName, marked: HostObj, renewed: HostObj)
    requires Bound(cfg, marked)
    ensures var gone: map<string, HostObj>, one, two := map[], {(h, marked)}, {(h, marked), (h, renewed)};
      Next(cfg, Stale(map[h := renewed], v, one, Up(h, marked, v)), DeleteHost(true), Stale(gone, v, two, Idle))
  {
    hide Bound, ResolveSelectors, SlashFree, Annotated;
    var gone: map<string, HostObj>, now := map[], map[h := renewed];
    var one: set<(string, HostObj)> := {(h, marked)};
    assert now - {h} == gone;
    assert one + {(h, renewed)} == {(h, marked), (h, renewed)};
  }
}
