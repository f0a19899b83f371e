/** Over whole runs of the back syncer: bindings are injective and stable, deletions and writes are safe. */
module BackSyncSafety {
  import opened Strings
  import opened Names
  import opened CacheLog
  import opened MappingSource
  import opened Lookup
  import opened RoundTrips
  import opened BackSync
  import opened BackSyncProofs

  // ----- runs

  /** The controller starts between reconciles; what an earlier life has bound is bound properly. */
  ghost predicate Started(cfg: Config, s: State) {
    && GoodConfig(cfg) && AllForward(cfg.physical, s.cache) && BindingsForward(cfg, s.host)
    && s.pc.Idle? && !s.leftBehind && s.virt.Keys <= s.existed
    && forall h :: h in s.host ==> Twin(cfg, s.existed, s.host[h])
  }

  ghost predicate Run(cfg: Config, states: seq<State>, actions: seq<Action>) {
    && |states| == |actions| + 1
    && forall i :: 0 <= i < |actions| ==> Next(cfg, states[i], actions[i], states[i + 1])
  }

  lemma {:induction false} InvRun(cfg: Config, states: seq<State>, actions: seq<Action>, n: nat)
    requires Run(cfg, states, actions) && Inv(cfg, states[0]) && n < |states|
    ensures Inv(cfg, states[n])
  {
    if n > 0 {
      InvRun(cfg, states, actions, n - 1);
      InvStep(cfg, states[n - 1], actions[n - 1], states[n]);
    }
  }

  /**
   Two different host objects are never bound to the same virtual object, not even at different moments
   of a run, however the cache changes.
   */
  lemma {:induction false} BindingsInjective(cfg: Config, states: seq<State>, actions: seq<Action>, i: nat, j: nat,
                                             h: string, h': string)
    requires Run(cfg, states, actions) && Started(cfg, states[0]) && i < |states| && j < |states|
    requires h in states[i].host && Bound(cfg, states[i].host[h])
    requires h' in states[j].host && Bound(cfg, states[j].host[h'])
    requires Binding(states[i].host[h]) == Binding(states[j].host[h'])
    ensures h == h'
  {
    InvRun(cfg, states, actions, i);
    InvRun(cfg, states, actions, j);
  }

  // ----- bindings and memos are stable

  /** Everything but a rollback and the rest of the world. */
  predicate Stable(a: Action) {
    !a.Rollback? && !a.WorldHost?
  }

  /** A bound object that survives a step stays bound to the same name and forgets no translation. */
  lemma {:induction false} BindingStable(cfg: Config, s: State, a: Action, s': State, h: string)
    requires Inv(cfg, s) && Next(cfg, s, a, s') && Stable(a)
    requires h in s.host && Bound(cfg, s.host[h]) && h in s'.host
    ensures Bound(cfg, s'.host[h]) && Binding(s'.host[h]) == Binding(s.host[h])
    ensures s.host[h].memo.Keys <= s'.host[h].memo.Keys
  {
    hide Next, Annotated, PatchHost, AllForward, BindingsForward;
    if Patches(a) {
      PatchEffect(cfg, s, a, s');
      if s.pc.h == h {
        BoundWithin(cfg, s.host[h], s.pc.found);
        PatchedStable(cfg, s, h, s.pc.found, s.pc.v, PatchMemo(s, a));
      }
    } else if a.DeleteHost? || a.ReverseWrite? {
      HostRewritten(cfg, s, a, s', h);
    } else {
      HostUntouched(cfg, s, a, s');
    }
  }

  lemma {:induction false} HostRewritten(cfg: Config, s: State, a: Action, s': State, h: string)
    requires Next(cfg, s, a, s') && (a.DeleteHost? || a.ReverseWrite?) && h in s.host && h in s'.host
    ensures s'.host[h].annotations == s.host[h].annotations && s'.host[h].memo == s.host[h].memo
    ensures Bound(cfg, s'.host[h]) == Bound(cfg, s.host[h]) && Binding(s'.host[h]) == Binding(s.host[h])
  {
    hide PatchApi, PhysicalToVirtual, IsExcluded;
  }

  lemma {:induction false} HostUntouched(cfg: Config, s: State, a: Action, s': State)
    requires Next(cfg, s, a, s') && (ReadsOnly(a) || Resolves(a) || OnVirtual(a) || a.CacheCall? || a.TranslateName?)
    ensures s'.host == s.host
  {
    hide PatchApi, PhysicalToVirtual, IsExcluded, Bound, InFlight, Apply1, Translate;
  }

  /** The patches of a reconcile change no marker of a bound object. */
  lemma {:induction false} PatchedStable(cfg: Config, s: State, h: string, p: HostObj, v: NamespacedName,
                                         memo: StringMap)
    requires cfg.marker != "" && h in s.host && Bound(cfg, s.host[h]) && GoodCopy(cfg, s.host, h, p)
    requires GoodName(cfg, h, p, v) && p.memo.Keys <= memo.Keys
    ensures var patched := PatchHost(s.host[h], p, Annotated(cfg, p, v, memo));
      && Bound(cfg, patched) && Binding(patched) == Binding(s.host[h])
      && s.host[h].memo.Keys <= patched.memo.Keys
  {
    BoundWithin(cfg, s.host[h], p);
    PatchKeepsMarkers(cfg, s.host[h], p, v, memo);
  }

  ghost predicate BoundAt(cfg: Config, s: State, h: string) {
    h in s.host && Bound(cfg, s.host[h])
  }

  /** Any step between two states in which the object is bound keeps the name and loses nothing of the memo. */
  lemma {:induction false} BindingKept(cfg: Config, s: State, a: Action, s': State, h: string)
    requires Inv(cfg, s) && Next(cfg, s, a, s') && BoundAt(cfg, s, h) && BoundAt(cfg, s', h)
    ensures Binding(s'.host[h]) == Binding(s.host[h]) && s.host[h].memo.Keys <= s'.host[h].memo.Keys
  {
    if Stable(a) {
      BindingStable(cfg, s, a, s', h);
    } else if a.Rollback? {
      RollbackElsewhere(cfg, s, a, s', h);
    } else {
      assert MarkersWithin(s'.host[h].annotations, s.host[h].annotations) && cfg.marker != "";
      BoundWithin(cfg, s'.host[h], s.host[h]);
    }
  }

  lemma {:induction false} RollbackElsewhere(cfg: Config, s: State, a: Action, s': State, h: string)
    requires Inv(cfg, s) && Next(cfg, s, a, s') && a.Rollback? && BoundAt(cfg, s, h)
    ensures if BoundAt(cfg, s', h) then s'.host[h] == s.host[h] else s.pc.UpRollback? && s.pc.h == h
  {
    hide AllForward, BindingsForward, Merge, Diff;
    if s.pc.h in s.host {
      PatchStrips(cfg, s.host[s.pc.h], s.pc.found);
      assert IsMarker(MARKER_LABEL);
    }
  }

  /** The object is there and bound in all these states. */
  ghost predicate BoundThroughout(cfg: Config, states: seq<State>, h: string, i: nat, n: nat)
    requires n < |states|
  {
    forall k :: i <= k <= n ==> BoundAt(cfg, states[k], h)
  }

  /**
   While an object is bound it stays bound to the same name and forgets no translation, whatever else happens,
   foreign writes and rollbacks included.
   */
  lemma {:induction false} BindingStableRun(cfg: Config, states: seq<State>, actions: seq<Action>, h: string, i: nat,
                                            n: nat)
    requires Run(cfg, states, actions) && Started(cfg, states[0]) && i <= n < |states|
    requires BoundThroughout(cfg, states, h, i, n)
    ensures BoundAt(cfg, states[i], h) && BoundAt(cfg, states[n], h)
    ensures Binding(states[n].host[h]) == Binding(states[i].host[h])
    ensures states[i].host[h].memo.Keys <= states[n].host[h].memo.Keys
    decreases n
  {
    hide Inv, Next, Bound;
    assert BoundAt(cfg, states[i], h) && BoundAt(cfg, states[n], h);
    if i < n {
      assert BoundAt(cfg, states[n - 1], h) && Next(cfg, states[n - 1], actions[n - 1], states[n]);
      BindingStableRun(cfg, states, actions, h, i, n - 1);
      StartedInv(cfg, states[0]);
      InvRun(cfg, states, actions, n - 1);
      BindingKept(cfg, states[n - 1], actions[n - 1], states[n], h);
    }
  }

  lemma {:induction false} StartedInv(cfg: Config, s: State)
    requires Started(cfg, s)
    ensures Inv(cfg, s)
  {
  }

  /** Only its own deletion or rollback, or a foreign change of the object itself, ends a binding. */
  lemma {:induction false} BindingEnds(cfg: Config, s: State, a: Action, s': State, h: string)
    requires Inv(cfg, s) && Next(cfg, s, a, s') && BoundAt(cfg, s, h) && !BoundAt(cfg, s', h)
    ensures || (a.Rollback? && s.pc.UpRollback? && s.pc.h == h)
            || (a.DeleteHost? && s.pc.Up? && s.pc.h == h)
            || (a.WorldHost? && (h !in a.host || a.host[h] != s.host[h]))
  {
    if a.Rollback? {
      RollbackElsewhere(cfg, s, a, s', h);
    } else if a.DeleteHost? {
      OtherDeleted(cfg, s, a, s', h);
    } else if !a.WorldHost? {
      HostStays(cfg, s, a, s', h);
      BindingStable(cfg, s, a, s', h);
    }
  }

  lemma {:induction false} OtherDeleted(cfg: Config, s: State, a: Action, s': State, h: string)
    requires Next(cfg, s, a, s') && a.DeleteHost? && BoundAt(cfg, s, h) && !BoundAt(cfg, s', h)
    ensures s.pc.Up? && s.pc.h == h
  {
    hide Bound;
  }

  lemma {:induction false} HostStays(cfg: Config, s: State, a: Action, s': State, h: string)
    requires Next(cfg, s, a, s') && Stable(a) && !a.DeleteHost? && h in s.host
    ensures h in s'.host
  {
    hide Next, Annotated, PatchHost;
    if Patches(a) {
      PatchEffect(cfg, s, a, s');
    } else if a.ReverseWrite? {
      ReverseStays(cfg, s, a, s', h);
    } else {
      HostUntouched(cfg, s, a, s');
    }
  }

  lemma {:induction false} ReverseStays(cfg: Config, s: State, a: Action, s': State, h: string)
    requires Next(cfg, s, a, s') && a.ReverseWrite? && h in s.host
    ensures h in s'.host
  {
    hide IsExcluded;
  }

  // ----- names that do not collide

  /** The cache learns no name outside the set. */
  ghost predicate Tame(cfg: Config, names: iset<NamespacedName>, a: Action) {
    a.CacheCall? && a.op.Exchange? ==> forall v :: Mentions(cfg.physical, a.op.om.mappings, v) ==> v in names
  }

  ghost predicate CacheNames(cfg: Config, names: iset<NamespacedName>, cache: Log) {
    forall o, v :: o in cache && Mentions(cfg.physical, o.mappings, v) ==> v in names
  }

  /** The names a reconcile got from the cache rather than from annotations. */
  ghost predicate PCNames(cfg: Config, names: iset<NamespacedName>, pc: PC) {
    match pc
    case HaveName(_, p, v) => p.Some? && !Bound(cfg, p.value) ==> v in names
    case Up(_, p, v) => !Bound(cfg, p) ==> v in names
    case UpMark(_, p, v) => v in names
    case UpApply(_, p, v) => v in names
    case UpWrite(_, p, v, t, _, _) => v in names && (!Bound(cfg, p) ==> t in names)
    case UpRollback(_, p, v) => v in names
    case UpMemo(_, p, v, _) => v in names
    case Sync(_, p, v, _) => !Bound(cfg, p) ==> v in names
    case SyncApply(_, p, v) => !Bound(cfg, p) ==> v in names
    case SyncWrite(_, p, v, t, _, _) => !Bound(cfg, p) ==> v in names && t in names
    case SyncMemo(_, p, v, _) => !Bound(cfg, p) ==> v in names
    case _ => true
  }

  ghost predicate KnownNames(cfg: Config, names: iset<NamespacedName>, s: State) {
    CacheNames(cfg, names, s.cache) && PCNames(cfg, names, s.pc)
  }

  lemma {:induction false} ResolvedKnown(cfg: Config, names: iset<NamespacedName>, cache: Log, h: string)
    requires AllForward(cfg.physical, cache) && SlashFree(cfg.physical) && '/' !in h && CacheNames(cfg, names, cache)
    requires ResolveSelectors(cache, h, cfg.selectors).name != ""
    ensures ResolveSelectors(cache, h, cfg.selectors) in names
  {
    ResolveSelectorsForward(cfg.physical, cache, h, cfg.selectors);
  }

  lemma {:induction false} KnownStep(cfg: Config, names: iset<NamespacedName>, s: State, a: Action, s': State)
    requires Inv(cfg, s) && Next(cfg, s, a, s') && Tame(cfg, names, a) && KnownNames(cfg, names, s)
    ensures KnownNames(cfg, names, s')
  {
    hide Inv, CacheNames, PCNames, Bound, PhysicalToVirtual, IsExcluded, PatchApi;
    if a.CacheCall? {
      KnownCache(cfg, names, s.cache, a.op);
    } else if Resolves(a) {
      KnownResolves(cfg, names, s, a, s');
    } else {
      KnownRest(cfg, names, s, a, s');
    }
  }

  lemma {:induction false} KnownResolves(cfg: Config, names: iset<NamespacedName>, s: State, a: Action, s': State)
    requires Inv(cfg, s) && Next(cfg, s, a, s') && Resolves(a) && KnownNames(cfg, names, s)
    ensures PCNames(cfg, names, s'.pc)
  {
    hide AllForward, BindingsForward, GoodCopy, MarkedFor, Bound, CacheNames;
    if ResolveSelectors(s.cache, s.pc.h, cfg.selectors).name != "" {
      ResolvedKnown(cfg, names, s.cache, s.pc.h);
    }
  }

  lemma {:induction false} KnownRest(cfg: Config, names: iset<NamespacedName>, s: State, a: Action, s': State)
    requires Next(cfg, s, a, s') && !Resolves(a) && PCNames(cfg, names, s.pc)
    ensures PCNames(cfg, names, s'.pc)
  {
    hide Bound, IsExcluded, PatchApi, Translate, Apply1, ForeignHostChange, AllowedCall, Annotated, Stripped,
         Translated;
  }

  lemma {:induction false} KnownCache(cfg: Config, names: iset<NamespacedName>, cache: Log, op: Op)
    requires CacheNames(cfg, names, cache) && Tame(cfg, names, CacheCall(op))
    ensures CacheNames(cfg, names, Apply1(cache, op))
  {
    WithoutMembers(cache, if op.Exchange? then op.om.name else op.name);
  }

  /** The object that is written is the one whose name the host object is marked with. */
  lemma {:induction false} TargetIsName(cfg: Config, names: iset<NamespacedName>, s: State)
    requires Inv(cfg, s) && KnownNames(cfg, names, s) && OneName(cfg.physical, names)
    requires s.pc.UpWrite? || s.pc.SyncWrite?
    ensures s.pc.target == s.pc.v
  {
    if s.pc.UpWrite? && Bound(cfg, s.pc.found) {
      MarkedForBinding(cfg, s.pc.found, s.pc.v);
    }
  }

  // ----- deletion safety

  ghost predicate Twin(cfg: Config, existed: set<NamespacedName>, p: HostObj) {
    Bound(cfg, p) ==> Binding(p) in existed
  }

  /** Each bound object has had a virtual twin, unless the running reconcile has only just marked it. */
  ghost predicate HostTwins(cfg: Config, s: State) {
    forall h :: h in s.host ==> Twin(cfg, s.existed, s.host[h]) || (InFlight(s.pc) && s.pc.h == h)
  }

  /** The same of the copies and names the reconcile holds. */
  ghost predicate CopyTwins(cfg: Config, s: State) {
    match s.pc
    case HaveHost(_, p) => p.Some? ==> Twin(cfg, s.existed, p.value)
    case HaveName(_, p, _) => p.Some? ==> Twin(cfg, s.existed, p.value)
    case Up(_, p, _) => Twin(cfg, s.existed, p)
    case UpMemo(_, _, v, _) => v in s.existed
    case Sync(_, _, v, _) => v in s.existed
    case SyncApply(_, _, v) => v in s.existed
    case SyncWrite(_, _, v, _, _, _) => v in s.existed
    case SyncMemo(_, _, v, _) => v in s.existed
    case _ => true
  }

  ghost predicate Accounted(cfg: Config, s: State) {
    && s.virt.Keys <= s.existed
    && (!s.leftBehind ==> HostTwins(cfg, s) && CopyTwins(cfg, s))
  }

  lemma {:induction false} AccountedWorldHost(cfg: Config, s: State, host: map<string, HostObj>, s': State)
    requires Inv(cfg, s) && Accounted(cfg, s) && Next(cfg, s, WorldHost(host), s')
    ensures Accounted(cfg, s')
  {
    forall h | h in host && !s.leftBehind
      ensures Twin(cfg, s'.existed, host[h]) || (InFlight(s'.pc) && s'.pc.h == h)
    {
      var was := if h in s.host then s.host[h] else HostObj(map[], map[], map[], "");
      if Bound(cfg, host[h]) {
        BoundWithin(cfg, host[h], was);
      }
    }
  }

  lemma {:induction false} SavedTwin(cfg: Config, s: State, h: string, p: HostObj, v: NamespacedName, memo: StringMap)
    requires h in s.host && GoodCopy(cfg, s.host, h, p) && v in s.existed
    ensures Twin(cfg, s.existed, PatchHost(s.host[h], p, Annotated(cfg, p, v, memo)))
  {
    var patched := PatchHost(s.host[h], p, Annotated(cfg, p, v, memo));
    PatchMarks(cfg, s.host[h], p, v, memo);
    if Bound(cfg, patched) {
      MarkedForBinding(cfg, patched, v);
    }
  }

  /** Saving with a name that has existed keeps the account. */
  lemma {:induction false} AccountedSave(cfg: Config, s: State, a: Action, s': State)
    requires Inv(cfg, s) && Accounted(cfg, s) && Next(cfg, s, a, s') && (a.SaveMemo? || a.SaveSync?)
    ensures Accounted(cfg, s')
  {
    PatchEffect(cfg, s, a, s');
    hide Next, GoodCopy, GoodName, MarkedFor, BindingsForward, Annotated, PatchHost, Twin, ForwardBound;
    assert s'.existed == s.existed;
    if s.pc.h in s.host && !s.leftBehind {
      SavedTwin(cfg, s, s.pc.h, s.pc.found, s.pc.v, PatchMemo(s, a));
    }
  }

  /** A finished rollback leaves no binding; a failed one on an existing object is left behind. */
  lemma {:induction false} AccountedRollback(cfg: Config, s: State, ok: bool, s': State)
    requires Inv(cfg, s) && Accounted(cfg, s) && Next(cfg, s, Rollback(ok), s')
    ensures Accounted(cfg, s')
  {
    hide ForwardBound, GoodName, PatchHost, MarkedFor;
    var h, p := s.pc.h, s.pc.found;
    if h in s.host {
      PatchStrips(cfg, s.host[h], p);
      if p == Stripped(p) && Bound(cfg, s.host[h]) {
        BoundWithin(cfg, s.host[h], p);
      }
    }
  }

  /** The object about to be written first is the one the host object is marked with. */
  predicate OnName(pc: PC) {
    pc.UpWrite? ==> pc.target == pc.v
  }

  /** After the object is written its name has existed, and the marked host object is no longer in flight. */
  lemma {:induction false} AccountedWrite(cfg: Config, s: State, a: Action, s': State)
    requires Inv(cfg, s) && Accounted(cfg, s) && Next(cfg, s, a, s') && (a.WriteObject? || a.WriteStatus?)
    requires OnName(s.pc)
    ensures Accounted(cfg, s')
  {
    hide ForwardBound, IsExcluded, AllForward, BindingsForward, SlashFree, GoodName;
    var h, p, v := s.pc.h, s.pc.found, s.pc.v;
    if s.pc.UpWrite? && h in s.host && Bound(cfg, s.host[h]) {
      BoundWithin(cfg, s.host[h], p);
      MarkedForBinding(cfg, p, v);
    }
  }

  lemma {:induction false} AccountedStep(cfg: Config, s: State, a: Action, s': State)
    requires Inv(cfg, s) && Accounted(cfg, s) && Next(cfg, s, a, s') && OnName(s.pc)
    ensures Accounted(cfg, s')
  {
    hide Inv;
    match a
    case WorldHost(host) => AccountedWorldHost(cfg, s, host, s');
    case SaveMemo(_) => AccountedSave(cfg, s, a, s');
    case SaveSync(_) => AccountedSave(cfg, s, a, s');
    case Rollback(ok) => AccountedRollback(cfg, s, ok, s');
    case WriteObject(_, _) => AccountedWrite(cfg, s, a, s');
    case WriteStatus(_, _) => AccountedWrite(cfg, s, a, s');
    case MarkHost(_) => AccountedMark(cfg, s, a, s');
    case DeleteHost(_) => AccountedStop(cfg, s, a, s');
    case ReverseWrite(_, _, _) => AccountedStop(cfg, s, a, s');
    case TranslateName(_, _) => AccountedTranslates(cfg, s, a, s');
    case _ =>
      if ReadsOnly(a) {
        AccountedReads(cfg, s, a, s');
      } else if Resolves(a) {
        AccountedResolves(cfg, s, a, s');
      } else {
        AccountedVirtual(cfg, s, a, s');
      }
  }

  lemma {:induction false} AccountedTranslates(cfg: Config, s: State, a: Action, s': State)
    requires Accounted(cfg, s) && Next(cfg, s, a, s') && a.TranslateName?
    ensures Accounted(cfg, s')
  {
    hide PhysicalToVirtual, IsExcluded, Bound, PatchApi, Translate;
  }

  lemma {:induction false} AccountedMark(cfg: Config, s: State, a: Action, s': State)
    requires Inv(cfg, s) && Accounted(cfg, s) && Next(cfg, s, a, s') && a.MarkHost?
    ensures Accounted(cfg, s')
  {
    hide ForwardBound, GoodName, PatchHost, Annotated;
  }

  lemma {:induction false} AccountedReads(cfg: Config, s: State, a: Action, s': State)
    requires Accounted(cfg, s) && Next(cfg, s, a, s') && ReadsOnly(a)
    ensures Accounted(cfg, s')
  {
    hide PhysicalToVirtual, IsExcluded, Bound, PatchApi;
  }

  lemma {:induction false} AccountedResolves(cfg: Config, s: State, a: Action, s': State)
    requires Accounted(cfg, s) && Next(cfg, s, a, s') && Resolves(a)
    ensures Accounted(cfg, s')
  {
    hide PhysicalToVirtual, IsExcluded, Bound, PatchApi;
  }

  lemma {:induction false} AccountedVirtual(cfg: Config, s: State, a: Action, s': State)
    requires Accounted(cfg, s) && Next(cfg, s, a, s') && (OnVirtual(a) || a.CacheCall?)
    requires !a.WriteObject? && !a.WriteStatus?
    ensures Accounted(cfg, s')
  {
    hide PhysicalToVirtual, IsExcluded, Bound, PatchApi, Apply1;
    assert s'.host == s.host && s.existed <= s'.existed && s'.leftBehind == s.leftBehind;
  }

  lemma {:induction false} AccountedStop(cfg: Config, s: State, a: Action, s': State)
    requires Accounted(cfg, s) && Next(cfg, s, a, s') && (a.DeleteHost? || a.ReverseWrite?)
    ensures Accounted(cfg, s')
  {
    hide IsExcluded;
  }

  // ----- objects that are marked wholly or not at all

  ghost predicate Unmarked(p: HostObj) {
    forall k :: IsMarker(k) ==> k !in p.annotations
  }

  ghost predicate Whole(cfg: Config, p: HostObj) {
    Bound(cfg, p) || Unmarked(p)
  }

  ghost predicate AllWhole(cfg: Config, host: map<string, HostObj>) {
    forall h :: h in host ==> Whole(cfg, host[h])
  }

  /** The copies are whole, and marked from the marking to the end. */
  ghost predicate CopyWhole(cfg: Config, pc: PC) {
    match pc
    case Idle => true
    case HaveHost(_, p) => p.Some? ==> Whole(cfg, p.value)
    case HaveName(_, p, _) => p.Some? ==> Whole(cfg, p.value)
    case Down(_, _) => true
    case Up(_, p, _) => Whole(cfg, p)
    case UpMark(_, p, _) => Unmarked(p)
    case UpApply(_, p, _) => Bound(cfg, p)
    case UpWrite(_, p, _, _, _, _) => Bound(cfg, p)
    case UpRollback(_, _, _) => true
    case UpMemo(_, p, _, _) => Bound(cfg, p)
    case Sync(_, p, _, _) => Whole(cfg, p)
    case SyncApply(_, p, _) => Whole(cfg, p)
    case SyncWrite(_, p, _, _, _, _) => Whole(cfg, p)
    case SyncMemo(_, p, _, _) => Whole(cfg, p)
  }

  ghost predicate WholeState(cfg: Config, s: State) {
    AllWhole(cfg, s.host) && CopyWhole(cfg, s.pc)
  }

  /** The names of objects that live in a namespace. */
  ghost function Namespaced(): iset<NamespacedName> {
    iset v: NamespacedName | v.namespace != ""
  }

  /** Marking or re-marking a whole object with a name of its own keeps it whole, and binds it if it was not. */
  lemma {:induction false} PatchWhole(cfg: Config, current: HostObj, p: HostObj, v: NamespacedName, memo: StringMap)
    requires cfg.marker != "" && v.name != "" && v.namespace != ""
    requires MarkersWithin(current.annotations, p.annotations) && Whole(cfg, current) && Whole(cfg, p)
    requires Bound(cfg, p) ==> v == Binding(p)
    ensures var patched := PatchHost(current, p, Annotated(cfg, p, v, memo));
      Whole(cfg, patched) && (Unmarked(p) ==> Bound(cfg, patched) && Binding(patched) == v)
  {
    MarkersDiffer();
    var q := Annotated(cfg, p, v, memo);
    MergeAt(current.annotations, p.annotations, q.annotations, MARKER_LABEL);
    MergeAt(current.annotations, p.annotations, q.annotations, NAME_ANNOTATION);
    MergeAt(current.annotations, p.annotations, q.annotations, NAMESPACE_ANNOTATION);
    assert IsMarker(MARKER_LABEL) && IsMarker(NAME_ANNOTATION) && IsMarker(NAMESPACE_ANNOTATION);
    assert Bound(cfg, p) ==> forall k :: IsMarker(k) ==> k !in Diff(p.annotations, q.annotations);
    hide Merge, Diff;
    var patched := PatchHost(current, p, q);
    assert Bound(cfg, p) && Unmarked(current) ==> Unmarked(patched);
  }

  /** The name a reconcile of a whole object works with has a namespace. */
  lemma {:induction false} HasNamespace(cfg: Config, s: State)
    requires Inv(cfg, s) && KnownNames(cfg, Namespaced(), s)
    requires Patching(s.pc)
    ensures s.pc.v.namespace != ""
  {
    if Bound(cfg, s.pc.found) {
      assert s.pc.v in Namespaced() || s.pc.v == Binding(s.pc.found);
    }
  }

  lemma {:induction false} WholePatches(cfg: Config, s: State, a: Action, s': State)
    requires Inv(cfg, s) && KnownNames(cfg, Namespaced(), s) && WholeState(cfg, s) && Next(cfg, s, a, s') && Patches(a)
    ensures WholeState(cfg, s')
  {
    hide Next, Annotated, PatchHost, Inv, KnownNames, Whole;
    PatchEffect(cfg, s, a, s');
    HasNamespace(cfg, s);
    if s'.pc.UpApply? {
      MarkedWhole(cfg, s, a, s');
    }
    if s.pc.h in s.host {
      WholeSaved(cfg, s, PatchMemo(s, a));
    }
  }

  lemma {:induction false} WholeSaved(cfg: Config, s: State, memo: StringMap)
    requires Inv(cfg, s) && WholeState(cfg, s) && Patching(s.pc) && s.pc.v.namespace != "" && s.pc.h in s.host
    ensures Whole(cfg, PatchHost(s.host[s.pc.h], s.pc.found, Annotated(cfg, s.pc.found, s.pc.v, memo)))
  {
    hide AllForward, BindingsForward, Annotated, PatchHost, MarkedFor, ForwardBound;
    PatchWhole(cfg, s.host[s.pc.h], s.pc.found, s.pc.v, memo);
  }

  /** What marking returns is bound. */
  lemma {:induction false} MarkedWhole(cfg: Config, s: State, a: Action, s': State)
    requires Inv(cfg, s) && WholeState(cfg, s) && Next(cfg, s, a, s') && a.MarkHost? && s'.pc.UpApply?
    requires s.pc.v.namespace != ""
    ensures Bound(cfg, s'.pc.found)
  {
    var UpMark(h, p, v) := s.pc;
    assert IsMarker(MARKER_LABEL);
    if h in s.host {
      PatchWhole(cfg, s.host[h], p, v, map[]);
    }
    hide Merge, Diff, KnownNames, AllForward, BindingsForward;
  }

  lemma {:induction false} WholeRollback(cfg: Config, s: State, ok: bool, s': State)
    requires Inv(cfg, s) && WholeState(cfg, s) && Next(cfg, s, Rollback(ok), s')
    ensures WholeState(cfg, s')
  {
    hide Bound, PatchHost, Stripped;
    if s.pc.h in s.host {
      PatchStrips(cfg, s.host[s.pc.h], s.pc.found);
    }
  }

  lemma {:induction false} WholeRest(cfg: Config, s: State, a: Action, s': State)
    requires WholeState(cfg, s) && Next(cfg, s, a, s') && !Patches(a) && !a.Rollback? && !a.WorldHost?
    ensures CopyWhole(cfg, s'.pc)
  {
    hide PatchApi, PhysicalToVirtual, IsExcluded, Translate, Apply1, Bound, Unmarked, ForeignHostChange, AllowedCall,
         Translated;
  }

  lemma {:induction false} WholeStep(cfg: Config, s: State, a: Action, s': State)
    requires Inv(cfg, s) && KnownNames(cfg, Namespaced(), s) && WholeState(cfg, s) && Next(cfg, s, a, s')
    requires a.WorldHost? ==> AllWhole(cfg, a.host)
    ensures WholeState(cfg, s')
  {
    if Patches(a) {
      WholePatches(cfg, s, a, s');
    } else if a.Rollback? {
      WholeRollback(cfg, s, a.ok, s');
    } else if a.WorldHost? {
      hide CopyWhole;
      assert s'.pc == s.pc;
    } else {
      WholeRest(cfg, s, a, s');
      if a.DeleteHost? || a.ReverseWrite? {
        hide CopyWhole;
        WholeRewritten(cfg, s, a, s');
      } else {
        HostUntouched(cfg, s, a, s');
      }
    }
  }

  lemma {:induction false} WholeRewritten(cfg: Config, s: State, a: Action, s': State)
    requires AllWhole(cfg, s.host) && Next(cfg, s, a, s') && (a.DeleteHost? || a.ReverseWrite?)
    ensures AllWhole(cfg, s'.host)
  {
    hide PatchApi, PhysicalToVirtual, IsExcluded;
  }

  /** In whole states the object written first is the one the host object is marked with, whatever the cache says. */
  lemma {:induction false} WholeOnName(cfg: Config, s: State)
    requires Inv(cfg, s) && WholeState(cfg, s)
    ensures OnName(s.pc)
  {
    if s.pc.UpWrite? {
      MarkedForBinding(cfg, s.pc.found, s.pc.v);
    }
  }

  // ----- over whole runs

  /**
   The rest of the world leaves the annotations of a host object whole, and the names the cache learns have a
   namespace.
   */
  ghost predicate WholeRun(cfg: Config, states: seq<State>, actions: seq<Action>) {
    && Run(cfg, states, actions) && Started(cfg, states[0])
    && AllWhole(cfg, states[0].host) && CacheNames(cfg, Namespaced(), states[0].cache)
    && forall i :: 0 <= i < |actions| ==> Tame(cfg, Namespaced(), actions[i]) && LeavesWhole(cfg, actions[i])
  }

  ghost predicate LeavesWhole(cfg: Config, a: Action) {
    a.WorldHost? ==> AllWhole(cfg, a.host)
  }

  lemma {:induction false} WholeRunKeeps(cfg: Config, states: seq<State>, actions: seq<Action>, n: nat)
    requires WholeRun(cfg, states, actions) && n < |states|
    ensures Inv(cfg, states[n]) && KnownNames(cfg, Namespaced(), states[n])
    ensures WholeState(cfg, states[n]) && Accounted(cfg, states[n])
  {
    if n > 0 {
      WholeRunKeeps(cfg, states, actions, n - 1);
      hide Started, Inv, KnownNames, Accounted, WholeState;
      assert Next(cfg, states[n - 1], actions[n - 1], states[n]) && LeavesWhole(cfg, actions[n - 1]);
      InvStep(cfg, states[n - 1], actions[n - 1], states[n]);
      KnownStep(cfg, Namespaced(), states[n - 1], actions[n - 1], states[n]);
      WholeStep(cfg, states[n - 1], actions[n - 1], states[n]);
      WholeOnName(cfg, states[n - 1]);
      AccountedStep(cfg, states[n - 1], actions[n - 1], states[n]);
    }
  }

  /** What a deletion may rely on, and which bound objects have no virtual object yet. */
  ghost predicate SafeDeletion(cfg: Config, s: State, a: Action) {
    && (a.DeleteHost? ==> s.pc.Up? && Bound(cfg, s.pc.found) && Binding(s.pc.found) in s.existed)
    && forall h :: h in s.host && Bound(cfg, s.host[h]) && Binding(s.host[h]) !in s.existed ==>
         InFlight(s.pc) && s.pc.h == h
  }

  lemma {:induction false} AccountedSafe(cfg: Config, s: State, a: Action, s': State)
    requires Accounted(cfg, s) && Next(cfg, s, a, s') && !s.leftBehind
    ensures SafeDeletion(cfg, s, a)
  {
  }

  /**
   Deletion safety: unless a crash or a failed rollback has left a marked object behind, a reconcile only
   deletes a host object it has found bound to a virtual object that has existed; and a bound host object
   whose virtual object has never existed is one the running reconcile has marked and not finished.
   */
  lemma {:induction false} DeletionSafety(cfg: Config, states: seq<State>, actions: seq<Action>, n: nat)
    requires WholeRun(cfg, states, actions) && n < |actions| && !states[n].leftBehind
    ensures SafeDeletion(cfg, states[n], actions[n])
  {
    WholeRunKeeps(cfg, states, actions, n);
    hide Started, Inv, KnownNames, WholeState;
    assert Next(cfg, states[n], actions[n], states[n + 1]);
    AccountedSafe(cfg, states[n], actions[n], states[n + 1]);
  }

  // ----- partly marked objects

  ghost predicate TameRun(cfg: Config, names: iset<NamespacedName>, states: seq<State>, actions: seq<Action>) {
    && Run(cfg, states, actions) && Started(cfg, states[0]) && CacheNames(cfg, names, states[0].cache)
    && forall i :: 0 <= i < |actions| ==> Tame(cfg, names, actions[i])
  }

  lemma {:induction false} TameRunKnows(cfg: Config, names: iset<NamespacedName>, states: seq<State>,
                                        actions: seq<Action>, n: nat)
    requires TameRun(cfg, names, states, actions) && n < |states|
    ensures Inv(cfg, states[n]) && KnownNames(cfg, names, states[n])
  {
    if n > 0 {
      TameRunKnows(cfg, names, states, actions, n - 1);
      hide Started, Inv, KnownNames;
      assert Next(cfg, states[n - 1], actions[n - 1], states[n]);
      InvStep(cfg, states[n - 1], actions[n - 1], states[n]);
      KnownStep(cfg, names, states[n - 1], actions[n - 1], states[n]);
    }
  }

  lemma {:induction false} TameRunKeeps(cfg: Config, names: iset<NamespacedName>, states: seq<State>,
                                        actions: seq<Action>, n: nat)
    requires TameRun(cfg, names, states, actions) && OneName(cfg.physical, names) && n < |states|
    ensures Accounted(cfg, states[n])
  {
    if n > 0 {
      TameRunKeeps(cfg, names, states, actions, n - 1);
      TameRunKnows(cfg, names, states, actions, n - 1);
      if states[n - 1].pc.UpWrite? {
        TargetIsName(cfg, names, states[n - 1]);
      }
      hide Started, Inv, KnownNames, Accounted;
      assert Next(cfg, states[n - 1], actions[n - 1], states[n]);
      AccountedStep(cfg, states[n - 1], actions[n - 1], states[n]);
    }
  }

  /** The same where single markers may be removed, if the names the cache learns do not collide. */
  lemma {:induction false} DeletionSafetyPartlyMarked(cfg: Config, names: iset<NamespacedName>, states: seq<State>,
                                                      actions: seq<Action>, n: nat)
    requires TameRun(cfg, names, states, actions) && OneName(cfg.physical, names) && n < |actions|
        && !states[n].leftBehind
    ensures SafeDeletion(cfg, states[n], actions[n])
  {
    TameRunKeeps(cfg, names, states, actions, n);
    assert Next(cfg, states[n], actions[n], states[n + 1]);
    AccountedSafe(cfg, states[n], actions[n], states[n + 1]);
  }

  // ----- which object goes

  /** A reconcile of h that has read p and has not decided yet. */
  predicate Deciding(pc: PC, h: string, p: Option<HostObj>) {
    || pc == HaveHost(h, p)
    || (pc.HaveName? && pc.h == h && pc.p == p)
    || (pc.Up? && pc.h == h && p == Some(pc.found))
  }

  /** A reconcile that has taken another way. */
  predicate Decided(pc: PC) {
    !pc.Idle? && !pc.HaveHost? && !pc.HaveName? && !pc.Up?
  }

  ghost predicate SameAt(before: map<string, HostObj>, after: map<string, HostObj>, h: string) {
    (h in before <==> h in after) && (h in before ==> after[h] == before[h])
  }

  lemma {:induction false} DecidedStep(cfg: Config, s: State, a: Action, s': State)
    requires Next(cfg, s, a, s') && !s'.pc.Idle? && Decided(s.pc)
    ensures Decided(s'.pc)
  {
    hide PhysicalToVirtual, IsExcluded, PatchApi, Bound, Translate, Apply1, ForeignHostChange, AllowedCall, Annotated,
         Stripped, Translated, InFlight;
  }

  lemma {:induction false} DecidingStep(cfg: Config, s: State, a: Action, s': State, h: string, p: Option<HostObj>)
    requires Next(cfg, s, a, s') && !s'.pc.Idle? && Deciding(s.pc, h, p)
    ensures Deciding(s'.pc, h, p) || Decided(s'.pc)
    ensures a.WorldHost? || SameAt(s.host, s'.host, h)
  {
    hide PhysicalToVirtual, IsExcluded, PatchApi, Bound, Translate, Apply1, ForeignHostChange, AllowedCall, Annotated,
         Stripped, Translated, InFlight, SameAt;
    DecidingLooks(cfg, s, a, s', h, p);
  }

  lemma {:induction false} DecidingLooks(cfg: Config, s: State, a: Action, s': State, h: string, p: Option<HostObj>)
    requires Next(cfg, s, a, s') && !s'.pc.Idle? && Deciding(s.pc, h, p)
    ensures a.WorldHost? || SameAt(s.host, s'.host, h)
  {
    hide PhysicalToVirtual, IsExcluded, PatchApi, Bound, Translate, Apply1, ForeignHostChange, AllowedCall, Annotated,
         Stripped, Translated, InFlight;
  }

  /** From the read on, the reconcile holds the copy it has read, and nobody else changes the object. */
  ghost predicate Undisturbed(states: seq<State>, actions: seq<Action>, i: nat, n: nat, h: string)
    requires n < |states| && |states| == |actions| + 1
  {
    forall k :: i < k < n && actions[k].WorldHost? ==> SameAt(states[k].host, states[k + 1].host, h)
  }

  lemma {:induction false} HeldCopy(cfg: Config, states: seq<State>, actions: seq<Action>, i: nat, n: nat, h: string)
    requires Run(cfg, states, actions) && i < n < |states| && actions[i] == GetHost(h)
    requires forall k :: i < k <= n ==> !states[k].pc.Idle?
    ensures var p := if h in states[i].host then Some(states[i].host[h]) else None;
      && (Deciding(states[n].pc, h, p) || Decided(states[n].pc))
      && (Deciding(states[n].pc, h, p) && Undisturbed(states, actions, i, n, h) ==>
           SameAt(states[i].host, states[n].host, h))
    decreases n
  {
    var p := if h in states[i].host then Some(states[i].host[h]) else None;
    if n == i + 1 {
      assert Next(cfg, states[i], actions[i], states[n]);
    } else {
      HeldCopy(cfg, states, actions, i, n - 1, h);
      assert Next(cfg, states[n - 1], actions[n - 1], states[n]);
      hide Next, Run;
      if Decided(states[n - 1].pc) {
        DecidedStep(cfg, states[n - 1], actions[n - 1], states[n]);
      } else {
        DecidingStep(cfg, states[n - 1], actions[n - 1], states[n], h, p);
      }
      if Undisturbed(states, actions, i, n, h) {
        assert Undisturbed(states, actions, i, n - 1, h);
      }
    }
  }

  /**
   If nobody else changes the object between the read and the deletion, the object that goes is the one that
   was read, and it is bound to a virtual object that has existed.
   */
  lemma {:induction false} DeletedIsRead(cfg: Config, states: seq<State>, actions: seq<Action>, i: nat, n: nat,
                                         h: string)
    requires WholeRun(cfg, states, actions) && i < n < |actions| && !states[n].leftBehind
    requires actions[i] == GetHost(h) && actions[n] == DeleteHost(true) && forall k :: i < k <= n ==>
        !states[k].pc.Idle?
    requires Undisturbed(states, actions, i, n, h) && h in states[n].host
    ensures states[n].pc.Up? && states[n].pc.h == h && h in states[i].host
    ensures states[n].host[h] == states[i].host[h] == states[n].pc.found
    ensures h !in states[n + 1].host && Bound(cfg, states[n].host[h]) && Binding(states[n].host[h]) in states[n].existed
  {
    DeletionSafety(cfg, states, actions, n);
    HeldCopy(cfg, states, actions, i, n, h);
    assert Next(cfg, states[n], actions[n], states[n + 1]);
    hide Started, Run;
  }

  /**
   Whoever changed the object in between: the object that goes is bound exactly if its markers were left, and
   then to what the copy was bound to.
   */
  lemma {:induction false} DeletedIsBound(cfg: Config, states: seq<State>, actions: seq<Action>, n: nat)
    requires Run(cfg, states, actions) && Started(cfg, states[0]) && n < |actions|
    requires actions[n] == DeleteHost(true) && states[n].pc.Up? && states[n].pc.h in states[n].host
    ensures var now := states[n].host[states[n].pc.h];
      && (Bound(cfg, now) <==> forall k :: IsMarker(k) ==> k in now.annotations)
      && (Bound(cfg, now) ==> Binding(now) == Binding(states[n].pc.found))
      && states[n].pc.h !in states[n + 1].host
  {
    InvRun(cfg, states, actions, n);
    assert Next(cfg, states[n], actions[n], states[n + 1]);
    var now, found := states[n].host[states[n].pc.h], states[n].pc.found;
    assert IsMarker(MARKER_LABEL) && IsMarker(NAME_ANNOTATION) && IsMarker(NAMESPACE_ANNOTATION);
    if Bound(cfg, now) {
      BoundWithin(cfg, now, found);
    }
  }
}
