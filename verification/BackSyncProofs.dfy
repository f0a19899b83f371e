/** What every run of the back syncer keeps, and what follows over whole runs. */
module BackSyncProofs {
  import opened Strings
  import opened Names
  import opened CacheLog
  import opened MappingSource
  import opened Lookup
  import opened BackSync

  /** A copy of a host object is still good: the stored object has no marker the copy lacks, and no other memo. */
  ghost predicate GoodCopy(cfg: Config, host: map<string, HostObj>, h: string, p: HostObj) {
    h in host ==>
      && MarkersWithin(host[h].annotations, p.annotations)
      && (host[h].memo == p.memo || (host[h].memo == map[] && !Bound(cfg, host[h])))
  }

  /** A marked object maps forward to its own host name. */
  ghost predicate ForwardBound(cfg: Config, h: string, p: HostObj) {
    Bound(cfg, p) ==> Host(cfg.physical, Binding(p)) == h
  }

  /** The name a reconcile works with: it maps forward, and it is the bound name of a bound copy. */
  ghost predicate GoodName(cfg: Config, h: string, p: HostObj, v: NamespacedName) {
    '/' !in h && v.name != "" && Host(cfg.physical, v) == h && (Bound(cfg, p) ==> v == Binding(p))
  }

  /** Each marker of the copy is the one marking it with v would write. */
  ghost predicate MarkedFor(cfg: Config, p: HostObj, v: NamespacedName) {
    MarkersWithin(p.annotations, map[MARKER_LABEL := cfg.marker, NAME_ANNOTATION := v.name,
        NAMESPACE_ANNOTATION := v.namespace])
  }

  /** What is known about the copies of the running reconcile. */
  ghost predicate GoodPC(cfg: Config, s: State) {
    match s.pc
    case Idle => true
    case HaveHost(h, p) => '/' !in h && (p.Some? ==> GoodCopy(cfg, s.host, h, p.value) && ForwardBound(cfg, h, p.value))
    case HaveName(h, p, v) =>
      p.Some? ==> GoodCopy(cfg, s.host, h, p.value) && ForwardBound(cfg, h, p.value) && GoodName(cfg, h, p.value, v)
    case Down(v, w) => true
    case Up(h, p, v) => GoodCopy(cfg, s.host, h, p) && ForwardBound(cfg, h, p) && GoodName(cfg, h, p, v)
    case UpMark(h, p, v) => GoodCopy(cfg, s.host, h, p) && !Bound(cfg, p) && GoodName(cfg, h, p, v)
    case UpApply(h, p, v) => GoodCopy(cfg, s.host, h, p) && GoodName(cfg, h, p, v) && MarkedFor(cfg, p, v)
        && p.memo == map[]
    case UpWrite(h, p, v, t, _, _) => GoodCopy(cfg, s.host, h, p) && GoodName(cfg, h, p, v) && MarkedFor(cfg, p, v)
        && p.memo == map[]
      && GoodName(cfg, h, p, t)
    case UpRollback(h, p, v) => GoodCopy(cfg, s.host, h, p) && MarkedFor(cfg, p, v)
    case UpMemo(h, p, v, _) => GoodCopy(cfg, s.host, h, p) && GoodName(cfg, h, p, v) && MarkedFor(cfg, p, v)
        && p.memo == map[]
    case Sync(h, p, v, w) => GoodCopy(cfg, s.host, h, p) && GoodName(cfg, h, p, v)
    case SyncApply(h, p, v) => GoodCopy(cfg, s.host, h, p) && GoodName(cfg, h, p, v)
    case SyncWrite(h, p, v, t, _, memo) => GoodCopy(cfg, s.host, h, p) && GoodName(cfg, h, p, v)
        && GoodName(cfg, h, p, t)
      && p.memo.Keys <= memo.Keys
    case SyncMemo(h, p, v, memo) => GoodCopy(cfg, s.host, h, p) && GoodName(cfg, h, p, v) && p.memo.Keys <= memo.Keys
  }

  ghost predicate BindingsForward(cfg: Config, host: map<string, HostObj>) {
    forall h :: h in host ==> '/' !in h && ForwardBound(cfg, h, host[h])
  }

  ghost predicate Inv(cfg: Config, s: State) {
    && AllForward(cfg.physical, s.cache) && GoodConfig(cfg)
    && BindingsForward(cfg, s.host)
    && GoodPC(cfg, s)
  }

  // ----- annotations and patches

  lemma {:induction false} MergeAt(current: StringMap, a: StringMap, b: StringMap, k: string)
    ensures var m := Merge(current, Diff(a, b));
      if k in Diff(a, b) then
        (k in m <==> k in b) && (k in b ==> m[k] == b[k])
      else (k in m <==> k in current) && (k in current ==> m[k] == current[k])
    ensures k !in Diff(a, b) ==> (k in a <==> k in b) && (k in a ==> a[k] == b[k])
  {
  }

  /** Applying a patch to the very copy it was made from gives exactly the intended object. */
  lemma {:induction false} MergeDiff(a: StringMap, b: StringMap)
    ensures Merge(a, Diff(a, b)) == b
  {
    forall k
      ensures k in Merge(a, Diff(a, b)) <==> k in b
      ensures k in b ==> Merge(a, Diff(a, b))[k] == b[k]
    {
      MergeAt(a, a, b, k);
    }
  }

  lemma {:induction false} MarkersDiffer()
    ensures MARKER_LABEL != NAME_ANNOTATION && MARKER_LABEL != NAMESPACE_ANNOTATION
        && NAME_ANNOTATION != NAMESPACE_ANNOTATION
    ensures CONTROLLED_BY_LABEL != MARKER_LABEL
  {
    assert |MARKER_LABEL| == 27 && |NAME_ANNOTATION| == 28 && |NAMESPACE_ANNOTATION| == 33;
    assert |CONTROLLED_BY_LABEL| == 30;
  }

  /** Markers of a copy determine whether it is bound and to what. */
  lemma {:induction false} BoundWithin(cfg: Config, a: HostObj, b: HostObj)
    requires MarkersWithin(a.annotations, b.annotations) && Bound(cfg, a) && cfg.marker != ""
    ensures Bound(cfg, b) && Binding(a) == Binding(b)
  {
  }

  lemma {:induction false} MarkedForBinding(cfg: Config, p: HostObj, v: NamespacedName)
    requires MarkedFor(cfg, p, v) && Bound(cfg, p)
    ensures Binding(p) == v
  {
    MarkersDiffer();
  }

  /** Marking an object that still is, or is less than, the copy leaves only the intended markers. */
  lemma {:induction false} PatchMarks(cfg: Config, current: HostObj, p: HostObj, v: NamespacedName, memo: StringMap)
    requires MarkersWithin(current.annotations, p.annotations)
    ensures MarkedFor(cfg, PatchHost(current, p, Annotated(cfg, p, v, memo)), v)
  {
    MarkersDiffer();
    var q := Annotated(cfg, p, v, memo);
    var patched := PatchHost(current, p, q);
    forall k | k in patched.annotations && IsMarker(k)
      ensures patched.annotations[k] == q.annotations[k]
    {
      MergeAt(current.annotations, p.annotations, q.annotations, k);
    }
  }

  /** Re-marking a bound object with its own name changes no marker. */
  lemma {:induction false} PatchKeepsMarkers(cfg: Config, current: HostObj, p: HostObj, v: NamespacedName,
                                             memo: StringMap)
    requires MarkersWithin(current.annotations, p.annotations) && cfg.marker != ""
    requires Bound(cfg, current) && (Bound(cfg, p) ==> v == Binding(p))
    ensures var patched := PatchHost(current, p, Annotated(cfg, p, v, memo));
      Bound(cfg, patched) && Binding(patched) == Binding(current)
  {
    MarkersDiffer();
    BoundWithin(cfg, current, p);
    var q := Annotated(cfg, p, v, memo);
    MergeAt(current.annotations, p.annotations, q.annotations, MARKER_LABEL);
    MergeAt(current.annotations, p.annotations, q.annotations, NAME_ANNOTATION);
    MergeAt(current.annotations, p.annotations, q.annotations, NAMESPACE_ANNOTATION);
  }

  /** A rollback removes every marker the copy had. */
  lemma {:induction false} PatchStrips(cfg: Config, current: HostObj, p: HostObj)
    requires MarkersWithin(current.annotations, p.annotations)
    ensures forall k :: IsMarker(k) ==> k !in PatchHost(current, p, Stripped(p)).annotations
  {
    forall k | IsMarker(k)
      ensures k !in PatchHost(current, p, Stripped(p)).annotations
    {
      MergeAt(current.annotations, p.annotations, Stripped(p).annotations, k);
    }
  }

  // ----- the invariant

  /** Any answer of PhysicalToVirtual maps forward, and is the binding of a bound copy. */
  lemma {:induction false} ResolvedGood(cfg: Config, cache: Log, h: string, p: Option<HostObj>)
    requires AllForward(cfg.physical, cache) && SlashFree(cfg.physical) && '/' !in h
    requires p.Some? ==> ForwardBound(cfg, h, p.value)
    requires PhysicalToVirtual(cfg, cache, h, p).name != ""
    ensures Host(cfg.physical, PhysicalToVirtual(cfg, cache, h, p)) == h
    ensures p.Some? ==> GoodName(cfg, h, p.value, PhysicalToVirtual(cfg, cache, h, p))
  {
    if !(p.Some? && Bound(cfg, p.value)) {
      ResolveSelectorsForward(cfg.physical, cache, h, cfg.selectors);
    }
  }

  /** Copies stay good while the rest of the world changes host objects. */
  lemma {:induction false} WorldKeepsCopy(cfg: Config, s: State, host: map<string, HostObj>, h: string, p: HostObj)
    requires cfg.marker != "" && GoodCopy(cfg, s.host, h, p) && ForeignHostChange(cfg, s.host, host)
    ensures GoodCopy(cfg, host, h, p)
  {
    if h in host {
      var was := if h in s.host then s.host[h] else HostObj(map[], map[], map[], "");
      if Bound(cfg, host[h]) {
        BoundWithin(cfg, host[h], was);
      }
    }
  }

  lemma {:induction false} WorldKeepsForward(cfg: Config, s: State, host: map<string, HostObj>)
    requires cfg.marker != "" && BindingsForward(cfg, s.host) && ForeignHostChange(cfg, s.host, host)
    ensures BindingsForward(cfg, host)
  {
    forall h | h in host
      ensures '/' !in h && ForwardBound(cfg, h, host[h])
    {
      var was := if h in s.host then s.host[h] else HostObj(map[], map[], map[], "");
      if Bound(cfg, host[h]) {
        BoundWithin(cfg, host[h], was);
      }
    }
  }

  /** Steps that resolve the name of the host object. */
  predicate Resolves(a: Action) {
    a.ResolveVirtual? || a.ResolveAgain? || a.TranslateUp? || a.TranslateSync?
  }

  /** Other steps that only read or give up. */
  predicate ReadsOnly(a: Action) {
    a.GetHost? || a.GetVirtual? || a.PatchesFail? || a.ReverseNothing? || a.GiveUp? || a.Crash?
  }

  lemma {:induction false} InvReads(cfg: Config, s: State, a: Action, s': State)
    requires Inv(cfg, s) && Next(cfg, s, a, s') && ReadsOnly(a)
    ensures Inv(cfg, s')
  {
    hide AllForward, Bound, Binding, MarkedFor, PatchApi, Annotated, Stripped, Apply1, ForeignHostChange, IsExcluded,
         InFlight, GoodConfig, AllowedCall, ResolveSelectors;
  }

  lemma {:induction false} InvTranslates(cfg: Config, s: State, name: string, path: string, s': State)
    requires Inv(cfg, s) && Next(cfg, s, TranslateName(name, path), s')
    ensures Inv(cfg, s')
  {
    hide AllForward, Bound, Binding, MarkedFor, Translate, GoodCopy, GoodName, BindingsForward, GoodConfig;
  }

  lemma {:induction false} InvResolves(cfg: Config, s: State, a: Action, s': State)
    requires Inv(cfg, s) && Next(cfg, s, a, s') && Resolves(a)
    ensures Inv(cfg, s')
  {
    hide AllForward, MarkersWithin, Binding, MarkedFor, BindingsForward, PhysicalToVirtual, GoodCopy;
    var h := s.pc.h;
    var p := if a.ResolveVirtual? then s.pc.p else Some(s.pc.found);
    assert '/' !in h && (p.Some? ==> ForwardBound(cfg, h, p.value));
    if PhysicalToVirtual(cfg, s.cache, h, p).name != "" {
      ResolvedGood(cfg, s.cache, h, p);
    }
  }

  /** Steps on virtual objects. */
  predicate OnVirtual(a: Action) {
    a.DeleteVirtual? || a.WriteStatus? || a.WriteObject? || a.VirtualEvent? || a.HostDeletedEvent? || a.WorldVirtual?
  }

  lemma {:induction false} InvVirtual(cfg: Config, s: State, a: Action, s': State)
    requires Inv(cfg, s) && Next(cfg, s, a, s') && OnVirtual(a)
    ensures Inv(cfg, s')
  {
    hide AllForward, MarkersWithin, Bound, Binding, MarkedFor, BindingsForward, GoodCopy, GoodName, IsExcluded,
         PhysicalToVirtual;
  }

  lemma {:induction false} InvCache(cfg: Config, s: State, op: Op, s': State)
    requires Inv(cfg, s) && Next(cfg, s, CacheCall(op), s')
    ensures Inv(cfg, s')
  {
    hide GoodPC, BindingsForward;
    WithoutMembers(s.cache, if op.Exchange? then op.om.name else op.name);
    assert GoodPC(cfg, s') by { CacheIrrelevant(cfg, s, s'.cache, s'.existed); }
  }

  lemma {:induction false} CacheIrrelevant(cfg: Config, s: State, cache: Log, existed: set<NamespacedName>)
    requires GoodPC(cfg, s)
    ensures GoodPC(cfg, s.(cache := cache, existed := existed))
  {
  }

  /** The marking patch a step sends: from which copy, with which name and memo. */
  function PatchMemo(s: State, a: Action): StringMap {
    if a.SaveMemo? && s.pc.UpMemo? then s.pc.memo else if a.SaveSync? && s.pc.SyncMemo? then s.pc.memo else map[]
  }

  predicate Patches(a: Action) {
    a.MarkHost? || a.SaveMemo? || a.SaveSync?
  }

  predicate Patching(pc: PC) {
    pc.UpMark? || pc.UpMemo? || pc.SyncMemo?
  }

  /** A step that patches annotations touches one host object, and that only through the patch. */
  lemma {:induction false} PatchEffect(cfg: Config, s: State, a: Action, s': State)
    requires Next(cfg, s, a, s') && Patches(a)
    ensures Patching(s.pc)
    ensures s'.virt == s.virt && s'.cache == s.cache && s'.leftBehind == s.leftBehind
        && s'.existed == s.existed + s.virt.Keys
    ensures var h, p := s.pc.h, s.pc.found;
      s'.host == s.host
      || (h in s.host && s'.host == s.host[h := PatchHost(s.host[h], p, Annotated(cfg, p, s.pc.v, PatchMemo(s, a)))])
    ensures a.SaveMemo? ==> s'.pc.Idle? && s.pc.UpMemo?
    ensures a.SaveSync? ==> s'.pc.Idle? && s.pc.SyncMemo?
    ensures a.MarkHost? ==> s.pc.UpMark? && (s'.pc.Idle? || (s'.pc.UpApply? && s'.pc.h == s.pc.h && s'.pc.v == s.pc.v))
    ensures a.MarkHost? && s'.pc.Idle? ==> s'.host == s.host
  {
    hide Annotated, PatchHost;
  }

  lemma {:induction false} InvMark(cfg: Config, s: State, ok: bool, s': State)
    requires Inv(cfg, s) && Next(cfg, s, MarkHost(ok), s')
    ensures Inv(cfg, s')
  {
    var UpMark(h, p, v) := s.pc;
    PatchEffect(cfg, s, MarkHost(ok), s');
    if s'.pc.UpApply? {
      MarkedCopy(cfg, s, ok, s');
      hide Next;
      MarkedInv(cfg, s, h, p, v, s'.pc.found, s');
    } else {
      hide Next;
    }
  }

  lemma {:induction false} MarkedInv(cfg: Config, s: State, h: string, p: HostObj, v: NamespacedName, copy: HostObj,
                                     s': State)
    requires Inv(cfg, s) && s.pc == UpMark(h, p, v) && s'.pc == UpApply(h, copy, v) && s'.cache == s.cache
    requires MarkedFor(cfg, copy, v) && copy.memo == map[]
    requires (copy == p && s'.host == s.host) || (h in s.host && s'.host == s.host[h := copy])
    ensures Inv(cfg, s')
  {
    if Bound(cfg, copy) {
      MarkedForBinding(cfg, copy, v);
    }
    hide MarkedFor, AllForward, Bound, Binding;
  }

  /** What marking returns is marked, and is what is stored. */
  lemma {:induction false} MarkedCopy(cfg: Config, s: State, ok: bool, s': State)
    requires Inv(cfg, s) && Next(cfg, s, MarkHost(ok), s') && s'.pc.UpApply?
    ensures var UpMark(h, p, v) := s.pc;
      var copy := s'.pc.found;
      && s'.pc == UpApply(h, copy, v) && MarkedFor(cfg, copy, v) && copy.memo == map[] && s'.cache == s.cache
      && ((copy == p && s'.host == s.host) || (h in s.host && s'.host == s.host[h := copy]))
  {
    var UpMark(h, p, v) := s.pc;
    hide AllForward, SlashFree, IsExcluded, ResolveSelectors, BindingsForward;
    MarkersDiffer();
    if p == Annotated(cfg, p, v, map[]) {
      assert MarkedFor(cfg, p, v);
    } else {
      PatchMarks(cfg, s.host[h], p, v, map[]);
    }
  }

  lemma {:induction false} SavedForward(cfg: Config, host: map<string, HostObj>, h: string, p: HostObj,
                                        v: NamespacedName, memo: StringMap)
    requires BindingsForward(cfg, host) && GoodCopy(cfg, host, h, p) && GoodName(cfg, h, p, v) && h in host
    ensures BindingsForward(cfg, host[h := PatchHost(host[h], p, Annotated(cfg, p, v, memo))])
  {
    PatchMarks(cfg, host[h], p, v, memo);
    var patched := PatchHost(host[h], p, Annotated(cfg, p, v, memo));
    if Bound(cfg, patched) {
      MarkedForBinding(cfg, patched, v);
    }
  }

  lemma {:induction false} InvMemo(cfg: Config, s: State, a: Action, s': State)
    requires Inv(cfg, s) && Next(cfg, s, a, s') && (a.SaveMemo? || a.SaveSync?)
    ensures Inv(cfg, s')
  {
    PatchEffect(cfg, s, a, s');
    hide Next, GoodCopy, GoodName, MarkedFor, BindingsForward, Annotated, PatchHost;
    if s.pc.h in s.host {
      SavedForward(cfg, s.host, s.pc.h, s.pc.found, s.pc.v, PatchMemo(s, a));
    }
  }

  lemma {:induction false} InvRollback(cfg: Config, s: State, ok: bool, s': State)
    requires Inv(cfg, s) && Next(cfg, s, Rollback(ok), s')
    ensures Inv(cfg, s')
  {
    if s.pc.h in s.host {
      PatchStrips(cfg, s.host[s.pc.h], s.pc.found);
    }
  }

  lemma {:induction false} InvWorldHost(cfg: Config, s: State, host: map<string, HostObj>, s': State)
    requires Inv(cfg, s) && Next(cfg, s, WorldHost(host), s')
    ensures Inv(cfg, s')
  {
    WorldKeepsForward(cfg, s, host);
    if s.pc.HaveHost? || s.pc.HaveName? {
      if s.pc.p.Some? {
        WorldKeepsCopy(cfg, s, host, s.pc.h, s.pc.p.value);
      }
    } else if !s.pc.Idle? && !s.pc.Down? {
      WorldKeepsCopy(cfg, s, host, s.pc.h, s.pc.found);
    }
  }

  /** Every step keeps the invariant. */
  lemma {:induction false} InvStep(cfg: Config, s: State, a: Action, s': State)
    requires Inv(cfg, s) && Next(cfg, s, a, s')
    ensures Inv(cfg, s')
  {
    hide Inv;
    match a
    case MarkHost(ok) => InvMark(cfg, s, ok, s');
    case SaveMemo(_) => InvMemo(cfg, s, a, s');
    case SaveSync(_) => InvMemo(cfg, s, a, s');
    case TranslateName(name, path) => InvTranslates(cfg, s, name, path, s');
    case Rollback(ok) => InvRollback(cfg, s, ok, s');
    case WorldHost(host) => InvWorldHost(cfg, s, host, s');
    case CacheCall(op) => InvCache(cfg, s, op, s');
    case DeleteHost(_) => InvHostStop(cfg, s, a, s');
    case ReverseWrite(_, _, _) => InvHostStop(cfg, s, a, s');
    case _ =>
      if ReadsOnly(a) {
        InvReads(cfg, s, a, s');
      } else if Resolves(a) {
        InvResolves(cfg, s, a, s');
      } else {
        InvVirtual(cfg, s, a, s');
      }
  }

  lemma {:induction false} InvHostStop(cfg: Config, s: State, a: Action, s': State)
    requires Inv(cfg, s) && Next(cfg, s, a, s') && (a.DeleteHost? || a.ReverseWrite?)
    ensures Inv(cfg, s')
  {
  }
}
