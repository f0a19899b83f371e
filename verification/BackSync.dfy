/**
 pkg/syncer/back_syncer.go as a state machine: one reconcile at a time, its API calls one step each,
 interleaved with the event handlers, the name cache and the rest of the world.
 */
module BackSync {
  import opened Strings
  import opened Names
  import opened CacheLog
  import opened MappingSource
  import opened Lookup

  const MARKER_LABEL := "vcluster.loft.sh/managed-by"
  const NAME_ANNOTATION := "vcluster.loft.sh/object-name"
  const NAMESPACE_ANNOTATION := "vcluster.loft.sh/object-namespace"
  const CONTROLLED_BY_LABEL := "vcluster.loft.sh/controlled-by"

  type StringMap = map<string, string>

  /** The controller's fixed parameters; marker is the name of the virtual cluster. */
  datatype Config = Config(marker: string, controllerID: string, selectors: seq<Selector>, physical: Physical)

  /** A host object; memo is the decoded mappings annotation, empty if there is none. */
  datatype HostObj = HostObj(annotations: StringMap, memo: StringMap, labels: StringMap, content: string)

  datatype VirtObj = VirtObj(labels: StringMap, content: string)

  /**
   How far the running reconcile has come, with the copies it has read. While the virtual object is written,
   base is what the patches start from, and memo the names translated so far.
   */
  datatype PC =
    | Idle
    | HaveHost(h: string, p: Option<HostObj>)
    | HaveName(h: string, p: Option<HostObj>, v: NamespacedName)
    | Down(v: NamespacedName, w: VirtObj)
    | Up(h: string, found: HostObj, v: NamespacedName)
    | UpMark(h: string, found: HostObj, v: NamespacedName)
    | UpApply(h: string, found: HostObj, v: NamespacedName)
    | UpWrite(h: string, found: HostObj, v: NamespacedName, target: NamespacedName, base: VirtObj, memo: StringMap)
    | UpRollback(h: string, found: HostObj, v: NamespacedName)
    | UpMemo(h: string, found: HostObj, v: NamespacedName, memo: StringMap)
    | Sync(h: string, found: HostObj, v: NamespacedName, w: VirtObj)
    | SyncApply(h: string, found: HostObj, v: NamespacedName)
    | SyncWrite(h: string, found: HostObj, v: NamespacedName, target: NamespacedName, base: VirtObj, memo: StringMap)
    | SyncMemo(h: string, found: HostObj, v: NamespacedName, memo: StringMap)

  /**
   The two clusters, the name cache and the reconcile in progress. History: every virtual object that ever
   existed, the host objects whose deletion was reported, and whether a marked object was left behind by a
   crash or a failed rollback.
   */
  datatype State = State(
    host: map<string, HostObj>,
    virt: map<NamespacedName, VirtObj>,
    cache: Log,
    pc: PC,
    existed: set<NamespacedName>,
    deleted: set<(string, HostObj)>,
    leftBehind: bool)

  /** What the deployment guarantees: a named virtual cluster and controller, and a sane name translation. */
  ghost predicate GoodConfig(cfg: Config) {
    cfg.marker != "" && cfg.controllerID != "" && SlashFree(cfg.physical)
  }

  /** One atomic step; ok is the outcome of an API call, a failed call changes nothing. */
  datatype Action =
    // the reconcile
    | GetHost(h: string)
    | ResolveVirtual
    | GetVirtual
    | DeleteVirtual(ok: bool)
    | DeleteHost(ok: bool)
    | ResolveAgain
    | MarkHost(ok: bool)
    | PatchesFail
    | TranslateUp
    | TranslateName(name: string, path: string)
    | WriteStatus(content: string, ok: bool)
    | WriteObject(patched: VirtObj, ok: bool)
    | Rollback(ok: bool)
    | SaveMemo(ok: bool)
    | ReverseWrite(labels: StringMap, content: string, ok: bool)
    | ReverseNothing
    | TranslateSync
    | SaveSync(ok: bool)
    | GiveUp
    // event handlers
    | VirtualEvent(v: NamespacedName)
    | HostDeletedEvent(h: string, was: HostObj)
    // everything else
    | Crash
    | WorldHost(host: map<string, HostObj>)
    | WorldVirtual(virt: map<NamespacedName, VirtObj>)
    | CacheCall(op: Op)

  // ----- the source's small functions

  /** A Go map lookup: the empty string if absent. */
  function Get(m: StringMap, k: string): string {
    if k in m then m[k] else ""
  }

  /** containsBackSyncNameAnnotations */
  predicate Bound(cfg: Config, p: HostObj) {
    && Get(p.annotations, MARKER_LABEL) == cfg.marker
    && Get(p.annotations, NAME_ANNOTATION) != ""
    && Get(p.annotations, NAMESPACE_ANNOTATION) != ""
  }

  function Binding(p: HostObj): NamespacedName {
    NamespacedName(Get(p.annotations, NAMESPACE_ANNOTATION), Get(p.annotations, NAME_ANNOTATION))
  }

  function PhysicalToVirtual(cfg: Config, cache: Log, h: string, p: Option<HostObj>): NamespacedName {
    if p.Some? && Bound(cfg, p.value) then Binding(p.value) else ResolveSelectors(cache, h, cfg.selectors)
  }

  predicate IsExcluded(cfg: Config, w: VirtObj) {
    Get(w.labels, CONTROLLED_BY_LABEL) != cfg.controllerID
  }

  /** translateMetadata: what the patches start from carries the controller's label. */
  function Translated(cfg: Config, p: HostObj): VirtObj {
    VirtObj(p.labels[CONTROLLED_BY_LABEL := cfg.controllerID], p.content)
  }

  function Annotated(cfg: Config, p: HostObj, v: NamespacedName, memo: StringMap): HostObj {
    p.(annotations := p.annotations[MARKER_LABEL := cfg.marker][NAME_ANNOTATION := v.name][NAMESPACE_ANNOTATION :=
        v.namespace],
       memo := memo)
  }

  function Stripped(p: HostObj): HostObj {
    p.(annotations := p.annotations - {MARKER_LABEL, NAME_ANNOTATION, NAMESPACE_ANNOTATION}, memo := map[])
  }

  /** client.MergeFrom: the keys that differ, with their new values. */
  function Diff(a: StringMap, b: StringMap): map<string, Option<string>> {
    map k | k in a.Keys + b.Keys && (k !in a || k !in b || a[k] != b[k]) :: if k in b then Some(b[k]) else None
  }

  /** What the API server makes of such a patch. */
  function Merge(current: StringMap, d: map<string, Option<string>>): StringMap {
    map k | k in current.Keys + d.Keys && (k in d ==> d[k].Some?) :: if k in d then d[k].value else current[k]
  }

  function PatchHost(current: HostObj, from: HostObj, to: HostObj): HostObj {
    current.(annotations := Merge(current.annotations, Diff(from.annotations, to.annotations)),
             memo := if from.memo == to.memo then current.memo else to.memo)
  }

  /** Patching a host object from one copy to another: no call if nothing differs, an error if it is gone. */
  function PatchApi(host: map<string, HostObj>, h: string, from: HostObj, to: HostObj, ok: bool)
    : Option<(map<string, HostObj>, HostObj)>
  {
    if from == to then Some((host, to))
    else if !ok || h !in host then None
    else
      var patched := PatchHost(host[h], from, to);
      Some((host[h := patched], patched))
  }

  // ----- the steps

  /** Records the virtual objects that exist. */
  function Recorded(s: State): State {
    s.(existed := s.existed + s.virt.Keys)
  }

  /** Where a reconcile goes when its patches or writes fail. */
  function Failed(pc: PC): PC {
    if pc.UpWrite? then UpRollback(pc.h, pc.found, pc.v) else Idle
  }

  /** The reconcile remembers a translation. */
  function Learned(pc: PC, key: string, value: string): PC {
    match pc
    case UpWrite(h, p, v, t, base, memo) => UpWrite(h, p, v, t, base, memo[key := value])
    case SyncWrite(h, p, v, t, base, memo) => SyncWrite(h, p, v, t, base, memo[key := value])
    case _ => pc
  }

  function Stop(s: State): State {
    s.(pc := Idle)
  }

  ghost function Apply(cfg: Config, s: State, a: Action): Option<State> {
    match a
    case GetHost(h) =>
      // requests name host objects
      if !s.pc.Idle? || '/' in h then None
      else Some(s.(pc := HaveHost(h, if h in s.host then Some(s.host[h]) else None)))
    case ResolveVirtual =>
      if !s.pc.HaveHost? then None
      else
        var v := PhysicalToVirtual(cfg, s.cache, s.pc.h, s.pc.p);
        Some(if v.name == "" then Stop(s) else s.(pc := HaveName(s.pc.h, s.pc.p, v)))
    case GetVirtual =>
      if !s.pc.HaveName? then None
      else
        var HaveName(h, p, v) := s.pc;
        Some(if v in s.virt && p.None? then s.(pc := Down(v, s.virt[v]))
             else if v in s.virt then s.(pc := Sync(h, p.value, v, s.virt[v]))
             else if p.Some? then s.(pc := Up(h, p.value, v))
             else Stop(s))
    case DeleteVirtual(ok) =>
      if !s.pc.Down? then None
      else if IsExcluded(cfg, s.pc.w) || !ok then Some(Stop(s))
      else Some(Stop(s).(virt := s.virt - {s.pc.v}))
    case DeleteHost(ok) =>
      if !s.pc.Up? || !Bound(cfg, s.pc.found) then None
      else if !ok || s.pc.h !in s.host then Some(Stop(s))
      else Some(Stop(s).(host := s.host - {s.pc.h}, deleted := s.deleted + {(s.pc.h, s.host[s.pc.h])}))
    case ResolveAgain =>
      if !s.pc.Up? || Bound(cfg, s.pc.found) then None
      else
        var v := PhysicalToVirtual(cfg, s.cache, s.pc.h, Some(s.pc.found));
        Some(if v.name == "" then Stop(s) else s.(pc := UpMark(s.pc.h, s.pc.found, v)))
    case MarkHost(ok) =>
      if !s.pc.UpMark? then None
      else
        var UpMark(h, found, v) := s.pc;
        var r := PatchApi(s.host, h, found, Annotated(cfg, found, v, map[]), ok);
        Some(if r.None? then Stop(s) else s.(host := r.value.0, pc := UpApply(h, r.value.1, v)))
    case TranslateUp =>
      if !s.pc.UpApply? then None
      else
        var UpApply(h, found, v) := s.pc;
        var target := PhysicalToVirtual(cfg, s.cache, h, Some(found));
        Some(s.(pc := if target.name == "" then UpRollback(h, found, v)
                      else UpWrite(h, found, v, target, Translated(cfg, found), map[])))
    case TranslateName(name, path) =>
      if !s.pc.UpWrite? && !s.pc.SyncWrite? then None
      else
        var r := Translate(s.cache, s.pc.memo, name, path);
        Some(s.(pc := if r.None? then Failed(s.pc) else Learned(s.pc, PathKey(name, path), r.value)))
    case PatchesFail =>
      if s.pc.UpWrite? || s.pc.SyncApply? || s.pc.SyncWrite? then Some(s.(pc := Failed(s.pc)))
      else None
    case WriteStatus(content, ok) =>
      if !s.pc.UpWrite? && !s.pc.SyncWrite? then None
      else if ok && s.pc.target in s.virt then
        Some(s.(virt := s.virt[s.pc.target := s.virt[s.pc.target].(content := content)]))
      else Some(s.(pc := Failed(s.pc)))
    case WriteObject(patched, ok) =>
      if !s.pc.UpWrite? && !s.pc.SyncWrite? then None
      else if ok then
        Some(s.(virt := s.virt[s.pc.target := patched],
                pc := if s.pc.UpWrite? then UpMemo(s.pc.h, s.pc.found, s.pc.v, s.pc.memo)
                      else SyncMemo(s.pc.h, s.pc.found, s.pc.v, s.pc.memo)))
      else Some(s.(pc := Failed(s.pc)))
    case Rollback(ok) =>
      if !s.pc.UpRollback? then None
      else
        var r := PatchApi(s.host, s.pc.h, s.pc.found, Stripped(s.pc.found), ok);
        Some(if r.None? then Stop(s).(leftBehind := s.leftBehind || s.pc.h in s.host)
             else Stop(s).(host := r.value.0))
    case SaveMemo(ok) =>
      if !s.pc.UpMemo? then None
      else
        var r := PatchApi(s.host, s.pc.h, s.pc.found, Annotated(cfg, s.pc.found, s.pc.v, s.pc.memo), ok);
        Some(if r.None? then Stop(s) else Stop(s).(host := r.value.0))
    case ReverseWrite(labels, content, ok) =>
      if !s.pc.Sync? || IsExcluded(cfg, s.pc.w) then None
      // updates carry the resource version that was read
      else if ok && s.pc.h in s.host && s.host[s.pc.h] == s.pc.found then
        Some(Stop(s).(host := s.host[s.pc.h := s.pc.found.(labels := labels, content := content)]))
      else Some(Stop(s))
    case ReverseNothing =>
      if !s.pc.Sync? || IsExcluded(cfg, s.pc.w) then None
      else Some(s.(pc := SyncApply(s.pc.h, s.pc.found, s.pc.v)))
    case TranslateSync =>
      if !s.pc.SyncApply? then None
      else
        var SyncApply(h, found, v) := s.pc;
        var target := PhysicalToVirtual(cfg, s.cache, h, Some(found));
        Some(s.(pc := if target.name == "" then Idle
                      else SyncWrite(h, found, v, target, Translated(cfg, found), found.memo)))
    case SaveSync(ok) =>
      if !s.pc.SyncMemo? then None
      else
        var r := PatchApi(s.host, s.pc.h, s.pc.found, Annotated(cfg, s.pc.found, s.pc.v, s.pc.memo), ok);
        Some(if r.None? then Stop(s) else Stop(s).(host := r.value.0))
    case GiveUp =>
      // read errors, excluded objects and errors of the reverse patches end the reconcile without a write
      if s.pc.HaveHost? || s.pc.HaveName? || s.pc.Sync? then Some(Stop(s)) else None
    case VirtualEvent(v) =>
      if v !in s.virt || IsExcluded(cfg, s.virt[v])
        || exists h :: h in s.host && Bound(cfg, s.host[h]) && Encode(Binding(s.host[h])) == Encode(v)
      then Some(s)
      else Some(s.(virt := s.virt - {v}))
    case HostDeletedEvent(h, was) =>
      if (h, was) !in s.deleted then None
      else
        var v := PhysicalToVirtual(cfg, s.cache, h, Some(was));
        Some(if v !in s.virt || IsExcluded(cfg, s.virt[v]) then s else s.(virt := s.virt - {v}))
    case Crash => Some(Stop(s).(leftBehind := s.leftBehind || InFlight(s.pc)))
    case WorldHost(host) =>
      if ForeignHostChange(cfg, s.host, host) then
        Some(s.(host := host, deleted := s.deleted + set h | h in s.host && h !in host :: (h, s.host[h])))
      else None
    case WorldVirtual(virt) => Some(s.(virt := virt))
    case CacheCall(op) => if AllowedCall(cfg, op) then Some(s.(cache := Apply1(s.cache, op))) else None
  }

  ghost predicate Next(cfg: Config, s: State, a: Action, s': State) {
    Apply(cfg, s, a).Some? && s' == Recorded(Apply(cfg, s, a).value)
  }

  function Apply1(cache: Log, op: Op): Log {
    ApplyOp(cache, op, op.gvk)
  }

  /** The reconcile has marked a host object whose virtual object it has not written yet. */
  predicate InFlight(pc: PC) {
    pc.UpApply? || pc.UpWrite? || pc.UpRollback?
  }

  predicate IsMarker(k: string) {
    k == MARKER_LABEL || k == NAME_ANNOTATION || k == NAMESPACE_ANNOTATION
  }

  /** Every marker annotation of an object is one the other copy has, with the same value. */
  predicate MarkersWithin(a: StringMap, b: StringMap) {
    forall k :: k in a && IsMarker(k) ==> k in b && a[k] == b[k]
  }

  /**
   The rest of the world creates, changes and deletes host objects with slash-free names as it likes, but
   never writes the plugin's own annotations; it may remove marker annotations.
   */
  predicate ForeignHostChange(cfg: Config, before: map<string, HostObj>, after: map<string, HostObj>) {
    forall h :: h in after ==>
      && '/' !in h
      && var was := if h in before then before[h] else HostObj(map[], map[], map[], "");
         && MarkersWithin(after[h].annotations, was.annotations)
         && (after[h].memo == was.memo || (after[h].memo == map[] && !Bound(cfg, after[h])))
  }

  /** The cache is only fed by handlers, whose values map forward. */
  ghost predicate AllowedCall(cfg: Config, op: Op) {
    op.Exchange? ==> Forward(cfg.physical, op.om.mappings) && op.om.name != ""
  }
}
