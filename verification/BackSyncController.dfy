/**
 The back syncer in the form of its source: one reconcile is a method that reads, decides and writes. Between
 any two of its API calls the event handlers, the name cache and the rest of the world may act. Every API call
 is proved to be a step of the state machine, so that what holds of all its runs holds of the controller.
 */
module BackSyncControllers {
  import opened Strings
  import opened Names
  import opened CacheLog
  import opened NameCaches
  import opened MappingSource
  import opened Lookup
  import opened BackSync
  import opened BackSyncProofs
  import opened BackSyncSafety

  lemma {:induction false} RunExtends(cfg: Config, states: seq<State>, actions: seq<Action>, a: Action, s: State)
    requires Run(cfg, states, actions) && Next(cfg, states[|states| - 1], a, s)
    ensures Run(cfg, states + [s], actions + [a])
  {
    var states', actions' := states + [s], actions + [a];
    forall i | 0 <= i < |actions'|
      ensures Next(cfg, states'[i], actions'[i], states'[i + 1])
    {
      if i < |actions| {
        assert Next(cfg, states[i], actions[i], states[i + 1]);
      }
    }
  }

  lemma {:induction false} ReverseWriteStep(cfg: Config, s: State, labels: StringMap, content: string, ok: bool)
    requires s.pc.Sync? && !IsExcluded(cfg, s.pc.w)
    ensures Apply(cfg, s, ReverseWrite(labels, content, ok))
         == Some(s.(pc := Idle,
                    host := if ok && s.pc.h in s.host && s.host[s.pc.h] == s.pc.found then
                              s.host[s.pc.h := s.pc.found.(labels := labels, content := content)]
                            else s.host))
  {
  }

  lemma {:induction false} WorldVirtualStep(cfg: Config, s: State, virt: map<NamespacedName, VirtObj>)
    ensures Apply(cfg, s, WorldVirtual(virt)) == Some(s.(virt := virt))
  {
  }

  lemma {:induction false} WorldHostStep(cfg: Config, s: State, host: map<string, HostObj>)
    requires ForeignHostChange(cfg, s.host, host)
    ensures Apply(cfg, s, WorldHost(host))
         == Some(s.(host := host, deleted := s.deleted + set h | h in s.host && h !in host :: (h, s.host[h])))
  {
  }

  lemma {:induction false} CacheStep(cfg: Config, s: State, op: Op)
    requires AllowedCall(cfg, op)
    ensures Apply(cfg, s, CacheCall(op)) == Some(s.(cache := Apply1(s.cache, op)))
  {
  }

  lemma {:induction false} RollbackStep(cfg: Config, s: State, ok: bool)
    requires s.pc.UpRollback?
    ensures var r := PatchApi(s.host, s.pc.h, s.pc.found, Stripped(s.pc.found), ok);
      Apply(cfg, s, Rollback(ok))
      == Some(s.(pc := Idle, host := if r.None? then s.host else r.value.0,
                 leftBehind := s.leftBehind || (r.None? && s.pc.h in s.host)))
  {
  }

  lemma {:induction false} MarkStep(cfg: Config, s: State, memo: StringMap, ok: bool)
    requires (s.pc.UpMark? && memo == map[]) || ((s.pc.UpMemo? || s.pc.SyncMemo?) && memo == s.pc.memo)
    ensures var r := PatchApi(s.host, s.pc.h, s.pc.found, Annotated(cfg, s.pc.found, s.pc.v, memo), ok);
      Apply(cfg, s, if s.pc.UpMark? then MarkHost(ok) else if s.pc.UpMemo? then SaveMemo(ok) else SaveSync(ok))
      == Some(s.(host := if r.None? then s.host else r.value.0,
                 pc := if s.pc.UpMark? && r.Some? then UpApply(s.pc.h, r.value.1, s.pc.v) else Idle))
  {
    hide PatchApi, Annotated;
  }

  lemma {:induction false} DeleteStep(cfg: Config, s: State, ok: bool)
    requires s.pc.Up? && Bound(cfg, s.pc.found)
    ensures Apply(cfg, s, DeleteHost(ok))
         == Some(s.(pc := Idle, host := if ok && s.pc.h in s.host then s.host - {s.pc.h} else s.host,
                    deleted := if ok && s.pc.h in s.host then s.deleted + {(s.pc.h, s.host[s.pc.h])} else s.deleted))
  {
    hide Bound;
  }

  lemma {:induction false} NameStep(cfg: Config, s: State, name: string, path: string)
    requires s.pc.UpWrite? || s.pc.SyncWrite?
    ensures var r := Translate(s.cache, s.pc.memo, name, path);
      Apply(cfg, s, Action.TranslateName(name, path))
      == Some(s.(pc := if r.None? then Failed(s.pc) else Learned(s.pc, PathKey(name, path), r.value)))
  {
    hide Translate;
  }

  /** At the end of a run the bindings of host objects map forward and belong to one object each. */
  lemma {:induction false} RunBinds(cfg: Config, states: seq<State>, actions: seq<Action>)
    requires Run(cfg, states, actions) && Started(cfg, states[0])
    ensures var host := states[|actions|].host;
      && BindingsForward(cfg, host)
      && forall h, h' :: h in host && h' in host && Bound(cfg, host[h]) && Bound(cfg, host[h']) ==>
           Binding(host[h]) == Binding(host[h']) ==> h == h'
  {
    var n, host := |actions|, states[|actions|].host;
    InvRun(cfg, states, actions, n);
    hide Run, Started, Bound;
    forall h, h' | h in host && h' in host && Bound(cfg, host[h]) && Bound(cfg, host[h'])
        && Binding(host[h]) == Binding(host[h'])
      ensures h == h'
    {
      BindingsInjective(cfg, states, actions, n, n, h, h');
    }
  }

  lemma {:induction false} LearnedKeeps(pc: PC, key: string, value: string)
    requires pc.UpWrite? || pc.SyncWrite?
    ensures var now := Learned(pc, key, value);
      && (if pc.UpWrite? then now.UpWrite? else now.SyncWrite?)
      && now.h == pc.h && now.found == pc.found && now.v == pc.v && now.target == pc.target
      && now.memo == pc.memo[key := value]
  {
  }

  lemma {:induction false} VirtualEventStep(cfg: Config, s: State, v: NamespacedName)
    requires v in s.virt && !IsExcluded(cfg, s.virt[v])
    requires forall h :: h in s.host && Bound(cfg, s.host[h]) ==> Encode(Binding(s.host[h])) != Encode(v)
    ensures Apply(cfg, s, VirtualEvent(v)) == Some(s.(virt := s.virt - {v}))
  {
    hide Bound, IsExcluded, Encode, Binding;
  }

  class BackSyncController {
    const cfg: Config
    /** Feeds the name cache that the controller resolves names with. */
    const handler: FromVirtualHandler

    // the two clusters, and the deletions reported so far
    var host: map<string, HostObj>
    var virt: map<NamespacedName, VirtObj>
    var deleted: set<(string, HostObj)>

    // where the reconcile stands, and the run so far
    ghost var pc: PC
    ghost var existed: set<NamespacedName>
    ghost var leftBehind: bool
    ghost var states: seq<State>
    ghost var actions: seq<Action>

    ghost function Cache(): Log
      reads handler.nameCache
    {
      handler.Content()
    }

    ghost function Now(): State
      reads this, handler.nameCache
    {
      State(host, virt, Cache(), pc, existed, deleted, leftBehind)
    }

    ghost predicate Valid()
      reads this, handler.nameCache
    {
      && handler.Valid() && handler.physical == cfg.physical
      && Run(cfg, states, actions) && states[|states| - 1] == Now()
    }

    /** The last step of the run. */
    ghost function Last(): Action
      reads this
    {
      if actions == [] then Crash else actions[|actions| - 1]
    }

    /** The run goes on from where it was. */
    twostate predicate Continues()
      reads this
    {
      old(states) <= states && old(actions) <= actions
    }

    constructor (cfg: Config, handler: FromVirtualHandler, host: map<string, HostObj>,
                 virt: map<NamespacedName, VirtObj>)
      requires handler.Valid() && handler.physical == cfg.physical
      ensures Valid() && this.cfg == cfg && this.handler == handler && this.host == host && this.virt == virt
      ensures states == [State(host, virt, Cache(), Idle, virt.Keys, {}, false)] && pc == Idle
    {
      this.cfg, this.handler, this.host, this.virt := cfg, handler, host, virt;
      deleted, pc, existed, leftBehind := {}, Idle, virt.Keys, false;
      states, actions := [State(host, virt, handler.Content(), Idle, virt.Keys, {}, false)], [];
    }

    /** What was just done is the given step. */
    ghost method Record(a: Action, before: State)
      requires handler.Valid() && handler.physical == cfg.physical
      requires Run(cfg, states, actions) && states[|states| - 1] == before && Apply(cfg, before, a) == Some(Now())
      modifies `existed, `states, `actions
      ensures Valid() && Continues() && Last() == a
    {
      existed := existed + virt.Keys;
      RunExtends(cfg, states, actions, a, Now());
      states, actions := states + [Now()], actions + [a];
    }

    // ----- everything that may happen between two API calls

    method World()
      requires Valid()
      modifies this, handler.nameCache
      ensures Valid() && Continues() && pc == old(pc) && leftBehind == old(leftBehind)
    {
      var n: int := *;
      while n > 0
        invariant Valid() && Continues() && pc == old(pc) && leftBehind == old(leftBehind)
      {
        n := n - 1;
        if * {
          OthersWrite();
        } else if * {
          CacheChange();
        } else if * {
          var v: NamespacedName := *;
          if v in virt {
            var _ := EnqueueVirtual(v, virt[v], false);
          }
        } else {
          var h: string, was: HostObj := *, *;
          if (h, was) in deleted {
            HostDeleted(h, was);
          }
        }
      }
    }

    /** The rest of the world writes to one of the clusters. */
    method OthersWrite()
      requires Valid()
      modifies this, handler.nameCache
      ensures Valid() && Continues() && pc == old(pc) && leftBehind == old(leftBehind)
    {
      if * {
        VirtualWrite();
      } else {
        HostWrite();
      }
    }

    method VirtualWrite()
      requires Valid()
      modifies `virt, `existed, `states, `actions
      ensures Valid() && Continues() && pc == old(pc) && leftBehind == old(leftBehind)
    {
      hide Apply, Run, FromVirtualHandler.Content, FromVirtualHandler.Valid;
      ghost var before := Now();
      var virt': map<NamespacedName, VirtObj> := *;
      WorldVirtualStep(cfg, before, virt');
      virt := virt';
      Record(WorldVirtual(virt'), before);
    }

    method HostWrite()
      requires Valid()
      modifies `host, `deleted, `existed, `states, `actions
      ensures Valid() && Continues() && pc == old(pc) && leftBehind == old(leftBehind)
    {
      hide Apply, ForeignHostChange, Run, FromVirtualHandler.Content, FromVirtualHandler.Valid;
      ghost var before := Now();
      var host': map<string, HostObj> := *;
      if ForeignHostChange(cfg, host, host') {
        WorldHostStep(cfg, before, host');
        deleted := deleted + set h | h in host && h !in host' :: (h, host[h]);
        host := host';
        Record(WorldHost(host'), before);
      }
    }

    /** The handler of the parent objects feeds the cache: an object is new, has changed, or is gone. */
    method CacheChange()
      requires Valid()
      modifies this, handler.nameCache
      ensures Valid() && Continues() && pc == old(pc) && leftBehind == old(leftBehind)
    {
      var namespace: string, name: string := *, *;
      if * {
        ObjectGone(namespace, name);
      } else {
        ObjectSeen(namespace, name);
      }
    }

    method ObjectGone(namespace: string, name: string)
      requires Valid()
      modifies this, handler.nameCache
      ensures Valid() && Continues() && pc == old(pc) && leftBehind == old(leftBehind)
    {
      hide Apply, Run, Without, AllWoken, GoodPatches;
      ghost var before := Now();
      ghost var fired := handler.OnDelete(namespace, name);
      CacheStep(cfg, before, Remove(handler.gvk, namespace + "/" + name));
      Record(CacheCall(Remove(handler.gvk, namespace + "/" + name)), before);
    }

    method ObjectSeen(namespace: string, name: string)
      requires Valid()
      modifies this, handler.nameCache
      ensures Valid() && Continues() && pc == old(pc) && leftBehind == old(leftBehind)
    {
      hide Apply, Run, Exchanged, Collect, Forward, Facts, AllWoken, GoodPatches;
      ghost var before := Now();
      var fields: map<string, Option<seq<Field>>> := *;
      var obj := VirtualObject(namespace, name, path => if path in fields then fields[path] else Some([]));
      ghost var fired := handler.OnUpdate(obj);
      ghost var facts := Facts(obj, handler.patches);
      if facts.Some? {
        CollectForward(cfg.physical, facts.value);
        ghost var full := namespace + "/" + name;
        assert full[|namespace|] == '/';
        ghost var op := Exchange(handler.gvk, IndexMappings(full, Collect(cfg.physical, facts.value)));
        CacheStep(cfg, before, op);
        Record(CacheCall(op), before);
      }
    }

    // ----- event handlers

    predicate Excluded(w: VirtObj) {
      IsExcluded(cfg, w)
    }

    ghost predicate BoundTo(h: string, v: NamespacedName)
      reads this
    {
      h in host && Bound(cfg, host[h]) && Encode(Binding(host[h])) == Encode(v)
    }

    /**
     enqueueVirtual: the host object bound to a virtual object of ours is to be reconciled; a virtual object of
     ours that no host object is bound to is deleted, unless the event says that it is gone already.
     */
    method EnqueueVirtual(v: NamespacedName, obj: VirtObj, isDelete: bool) returns (request: Option<string>)
      requires Valid() && (v in virt && !isDelete ==> virt[v] == obj)
      modifies this, handler.nameCache
      ensures Valid() && Continues() && pc == old(pc) && leftBehind == old(leftBehind) && host == old(host)
          && Cache() == old(Cache())
      ensures request.Some? ==> !IsExcluded(cfg, obj) && BoundTo(request.value, v)
      ensures request.None? ==> IsExcluded(cfg, obj) || forall h :: !BoundTo(h, v)
      ensures virt == if request.None? && !IsExcluded(cfg, obj) && !isDelete then old(virt) - {v} else old(virt)
    {
      hide Apply, FromVirtualHandler.Valid, FromVirtualHandler.Content, Run, ForeignHostChange, Apply1, IsExcluded;
      request := None;
      ghost var before := Now();
      if Excluded(obj) {
        return;
      }
      if exists h :: h in host && Bound(cfg, host[h]) && Encode(Binding(host[h])) == Encode(v) {
        var h :| h in host && Bound(cfg, host[h]) && Encode(Binding(host[h])) == Encode(v);
        return Some(h);
      }
      if !isDelete && v in virt {
        VirtualEventStep(cfg, before, v);
        virt := virt - {v};
        Record(VirtualEvent(v), before);
      }
    }

    /** The handler of deleted host objects: what the object was bound to, or resolves to now, is deleted. */
    method HostDeleted(h: string, was: HostObj)
      requires Valid() && (h, was) in deleted
      modifies this, handler.nameCache
      ensures Valid() && Continues() && pc == old(pc) && leftBehind == old(leftBehind) && host == old(host)
          && Cache() == old(Cache())
      ensures var v := PhysicalToVirtual(cfg, Cache(), h, Some(was));
        virt == if v in old(virt) && !IsExcluded(cfg, old(virt)[v]) then old(virt) - {v} else old(virt)
    {
      ghost var before := Now();
      var v := Resolved(h, Some(was));
      if v in virt && !Excluded(virt[v]) {
        virt := virt - {v};
      }
      Record(HostDeletedEvent(h, was), before);
    }

    // ----- API calls and reads of the reconcile

    /** PhysicalToVirtual: the annotations of a bound object, otherwise the first selector that the cache answers. */
    method Resolved(h: string, p: Option<HostObj>) returns (v: NamespacedName)
      requires handler.Valid()
      ensures v == PhysicalToVirtual(cfg, Cache(), h, p)
    {
      if p.Some? && Bound(cfg, p.value) {
        return Binding(p.value);
      }
      v := ResolveBySelectors(handler.nameCache, handler.gvk, h, cfg.selectors);
    }

    /** Whether a call fails, which it may unless the reconcile is a smooth one. */
    method Fails(smooth: bool) returns (fails: bool)
      ensures smooth ==> !fails
    {
      fails := *;
      fails := fails && !smooth;
    }

    method ReadHost(h: string) returns (p: Option<HostObj>)
      requires Valid() && pc == Idle && '/' !in h
      modifies this, handler.nameCache
      ensures Valid() && Continues() && leftBehind == old(leftBehind) && pc == HaveHost(h, p)
      ensures p == if h in host then Some(host[h]) else None
    {
      hide FromVirtualHandler.Valid, FromVirtualHandler.Content, Run, Translate, Resolve, ResolveSelectors,
           ForeignHostChange, Apply1, AllForward, GoodPatches, AllowedCall, Bound, PatchApi, PhysicalToVirtual;
      World();
      ghost var before := Now();
      p := if h in host then Some(host[h]) else None;
      pc := HaveHost(h, p);
      Record(GetHost(h), before);
    }

    /** Read errors and excluded objects end a reconcile. */
    ghost method End()
      requires Valid() && (pc.HaveHost? || pc.HaveName? || pc.Sync?)
      modifies this`pc, this`existed, this`states, this`actions
      ensures Valid() && Continues() && pc == Idle && Last() == GiveUp
    {
      ghost var before := Now();
      pc := Idle;
      Record(GiveUp, before);
    }

    method ResolveRequest(h: string, p: Option<HostObj>) returns (v: NamespacedName)
      requires Valid() && pc == HaveHost(h, p)
      modifies this, handler.nameCache
      ensures Valid() && Continues() && leftBehind == old(leftBehind)
      ensures v == PhysicalToVirtual(cfg, Cache(), h, p) && pc == if v.name == "" then Idle else HaveName(h, p, v)
      ensures Last() == ResolveVirtual
    {
      hide FromVirtualHandler.Valid, FromVirtualHandler.Content, Run, Translate, Resolve, ResolveSelectors,
           ForeignHostChange, Apply1, AllForward, GoodPatches, AllowedCall, PatchApi, PhysicalToVirtual, Bound;
      World();
      ghost var before := Now();
      v := Resolved(h, p);
      pc := if v.name == "" then Idle else HaveName(h, p, v);
      Record(ResolveVirtual, before);
    }

    method ReadVirtual(ghost h: string, ghost p: Option<HostObj>, v: NamespacedName) returns (w: Option<VirtObj>)
      requires Valid() && pc == HaveName(h, p, v)
      modifies this, handler.nameCache
      ensures Valid() && Continues() && leftBehind == old(leftBehind)
      ensures w == (if v in virt then Some(virt[v]) else None) && Last() == GetVirtual
      ensures pc == if w.Some? && p.None? then Down(v, w.value) else if w.Some? then PC.Sync(h, p.value, v, w.value)
                    else if p.Some? then Up(h, p.value, v) else Idle
    {
      hide FromVirtualHandler.Valid, FromVirtualHandler.Content, Run, Translate, Resolve, ResolveSelectors,
           ForeignHostChange, Apply1, AllForward, GoodPatches, AllowedCall, Bound, PatchApi, PhysicalToVirtual;
      World();
      ghost var before := Now();
      w := if v in virt then Some(virt[v]) else None;
      pc := if w.Some? && p.None? then Down(v, w.value) else if w.Some? then PC.Sync(h, p.value, v, w.value)
            else if p.Some? then Up(h, p.value, v) else Idle;
      Record(GetVirtual, before);
    }

    /** A patch from one copy to another, as the API server applies it; an error if the call fails or it is gone. */
    method PatchHostObject(h: string, original: HostObj, p: HostObj, smooth: bool)
      returns (r: Option<HostObj>, ghost ok: bool)
      modifies `host
      ensures smooth ==> ok
      ensures var api := PatchApi(old(host), h, original, p, ok);
        && r == (if api.Some? then Some(api.value.1) else None)
        && host == if api.Some? then api.value.0 else old(host)
      ensures r.Some? ==> (h in host && host[h] == r.value) || r.value == original
    {
      ok := true;
      if original == p {
        return Some(p), ok;
      }
      var fails := Fails(smooth);
      ok := !fails;
      if fails || h !in host {
        return None, ok;
      }
      var patched := PatchHost(host[h], original, p);
      host := host[h := patched];
      r := Some(patched);
    }

    /** addAnnotationsToPhysicalObject: marks the host object, or saves the names it was translated with. */
    method AddAnnotations(h: string, pObj: HostObj, v: NamespacedName, mappings: StringMap, smooth: bool)
      returns (r: Option<HostObj>)
      requires Valid()
      requires (pc == UpMark(h, pObj, v) && mappings == map[]) || pc == UpMemo(h, pObj, v, mappings)
          || pc == SyncMemo(h, pObj, v, mappings)
      modifies this, handler.nameCache
      ensures Valid() && Continues() && leftBehind == old(leftBehind)
      ensures pc == if old(pc).UpMark? && r.Some? then UpApply(h, r.value, v) else Idle
      ensures r.Some? ==> (h in host && host[h] == r.value) || r.value == pObj
      ensures smooth ==> Last() == if old(pc).UpMark? then MarkHost(true) else if old(pc).UpMemo? then SaveMemo(true)
          else SaveSync(true)
    {
      hide Apply, FromVirtualHandler.Valid, FromVirtualHandler.Content, Run, Translate, Resolve, ResolveSelectors,
           ForeignHostChange, Apply1, AllForward, GoodPatches, AllowedCall, IsExcluded, Bound, PhysicalToVirtual,
           PatchHost, PatchApi, Annotated;
      World();
      ghost var before := Now();
      ghost var ok;
      r, ok := PatchHostObject(h, pObj, Annotated(cfg, pObj, v, mappings), smooth);
      MarkStep(cfg, before, mappings, ok);
      pc := if pc.UpMark? && r.Some? then UpApply(h, r.value, v) else Idle;
      Record(if before.pc.UpMark? then MarkHost(ok) else if before.pc.UpMemo? then SaveMemo(ok)
          else SaveSync(ok), before);
    }

    /** removeAnnotationsFromPhysicalObject, whose error the source drops. */
    method RemoveAnnotations(h: string, pObj: HostObj, ghost v: NamespacedName, smooth: bool)
      requires Valid() && pc == UpRollback(h, pObj, v)
      modifies this, handler.nameCache
      ensures Valid() && Continues() && pc == Idle && (smooth ==> Last() == Rollback(true))
    {
      World();
      StripNow(h, pObj, v, smooth);
    }

    /** The patch call. */
    method StripNow(h: string, pObj: HostObj, ghost v: NamespacedName, smooth: bool)
      requires Valid() && pc == UpRollback(h, pObj, v)
      modifies `host, `leftBehind, `pc, `existed, `states, `actions
      ensures Valid() && Continues() && pc == Idle && (smooth ==> Last() == Rollback(true))
    {
      hide FromVirtualHandler.Valid, FromVirtualHandler.Content, Apply, Run, Translate, Resolve, ResolveSelectors,
           ForeignHostChange, Apply1, AllForward, GoodPatches, AllowedCall, IsExcluded, PhysicalToVirtual, PatchApi,
           Stripped, PatchHost, Bound;
      ghost var before := Now();
      var r; ghost var ok;
      r, ok := PatchHostObject(h, pObj, Stripped(pObj), smooth);
      RollbackStep(cfg, before, ok);
      pc := Idle;
      leftBehind := leftBehind || (r.None? && h in before.host);
      Record(Rollback(ok), before);
    }

    /** translateMetadata: the name and the labels of the virtual object to write, none if it cannot be resolved. */
    method TranslateMetadata(h: string, pObj: HostObj, ghost v: NamespacedName)
      returns (target: Option<NamespacedName>, base: VirtObj)
      requires Valid() && (pc == UpApply(h, pObj, v) || pc == SyncApply(h, pObj, v))
      modifies this, handler.nameCache
      ensures Valid() && Continues() && leftBehind == old(leftBehind) && base == Translated(cfg, pObj)
      ensures pc == if old(pc).UpApply? then
                      (if target.None? then UpRollback(h, pObj, v) else UpWrite(h, pObj, v, target.value, base, map[]))
                    else if target.None? then Idle
                    else SyncWrite(h, pObj, v, target.value, base, pObj.memo)
      ensures Last() == if old(pc).UpApply? then TranslateUp else TranslateSync
    {
      hide FromVirtualHandler.Valid, FromVirtualHandler.Content, Run, Translate, Resolve, ResolveSelectors,
           ForeignHostChange, Apply1, AllForward, GoodPatches, AllowedCall, IsExcluded, Bound, PatchApi,
           PhysicalToVirtual;
      World();
      ghost var before := Now();
      var vNN := Resolved(h, Some(pObj));
      target := if vNN.name == "" then None else Some(vNN);
      base := VirtObj(pObj.labels[CONTROLLED_BY_LABEL := cfg.controllerID], pObj.content);
      pc := if pc.UpApply? then
              (if target.None? then UpRollback(h, pObj, v) else UpWrite(h, pObj, v, target.value, base, map[]))
            else if target.None? then Idle
            else SyncWrite(h, pObj, v, target.value, base, pObj.memo);
      Record(if before.pc.UpApply? then TranslateUp else TranslateSync, before);
    }

    /** The reconcile is writing the virtual object; memo are the names it has translated. */
    ghost predicate Writing(h: string, pObj: HostObj, v: NamespacedName, target: NamespacedName, memo: StringMap)
      reads this
    {
      && (pc.UpWrite? || pc.SyncWrite?)
      && pc.h == h && pc.found == pObj && pc.v == v && pc.target == target && pc.memo == memo
    }

    /** The same writing, further on. */
    twostate predicate StillWriting()
      reads this
    {
      && (old(pc).UpWrite? ==> pc.UpWrite?) && (old(pc).SyncWrite? ==> pc.SyncWrite?)
    }

    /** The patches translate the names they meet; a name without translation makes them fail. */
    method TranslateNames(h: string, pObj: HostObj, ghost v: NamespacedName, ghost target: NamespacedName,
                          resolver: MemorizingResolver)
      returns (ok: bool)
      requires Valid() && Writing(h, pObj, v, target, resolver.mappings)
      requires resolver.gvk == handler.gvk && resolver.nameCache == handler.nameCache
      modifies this, handler.nameCache, resolver
      ensures Valid() && Continues() && leftBehind == old(leftBehind)
      ensures ok ==> Writing(h, pObj, v, target, resolver.mappings) && StillWriting()
      ensures ok ==> old(resolver.mappings).Keys <= resolver.mappings.Keys
      ensures !ok ==> pc == Failed(old(pc)) && Last().TranslateName?
    {
      var names: seq<(string, string)> := *;
      ok := true;
      for i := 0 to |names|
        invariant ok && Valid() && Continues() && leftBehind == old(leftBehind)
        invariant Writing(h, pObj, v, target, resolver.mappings) && StillWriting()
        invariant old(resolver.mappings).Keys <= resolver.mappings.Keys
      {
        ok := TranslateOne(h, pObj, v, target, resolver, names[i].0, names[i].1);
        if !ok {
          return;
        }
      }
    }

    method TranslateOne(h: string, pObj: HostObj, ghost v: NamespacedName, ghost target: NamespacedName,
                        resolver: MemorizingResolver, name: string, path: string)
      returns (ok: bool)
      requires Valid() && Writing(h, pObj, v, target, resolver.mappings)
      requires resolver.gvk == handler.gvk && resolver.nameCache == handler.nameCache
      modifies this, handler.nameCache, resolver
      ensures Valid() && Continues() && leftBehind == old(leftBehind) && Last() == TranslateName(name, path)
      ensures ok ==> Writing(h, pObj, v, target, resolver.mappings) && StillWriting()
      ensures ok ==> resolver.mappings.Keys == old(resolver.mappings).Keys + {PathKey(name, path)}
      ensures !ok ==> pc == Failed(old(pc))
    {
      World();
      ok := TranslateNow(h, pObj, v, target, resolver, name, path);
    }

    /** The call of the resolver. */
    method TranslateNow(h: string, pObj: HostObj, ghost v: NamespacedName, ghost target: NamespacedName,
                        resolver: MemorizingResolver, name: string, path: string)
      returns (ok: bool)
      requires Valid() && Writing(h, pObj, v, target, resolver.mappings)
      requires resolver.gvk == handler.gvk && resolver.nameCache == handler.nameCache
      modifies `pc, `existed, `states, `actions, resolver
      ensures Valid() && Continues() && leftBehind == old(leftBehind) && Last() == TranslateName(name, path)
      ensures ok ==> Writing(h, pObj, v, target, resolver.mappings) && StillWriting()
      ensures ok ==> resolver.mappings.Keys == old(resolver.mappings).Keys + {PathKey(name, path)}
      ensures !ok ==> pc == Failed(old(pc))
    {
      hide Apply, Run, Translate, Resolve, ResolveSelectors, ForeignHostChange, Apply1, AllForward, GoodPatches,
           AllowedCall, IsExcluded, PhysicalToVirtual, PatchApi, Bound, Learned, Failed, Replay;
      ghost var before := Now();
      var r := resolver.TranslateName(name, path);
      ok := r.Some?;
      NameStep(cfg, before, name, path);
      if r.Some? {
        LearnedKeeps(pc, PathKey(name, path), r.value);
      }
      pc := if ok then Learned(pc, PathKey(name, path), r.value) else Failed(pc);
      Record(Action.TranslateName(name, path), before);
    }

    method WriteVirtualStatus(h: string, pObj: HostObj, ghost v: NamespacedName, target: NamespacedName,
                              ghost memo: StringMap, content: string, smooth: bool) returns (ok: bool)
      requires Valid() && Writing(h, pObj, v, target, memo)
      modifies this, handler.nameCache
      ensures Valid() && Continues() && leftBehind == old(leftBehind)
      ensures pc == if ok then old(pc) else Failed(old(pc))
      ensures Last() == WriteStatus(content, ok) && (smooth && target in virt ==> ok)
    {
      hide FromVirtualHandler.Valid, FromVirtualHandler.Content, Run, Translate, Resolve, ResolveSelectors,
           ForeignHostChange, Apply1, AllForward, GoodPatches, AllowedCall, IsExcluded, Bound, PatchApi,
           PhysicalToVirtual;
      World();
      ghost var before := Now();
      var fails := Fails(smooth);
      ok := !fails && target in virt;
      if ok {
        virt := virt[target := virt[target].(content := content)];
      } else {
        pc := Failed(pc);
      }
      Record(WriteStatus(content, ok), before);
    }

    method WriteVirtualObject(h: string, pObj: HostObj, ghost v: NamespacedName, target: NamespacedName,
                              ghost memo: StringMap, patched: VirtObj, smooth: bool) returns (ok: bool)
      requires Valid() && Writing(h, pObj, v, target, memo)
      modifies this, handler.nameCache
      ensures Valid() && Continues() && leftBehind == old(leftBehind)
      ensures pc == if !ok then Failed(old(pc)) else if old(pc).UpWrite? then UpMemo(h, pObj, v, memo)
          else SyncMemo(h, pObj, v, memo)
      ensures Last() == WriteObject(patched, ok) && (smooth ==> ok)
      ensures ok ==> target in virt && virt[target] == patched
    {
      hide FromVirtualHandler.Valid, FromVirtualHandler.Content, Run, Translate, Resolve, ResolveSelectors,
           ForeignHostChange, Apply1, AllForward, GoodPatches, AllowedCall, IsExcluded, Bound, PatchApi,
           PhysicalToVirtual;
      World();
      ghost var before := Now();
      var fails := Fails(smooth);
      ok := !fails;
      if ok {
        virt := virt[target := patched];
        pc := if pc.UpWrite? then UpMemo(h, pObj, v, memo) else SyncMemo(h, pObj, v, memo);
      } else {
        pc := Failed(pc);
      }
      Record(WriteObject(patched, ok), before);
    }

    ghost method FailPatches()
      requires Valid() && (pc.UpWrite? || pc.SyncWrite?)
      modifies this`pc, this`existed, this`states, this`actions
      ensures Valid() && Continues() && pc == Failed(old(pc))
    {
      ghost var before := Now();
      pc := Failed(pc);
      Record(PatchesFail, before);
    }

    /** What the virtual object to write starts from, then the patches and the writes; false if some step fails. */
    method ApplyPatches(h: string, pObj: HostObj, ghost v: NamespacedName, resolver: MemorizingResolver, smooth: bool)
      returns (ok: bool)
      requires Valid() && resolver.gvk == handler.gvk && resolver.nameCache == handler.nameCache
      requires (pc == UpApply(h, pObj, v) && resolver.mappings == map[])
          || (pc == SyncApply(h, pObj, v) && resolver.mappings == pObj.memo)
      modifies this, handler.nameCache, resolver
      ensures Valid() && Continues() && leftBehind == old(leftBehind)
      ensures pc == if old(pc).UpApply?
          then (if ok then UpMemo(h, pObj, v, resolver.mappings) else UpRollback(h, pObj, v))
                    else if ok then SyncMemo(h, pObj, v, resolver.mappings) else Idle
      ensures ok ==> old(resolver.mappings).Keys <= resolver.mappings.Keys
      ensures smooth && !ok ==>
                Last().WriteStatus? || Last().TranslateName? || if old(pc).UpApply? then Last().TranslateUp?
                    else Last().TranslateSync?
    {
      hide Valid, Now, PhysicalToVirtual, IsExcluded, Bound, Run;
      var target, base := TranslateMetadata(h, pObj, v);
      if target.None? {
        return false;
      }
      ok := RunPatches(h, pObj, v, target.value, resolver, smooth);
    }

    /**
     The patches translate names through the resolver, and make of labels, status and content what they like, or
     fail.
     */
    method RunPatches(h: string, pObj: HostObj, ghost v: NamespacedName, target: NamespacedName,
                      resolver: MemorizingResolver, smooth: bool)
      returns (ok: bool)
      requires Valid() && resolver.gvk == handler.gvk && resolver.nameCache == handler.nameCache
      requires Writing(h, pObj, v, target, resolver.mappings)
      modifies this, handler.nameCache, resolver
      ensures Valid() && Continues() && leftBehind == old(leftBehind)
      ensures ok ==> pc == if old(pc).UpWrite? then UpMemo(h, pObj, v, resolver.mappings)
          else SyncMemo(h, pObj, v, resolver.mappings)
      ensures !ok ==> pc == Failed(old(pc))
      ensures ok ==> old(resolver.mappings).Keys <= resolver.mappings.Keys
      ensures smooth && !ok ==> Last().WriteStatus? || Last().TranslateName?
    {
      hide Valid, Now, PhysicalToVirtual, IsExcluded, Bound, Run;
      ok := TranslateNames(h, pObj, v, target, resolver);
      if !ok {
        return;
      }
      var patchesFail := Fails(smooth);
      if patchesFail {
        FailPatches();
        return false;
      }
      var hasStatus: bool := *;
      var patched: VirtObj, status: string := *, *;
      if hasStatus {
        ok := WriteVirtualStatus(h, pObj, v, target, resolver.mappings, status, smooth);
        if !ok {
          return;
        }
      }
      ok := WriteVirtualObject(h, pObj, v, target, resolver.mappings, patched, smooth);
    }

    // ----- the reconcile

    /** deleteVirtualObject: objects of others are left alone. */
    method SyncDown(v: NamespacedName, vObj: VirtObj, smooth: bool)
      requires Valid() && pc == Down(v, vObj)
      modifies this, handler.nameCache
      ensures Valid() && Continues() && pc == Idle && leftBehind == old(leftBehind)
      ensures smooth ==> Last() == DeleteVirtual(true) && (!IsExcluded(cfg, vObj) ==> v !in virt)
    {
      hide FromVirtualHandler.Valid, FromVirtualHandler.Content, Run, Translate, Resolve, ResolveSelectors,
           ForeignHostChange, Apply1, AllForward, GoodPatches, AllowedCall, Bound, PatchApi, PhysicalToVirtual;
      World();
      ghost var before := Now();
      var fails := Fails(smooth);
      pc := Idle;
      if !Excluded(vObj) && !fails {
        virt := virt - {v};
      }
      Record(DeleteVirtual(!fails), before);
    }

    /** Reverse patches first; if they changed nothing, the patches and then the names used. */
    method Sync(h: string, pObj: HostObj, v: NamespacedName, vObj: VirtObj, smooth: bool)
      requires Valid() && pc == PC.Sync(h, pObj, v, vObj)
      modifies this, handler.nameCache
      ensures Valid() && Continues() && pc == Idle && leftBehind == old(leftBehind)
      ensures smooth ==>
                if IsExcluded(cfg, vObj) then Last() == GiveUp
                else
                  || Last() == SaveSync(true) || (Last().ReverseWrite? && Last().ok)
                  || Last().TranslateSync? || Last().TranslateName? || Last().WriteStatus?
    {
      hide Valid, Now, PhysicalToVirtual, IsExcluded, Bound, Run;
      var reverseFails := Fails(smooth);
      if Excluded(vObj) || reverseFails {
        End();
        return;
      }
      var updated := ApplyReversePatches(h, pObj, v, vObj, smooth);
      if updated {
        return;
      }
      var resolver := new MemorizingResolver(handler.gvk, handler.nameCache, pObj.memo);
      var ok := ApplyPatches(h, pObj, v, resolver, smooth);
      if ok {
        var _ := AddAnnotations(h, pObj, v, resolver.mappings, smooth);
      }
    }

    /** The host object is written if the reverse patches change it, and only if it is still the one that was read. */
    method ApplyReversePatches(h: string, pObj: HostObj, v: NamespacedName, vObj: VirtObj, smooth: bool)
      returns (updated: bool)
      requires Valid() && pc == PC.Sync(h, pObj, v, vObj) && !IsExcluded(cfg, vObj)
      modifies this, handler.nameCache
      ensures Valid() && Continues() && leftBehind == old(leftBehind)
      ensures pc == if updated then Idle else SyncApply(h, pObj, v)
      ensures if updated then
                Last().ReverseWrite? && (Last().labels != pObj.labels || Last().content != pObj.content)
                    && (smooth ==> Last().ok)
              else Last().ReverseNothing?
    {
      hide Valid, Now, IsExcluded, Continues;
      var labels: StringMap, content: string := *, *;
      updated := labels != pObj.labels || content != pObj.content;
      if updated {
        var _ := UpdateHost(h, pObj, v, vObj, labels, content, smooth);
      } else {
        NothingToReverse(h, pObj, v, vObj);
      }
    }

    method UpdateHost(h: string, pObj: HostObj, v: NamespacedName, vObj: VirtObj, labels: StringMap, content: string,
                      smooth: bool)
      returns (ok: bool)
      requires Valid() && pc == PC.Sync(h, pObj, v, vObj) && !IsExcluded(cfg, vObj)
      modifies this, handler.nameCache
      ensures Valid() && Continues() && leftBehind == old(leftBehind) && pc == Idle
      ensures Last() == ReverseWrite(labels, content, ok) && (smooth ==> ok)
    {
      World();
      ok := UpdateNow(h, pObj, v, vObj, labels, content, smooth);
    }

    /** The update call. */
    method UpdateNow(h: string, pObj: HostObj, v: NamespacedName, vObj: VirtObj, labels: StringMap, content: string,
                     smooth: bool)
      returns (ok: bool)
      requires Valid() && pc == PC.Sync(h, pObj, v, vObj) && !IsExcluded(cfg, vObj)
      modifies `host, `pc, `existed, `states, `actions
      ensures Valid() && Continues() && leftBehind == old(leftBehind) && pc == Idle
      ensures Last() == ReverseWrite(labels, content, ok) && (smooth ==> ok)
    {
      hide FromVirtualHandler.Valid, FromVirtualHandler.Content, Apply, Run, Translate, Resolve, ResolveSelectors,
           ForeignHostChange, Apply1, AllForward, GoodPatches, AllowedCall, IsExcluded, PhysicalToVirtual, PatchApi,
           Bound;
      ghost var before := Now();
      var fails := Fails(smooth);
      ok := !fails;
      ReverseWriteStep(cfg, before, labels, content, ok);
      host := if ok && h in host && host[h] == pObj then host[h := pObj.(labels := labels, content := content)]
          else host;
      pc := Idle;
      Record(ReverseWrite(labels, content, ok), before);
    }

    ghost method NothingToReverse(h: string, pObj: HostObj, v: NamespacedName, vObj: VirtObj)
      requires Valid() && pc == PC.Sync(h, pObj, v, vObj) && !IsExcluded(cfg, vObj)
      modifies this`pc, this`existed, this`states, this`actions
      ensures Valid() && Continues() && pc == SyncApply(h, pObj, v) && Last().ReverseNothing?
    {
      hide FromVirtualHandler.Valid, FromVirtualHandler.Content, Run, Translate, Resolve, ResolveSelectors,
           ForeignHostChange, Apply1, AllForward, GoodPatches, AllowedCall, IsExcluded, Bound, PatchApi,
           PhysicalToVirtual;
      ghost var before := Now();
      pc := SyncApply(h, pObj, v);
      Record(ReverseNothing, before);
    }

    /** A bound host object without its virtual object is deleted; an unbound one is bound, its virtual object made. */
    method SyncUp(h: string, pObj: HostObj, ghost v: NamespacedName, smooth: bool)
      requires Valid() && pc == Up(h, pObj, v)
      modifies this, handler.nameCache
      ensures Valid() && Continues() && pc == Idle
      ensures smooth ==>
                if Bound(cfg, pObj) then Last() == DeleteHost(true)
                else
                  || Last().ResolveAgain? || Last() == MarkHost(true)
                  || Last() == Rollback(true) || Last() == SaveMemo(true)
    {
      hide Valid, Now, PhysicalToVirtual, IsExcluded, Bound, Run;
      if Bound(cfg, pObj) {
        DeleteHostObject(h, pObj, v, smooth);
        return;
      }
      var vNN := ResolveAgain(h, pObj, v);
      if vNN.name == "" {
        return;
      }
      MarkAndWrite(h, pObj, vNN, smooth);
    }

    /** The rest of syncUp: the host object is marked, the virtual object written, and the names are saved. */
    method MarkAndWrite(h: string, pObj: HostObj, vNN: NamespacedName, smooth: bool)
      requires Valid() && pc == UpMark(h, pObj, vNN)
      modifies this, handler.nameCache
      ensures Valid() && Continues() && pc == Idle
      ensures smooth ==> Last() == MarkHost(true) || Last() == Rollback(true) || Last() == SaveMemo(true)
    {
      hide Valid, Now, PhysicalToVirtual, IsExcluded, Bound, Run;
      var marked := AddAnnotations(h, pObj, vNN, map[], smooth);
      if marked.None? {
        return;
      }
      var resolver := new MemorizingResolver(handler.gvk, handler.nameCache, map[]);
      var ok := ApplyPatches(h, marked.value, vNN, resolver, smooth);
      if !ok {
        RemoveAnnotations(h, marked.value, vNN, smooth);
        return;
      }
      var _ := AddAnnotations(h, marked.value, vNN, resolver.mappings, smooth);
    }

    method DeleteHostObject(h: string, pObj: HostObj, ghost v: NamespacedName, smooth: bool)
      requires Valid() && pc == Up(h, pObj, v) && Bound(cfg, pObj)
      modifies this, handler.nameCache
      ensures Valid() && Continues() && pc == Idle && leftBehind == old(leftBehind)
      ensures smooth ==> Last() == DeleteHost(true) && h !in host
    {
      World();
      DeleteNow(h, pObj, v, smooth);
    }

    /** The delete call. */
    method DeleteNow(h: string, pObj: HostObj, ghost v: NamespacedName, smooth: bool)
      requires Valid() && pc == Up(h, pObj, v) && Bound(cfg, pObj)
      modifies `host, `deleted, `pc, `existed, `states, `actions
      ensures Valid() && Continues() && pc == Idle && leftBehind == old(leftBehind)
      ensures smooth ==> Last() == DeleteHost(true) && h !in host
    {
      hide FromVirtualHandler.Valid, FromVirtualHandler.Content, Apply, Run, Translate, Resolve, ResolveSelectors,
           ForeignHostChange, Apply1, AllForward, GoodPatches, AllowedCall, IsExcluded, PhysicalToVirtual, PatchApi;
      ghost var before := Now();
      var fails := Fails(smooth);
      if !fails && h in host {
        deleted := deleted + {(h, host[h])};
        host := host - {h};
      }
      DeleteStep(cfg, before, !fails);
      pc := Idle;
      Record(DeleteHost(!fails), before);
    }

    method ResolveAgain(h: string, pObj: HostObj, ghost v: NamespacedName) returns (vNN: NamespacedName)
      requires Valid() && pc == Up(h, pObj, v) && !Bound(cfg, pObj)
      modifies this, handler.nameCache
      ensures Valid() && Continues() && leftBehind == old(leftBehind)
      ensures pc == if vNN.name == "" then Idle else UpMark(h, pObj, vNN)
      ensures vNN == PhysicalToVirtual(cfg, Cache(), h, Some(pObj)) && Last() == Action.ResolveAgain
    {
      hide FromVirtualHandler.Valid, FromVirtualHandler.Content, Run, Translate, Resolve, ResolveSelectors,
           ForeignHostChange, Apply1, AllForward, GoodPatches, AllowedCall, PatchApi, PhysicalToVirtual;
      World();
      ghost var before := Now();
      vNN := Resolved(h, Some(pObj));
      pc := if vNN.name == "" then Idle else UpMark(h, pObj, vNN);
      Record(Action.ResolveAgain, before);
    }

    /** The ways a reconcile ends in which no call fails: nothing to do, or the last step of what it had to do. */
    ghost predicate ProperEnd(a: Action) {
      match a
      case ResolveVirtual => true
      case GetVirtual => true
      case GiveUp => true
      case DeleteVirtual(ok) => ok
      case DeleteHost(ok) => ok
      case ResolveAgain => true
      case MarkHost(ok) => ok
      case Rollback(ok) => ok
      case SaveMemo(ok) => ok
      case ReverseWrite(_, _, ok) => ok
      case TranslateSync => true
      case TranslateName(_, _) => true
      case WriteStatus(_, _) => true
      case SaveSync(ok) => ok
      case _ => false
    }

    /**
     One reconcile from beginning to end, whatever happens in between, is a part of a run; a smooth one, in
     which no call fails, ends properly.
     */
    method Reconcile(h: string, smooth: bool)
      requires Valid() && pc == Idle && '/' !in h
      modifies this, handler.nameCache
      ensures Valid() && Continues() && pc == Idle
      ensures smooth ==> ProperEnd(Last())
    {
      hide Valid, Now, PhysicalToVirtual, IsExcluded, Bound, Run;
      var pObj := ReadHost(h);
      var readFails := Fails(smooth);
      if readFails {
        End();
        return;
      }
      var vNN := ResolveRequest(h, pObj);
      if vNN.name == "" {
        return;
      }
      var vObj := ReadVirtual(h, pObj, vNN);
      SyncWith(h, pObj, vNN, vObj, smooth);
    }

    /** Which of the three to call, if any. */
    method SyncWith(h: string, pObj: Option<HostObj>, vNN: NamespacedName, vObj: Option<VirtObj>, smooth: bool)
      requires Valid() && Last() == GetVirtual
      requires pc == if vObj.Some? && pObj.None? then Down(vNN, vObj.value)
          else if vObj.Some? then PC.Sync(h, pObj.value, vNN, vObj.value)
                     else if pObj.Some? then Up(h, pObj.value, vNN) else Idle
      modifies this, handler.nameCache
      ensures Valid() && Continues() && pc == Idle
      ensures smooth ==> ProperEnd(Last())
    {
      hide Valid, Now, PhysicalToVirtual, IsExcluded, Bound, Run;
      if vObj.Some? && pObj.None? {
        SyncDown(vNN, vObj.value, smooth);
      } else if vObj.Some? && pObj.Some? {
        Sync(h, pObj.value, vNN, vObj.value, smooth);
      } else if vObj.None? && pObj.Some? {
        SyncUp(h, pObj.value, vNN, smooth);
      }
    }

    /**
     Requests are served one after the other. However many there are and whatever happens meanwhile, no two
     host objects are ever bound to the same virtual object, and every binding maps forward to its host object.
     */
    method Serve(requests: seq<string>)
      requires Valid() && Started(cfg, states[0]) && pc == Idle && forall h :: h in requests ==> '/' !in h
      modifies this, handler.nameCache
      ensures Valid() && Continues() && pc == Idle
      ensures BindingsForward(cfg, host)
      ensures forall h, h' ::
                && h in host && h' in host && Bound(cfg, host[h]) && Bound(cfg, host[h'])
                && Binding(host[h]) == Binding(host[h'])
                ==> h == h'
    {
      hide FromVirtualHandler.Valid, FromVirtualHandler.Content, Apply, Bound, Started;
      for i := 0 to |requests|
        invariant Valid() && Continues() && pc == Idle
      {
        assert requests[i] in requests;
        var smooth: bool := *;
        Reconcile(requests[i], smooth);
      }
      World();
      RunBinds(cfg, states, actions);
    }
  }
}
