/** What the steps of a reconcile write, and what they leave as it is. */
module BackSyncEffects {
  import opened Strings
  import opened Names
  import opened CacheLog
  import opened MappingSource
  import opened Lookup
  import opened BackSync
  import opened BackSyncProofs
  import opened BackSyncSafety

  // ----- bindings and labels

  /** A host object is bound exactly if it carries the marker of this virtual cluster and a name with a namespace. */
  lemma {:induction false} BoundExactly(cfg: Config, p: HostObj)
    requires cfg.marker != ""
    ensures Bound(cfg, p)
      <==> && MARKER_LABEL in p.annotations && p.annotations[MARKER_LABEL] == cfg.marker
           && NAME_ANNOTATION in p.annotations && p.annotations[NAME_ANNOTATION] != ""
           && NAMESPACE_ANNOTATION in p.annotations && p.annotations[NAMESPACE_ANNOTATION] != ""
    ensures Bound(cfg, p) ==>
              Binding(p) == NamespacedName(p.annotations[NAMESPACE_ANNOTATION], p.annotations[NAME_ANNOTATION])
  {
  }

  /** Only what was read is deleted, and only if it was read with the marker of this virtual cluster. */
  lemma {:induction false} OtherClusterSpared(cfg: Config, s: State, a: Action, s': State, h: string)
    requires cfg.marker != "" && Next(cfg, s, a, s') && a.DeleteHost? && h in s.host && h !in s'.host
    ensures s.pc.Up? && h == s.pc.h && MARKER_LABEL in s.pc.found.annotations
    ensures s.pc.found.annotations[MARKER_LABEL] == cfg.marker
  {
  }

  /** An object is the controller's own exactly if its label is the controller's. */
  lemma {:induction false} ExcludedExactly(cfg: Config, w: VirtObj)
    requires cfg.controllerID != ""
    ensures !IsExcluded(cfg, w)
      <==> CONTROLLED_BY_LABEL in w.labels && w.labels[CONTROLLED_BY_LABEL] == cfg.controllerID
  {
  }

  /** The patches start from the host object's content and labels, with the controller's own label. */
  lemma {:induction false} BaseIsCopy(cfg: Config, p: HostObj)
    ensures var w := Translated(cfg, p);
      && w.content == p.content && Get(w.labels, CONTROLLED_BY_LABEL) == cfg.controllerID
      && forall k :: k != CONTROLLED_BY_LABEL ==>
           (k in w.labels <==> k in p.labels) && Get(w.labels, k) == Get(p.labels, k)
  {
  }

  // ----- what a reconcile goes by

  /** The name a copy stands for at a moment: its binding, or what the selectors find in the cache as it is then. */
  function NameNow(cfg: Config, cache: Log, h: string, p: Option<HostObj>): NamespacedName {
    if p.Some? && Bound(cfg, p.value) then
      NamespacedName(p.value.annotations[NAMESPACE_ANNOTATION], p.value.annotations[NAME_ANNOTATION])
    else ResolveSelectors(cache, h, cfg.selectors)
  }

  /** Each of the lookups of a reconcile reads the cache anew; only a bound copy fixes the name. */
  lemma {:induction false} ResolvesNow(cfg: Config, s: State, a: Action, s': State)
    requires Next(cfg, s, a, s') && Resolves(a)
    ensures s'.host == s.host && s'.virt == s.virt && s'.cache == s.cache
    ensures a.ResolveVirtual? ==>
              s.pc.HaveHost? && var v := NameNow(cfg, s.cache, s.pc.h, s.pc.p);
              s'.pc == if v.name == "" then Idle else HaveName(s.pc.h, s.pc.p, v)
    ensures a.ResolveAgain? ==>
              s.pc.Up? && !Bound(cfg, s.pc.found) && var v := ResolveSelectors(s.cache, s.pc.h, cfg.selectors);
              s'.pc == if v.name == "" then Idle else UpMark(s.pc.h, s.pc.found, v)
    ensures a.TranslateUp? ==>
              s.pc.UpApply? && var v := NameNow(cfg, s.cache, s.pc.h, Some(s.pc.found));
              if v.name == "" then s'.pc == UpRollback(s.pc.h, s.pc.found, s.pc.v)
              else s'.pc.UpWrite? && s'.pc.target == v && s'.pc.v == s.pc.v && s'.pc.memo == map[]
    ensures a.TranslateSync? ==>
              s.pc.SyncApply? && var v := NameNow(cfg, s.cache, s.pc.h, Some(s.pc.found));
              if v.name == "" then s'.pc == Idle
              else s'.pc.SyncWrite? && s'.pc.target == v && s'.pc.v == s.pc.v && s'.pc.memo == s.pc.found.memo
  {
    hide ResolveSelectors, Translated;
  }

  /** Which way a reconcile takes: deletion, update or creation, by which of the two objects exist when it looks. */
  lemma {:induction false} LooksNow(cfg: Config, s: State, a: Action, s': State)
    requires Next(cfg, s, a, s') && (a.GetHost? || a.GetVirtual?)
    ensures s'.host == s.host && s'.virt == s.virt && s'.cache == s.cache
    ensures a.GetHost? ==> s.pc.Idle? && s'.pc == HaveHost(a.h, if a.h in s.host then Some(s.host[a.h]) else None)
    ensures a.GetVirtual? ==> s.pc.HaveName? && var v := s.pc.v;
              && (s.pc.p.None? && v in s.virt ==> s'.pc == Down(v, s.virt[v]))
              && (s.pc.p.None? && v !in s.virt ==> s'.pc == Idle)
              && (s.pc.p.Some? && v in s.virt ==> s'.pc == Sync(s.pc.h, s.pc.p.value, v, s.virt[v]))
              && (s.pc.p.Some? && v !in s.virt ==> s'.pc == Up(s.pc.h, s.pc.p.value, v))
  {
  }

  /** A deletion that is carried out takes away its object and no other. */
  lemma {:induction false} DeletesNow(cfg: Config, s: State, a: Action, s': State)
    requires Next(cfg, s, a, s') && (a.DeleteVirtual? || a.DeleteHost?)
    ensures s'.pc == Idle && s'.cache == s.cache
    ensures a.DeleteVirtual? ==>
              && s.pc.Down? && s'.host == s.host
              && s'.virt == if a.ok && Get(s.pc.w.labels, CONTROLLED_BY_LABEL) == cfg.controllerID
                            then s.virt - {s.pc.v} else s.virt
    ensures a.DeleteHost? ==>
              s.pc.Up? && Bound(cfg, s.pc.found) && s'.virt == s.virt
              && s'.host == if a.ok then s.host - {s.pc.h} else s.host
  {
    hide Bound;
  }

  // ----- the virtual object

  /** A status write that succeeds changes the content of the target and nothing else, one that fails nothing. */
  lemma {:induction false} StatusEffect(cfg: Config, s: State, a: Action, s': State)
    requires Next(cfg, s, a, s') && a.WriteStatus?
    ensures s.pc.UpWrite? || s.pc.SyncWrite?
    ensures s'.host == s.host && s'.virt.Keys == s.virt.Keys
    ensures forall v :: v in s.virt && v != s.pc.target ==> s'.virt[v] == s.virt[v]
    ensures s.pc.target in s.virt ==>
              && s'.virt[s.pc.target].labels == s.virt[s.pc.target].labels
              && s'.virt[s.pc.target].content == if a.ok then a.content else s.virt[s.pc.target].content
    ensures a.ok && s.pc.target in s.virt <==> s'.pc == s.pc
  {
  }

  // ----- the host object

  /** The object's own part is the same: labels, content, and all annotations but the markers. */
  ghost predicate OwnSame(p: HostObj, q: HostObj) {
    && q.labels == p.labels && q.content == p.content
    && forall k :: k != MARKER_LABEL && k != NAME_ANNOTATION && k != NAMESPACE_ANNOTATION ==>
         (k in p.annotations <==> k in q.annotations) && Get(p.annotations, k) == Get(q.annotations, k)
  }

  lemma {:induction false} AnnotatedOwn(cfg: Config, p: HostObj, v: NamespacedName, memo: StringMap)
    ensures OwnSame(p, Annotated(cfg, p, v, memo)) && OwnSame(p, Stripped(p))
  {
  }

  /** A patch between two copies with the same own part changes only markers and memo of what is stored. */
  lemma {:induction false} PatchOwn(current: HostObj, p: HostObj, q: HostObj)
    requires OwnSame(p, q)
    ensures OwnSame(current, PatchHost(current, p, q))
  {
    var patched := PatchHost(current, p, q);
    forall k | k != MARKER_LABEL && k != NAME_ANNOTATION && k != NAMESPACE_ANNOTATION
      ensures k in current.annotations <==> k in patched.annotations
      ensures Get(current.annotations, k) == Get(patched.annotations, k)
    {
      assert k !in Diff(p.annotations, q.annotations);
      MergeAt(current.annotations, p.annotations, q.annotations, k);
    }
  }

  /** Marking, saving and rolling back leave labels, content and foreign annotations of host objects as they are. */
  lemma {:induction false} OwnPartKept(cfg: Config, s: State, a: Action, s': State, h: string)
    requires Next(cfg, s, a, s') && !a.WorldHost? && !a.ReverseWrite? && !a.DeleteHost?
    ensures s'.host.Keys == s.host.Keys && (h in s.host ==> OwnSame(s.host[h], s'.host[h]))
  {
    if Patches(a) {
      PatchEffect(cfg, s, a, s');
      hide Next, OwnSame, PatchHost, Annotated;
      SelfSame(s, h);
      if s.pc.h in s.host {
        AnnotatedOwn(cfg, s.pc.found, s.pc.v, PatchMemo(s, a));
        PatchOwn(s.host[s.pc.h], s.pc.found, Annotated(cfg, s.pc.found, s.pc.v, PatchMemo(s, a)));
      }
    } else if a.Rollback? {
      RollbackHost(cfg, s, a, s');
      hide Next, OwnSame, PatchHost, Stripped;
      SelfSame(s, h);
      if s.pc.h in s.host {
        AnnotatedOwn(cfg, s.pc.found, s.pc.v, map[]);
        PatchOwn(s.host[s.pc.h], s.pc.found, Stripped(s.pc.found));
      }
    } else {
      HostUntouched(cfg, s, a, s');
      hide Next;
    }
  }

  lemma {:induction false} SelfSame(s: State, h: string)
    ensures h in s.host ==> OwnSame(s.host[h], s.host[h])
  {
  }

  lemma {:induction false} RollbackHost(cfg: Config, s: State, a: Action, s': State)
    requires Next(cfg, s, a, s') && a.Rollback?
    ensures s.pc.UpRollback?
    ensures s'.host == s.host
        || (s.pc.h in s.host
            && s'.host == s.host[s.pc.h := PatchHost(s.host[s.pc.h], s.pc.found, Stripped(s.pc.found))])
  {
    hide PatchHost, Stripped;
  }

  /** A reverse write changes labels and content of the object, if nobody has changed it since it was read. */
  lemma {:induction false} ReverseEffect(cfg: Config, s: State, a: Action, s': State)
    requires Next(cfg, s, a, s') && a.ReverseWrite?
    ensures s.pc.Sync? && !IsExcluded(cfg, s.pc.w) && s'.pc.Idle? && s'.virt == s.virt && s'.host.Keys == s.host.Keys
    ensures forall h :: h in s.host && h != s.pc.h ==> s'.host[h] == s.host[h]
    ensures s.pc.h in s.host ==>
      var was, now := s.host[s.pc.h], s'.host[s.pc.h];
      && now.annotations == was.annotations && now.memo == was.memo
      && if a.ok && was == s.pc.found then now.labels == a.labels && now.content == a.content else now == was
  {
    hide IsExcluded;
  }

  /** Nobody else changes the own part of the object, and no reverse patch is written to it. */
  ghost predicate OwnLeft(s: State, a: Action, s': State, h: string) {
    && (a.ReverseWrite? && s.pc.Sync? ==> s.pc.h != h)
    && (a.WorldHost? ==> h in s.host && h in s'.host && OwnSame(s.host[h], s'.host[h]))
  }

  /**
   Over whole runs: whatever the controller does to bind, save and roll back, the labels, the content and the foreign
   annotations of a host object stay as they are, but for reverse writes to it and foreign changes.
   */
  lemma {:induction false} OwnPartStays(cfg: Config, states: seq<State>, actions: seq<Action>, h: string, i: nat,
                                        n: nat)
    requires Run(cfg, states, actions) && i <= n < |states|
    requires forall k :: i <= k <= n ==> h in states[k].host
    requires forall k :: i <= k < n ==> OwnLeft(states[k], actions[k], states[k + 1], h)
    ensures OwnSame(states[i].host[h], states[n].host[h])
    decreases n
  {
    hide Next, OwnSame, OwnLeft;
    SelfSame(states[i], h);
    if i < n {
      var s, a, s' := states[n - 1], actions[n - 1], states[n];
      assert h in s.host && h in s'.host && OwnLeft(s, a, s', h) && Next(cfg, s, a, s');
      OwnPartStays(cfg, states, actions, h, i, n - 1);
      OwnStep(cfg, s, a, s', h);
      OwnTrans(states[i].host[h], s.host[h], s'.host[h]);
    }
  }

  lemma {:induction false} OwnTrans(p: HostObj, q: HostObj, r: HostObj)
    requires OwnSame(p, q) && OwnSame(q, r)
    ensures OwnSame(p, r)
  {
  }

  lemma {:induction false} OwnStep(cfg: Config, s: State, a: Action, s': State, h: string)
    requires Next(cfg, s, a, s') && h in s.host && h in s'.host && OwnLeft(s, a, s', h)
    ensures OwnSame(s.host[h], s'.host[h])
  {
    if a.ReverseWrite? {
      ReverseEffect(cfg, s, a, s');
      hide Next;
    } else if a.DeleteHost? {
      hide Bound;
    } else if !a.WorldHost? {
      hide Next, OwnSame;
      OwnPartKept(cfg, s, a, s', h);
    } else {
      hide Next, OwnSame;
    }
  }

  // ----- what marking and saving store

  /** Marking an object that is as it was read stores exactly the binding, without a memo. */
  lemma {:induction false} MarkStores(cfg: Config, s: State, a: Action, s': State)
    requires Next(cfg, s, a, s') && a == MarkHost(true) && s.pc.UpMark? && s.pc.h in s.host
        && s.host[s.pc.h] == s.pc.found
    ensures s.pc.h in s'.host
    ensures var p := s'.host[s.pc.h];
      && p.annotations == s.pc.found.annotations[MARKER_LABEL := cfg.marker][NAME_ANNOTATION := s.pc.v.name]
                            [NAMESPACE_ANNOTATION := s.pc.v.namespace]
      && p.memo == map[] && p.labels == s.pc.found.labels && p.content == s.pc.found.content
    ensures s'.pc == UpApply(s.pc.h, s'.host[s.pc.h], s.pc.v)
  {
    MergeDiff(s.pc.found.annotations, Annotated(cfg, s.pc.found, s.pc.v, map[]).annotations);
    hide Merge, Diff;
  }

  /** A rollback of an object that is as the reconcile left it takes its binding and its memo away. */
  lemma {:induction false} RollbackStores(cfg: Config, s: State, a: Action, s': State)
    requires Next(cfg, s, a, s') && a == Rollback(true) && s.pc.UpRollback? && s.pc.h in s.host
        && s.host[s.pc.h] == s.pc.found
    ensures s.pc.h in s'.host
    ensures var p := s'.host[s.pc.h];
      && p.annotations == s.pc.found.annotations - {MARKER_LABEL, NAME_ANNOTATION, NAMESPACE_ANNOTATION}
      && p.memo == map[] && p.labels == s.pc.found.labels && p.content == s.pc.found.content
  {
    MergeDiff(s.pc.found.annotations, Stripped(s.pc.found).annotations);
    hide Merge, Diff;
  }
}
