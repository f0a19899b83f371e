/** Translations that were saved on a host object never fail again while the object stays bound. */
module BackSyncMemos {
  import opened Strings
  import opened Names
  import opened CacheLog
  import opened MappingSource
  import opened Lookup
  import opened BackSync
  import opened BackSyncProofs
  import opened BackSyncSafety

  // ----- remembered names are never empty

  ghost predicate HostMemos(host: map<string, HostObj>) {
    forall h :: h in host ==> GoodMemo(host[h].memo)
  }

  /** The copy a reconcile holds, if any. */
  function CopyOf(pc: PC): Option<HostObj> {
    match pc
    case Idle => None
    case HaveHost(_, p) => p
    case HaveName(_, p, _) => p
    case Down(_, _) => None
    case Up(_, p, _) => Some(p)
    case UpMark(_, p, _) => Some(p)
    case UpApply(_, p, _) => Some(p)
    case UpWrite(_, p, _, _, _, _) => Some(p)
    case UpRollback(_, p, _) => Some(p)
    case UpMemo(_, p, _, _) => Some(p)
    case Sync(_, p, _, _) => Some(p)
    case SyncApply(_, p, _) => Some(p)
    case SyncWrite(_, p, _, _, _, _) => Some(p)
    case SyncMemo(_, p, _, _) => Some(p)
  }

  /** A reconcile that translates, or has translated and is going to save. */
  predicate Translating(pc: PC) {
    pc.UpWrite? || pc.UpMemo? || pc.SyncWrite? || pc.SyncMemo?
  }

  ghost predicate PCMemos(pc: PC) {
    && (CopyOf(pc).Some? ==> GoodMemo(CopyOf(pc).value.memo))
    && (Translating(pc) ==> GoodMemo(pc.memo))
  }

  ghost predicate Memos(s: State) {
    HostMemos(s.host) && PCMemos(s.pc)
  }

  lemma {:induction false} MemosPatched(s: State, a: Action, current: HostObj, p: HostObj, q: HostObj)
    requires Memos(s) && GoodMemo(current.memo) && (q.memo == PatchMemo(s, a) || q.memo == map[])
    ensures GoodMemo(PatchHost(current, p, q).memo)
  {
  }

  lemma {:induction false} MemosSaved(cfg: Config, s: State, a: Action, s': State)
    requires Memos(s) && Next(cfg, s, a, s') && Patches(a)
    ensures HostMemos(s'.host)
  {
    hide Next, PatchHost, Merge, Diff, PCMemos;
    PatchEffect(cfg, s, a, s');
    if s.pc.h in s.host {
      MemosPatched(s, a, s.host[s.pc.h], s.pc.found, Annotated(cfg, s.pc.found, s.pc.v, PatchMemo(s, a)));
    }
  }

  lemma {:induction false} MemosRest(cfg: Config, s: State, a: Action, s': State)
    requires Memos(s) && Next(cfg, s, a, s') && !Patches(a)
    ensures HostMemos(s'.host)
  {
    hide PCMemos, IsExcluded, Bound, MarkersWithin, PhysicalToVirtual, Merge, Diff, Translate, Apply1;
    if !a.Rollback? && !a.WorldHost? && !a.DeleteHost? && !a.ReverseWrite? {
      HostUntouched(cfg, s, a, s');
    } else if a.ReverseWrite? {
      hide Next;
      ReverseKeeps(cfg, s, a, s');
    }
  }

  /** An update of the object's own content keeps what it remembers. */
  lemma {:induction false} ReverseKeeps(cfg: Config, s: State, a: Action, s': State)
    requires Next(cfg, s, a, s') && a.ReverseWrite?
    ensures s'.host.Keys == s.host.Keys && forall h :: h in s.host ==> s'.host[h].memo == s.host[h].memo
  {
    hide IsExcluded;
  }

  lemma {:induction false} MemosMarked(cfg: Config, s: State, a: Action, s': State)
    requires Memos(s) && Next(cfg, s, a, s') && a.MarkHost?
    ensures PCMemos(s'.pc)
  {
    hide Merge, Diff;
  }

  lemma {:induction false} MemosLearned(cfg: Config, s: State, a: Action, s': State)
    requires Memos(s) && Next(cfg, s, a, s') && a.TranslateName?
    ensures PCMemos(s'.pc)
  {
    hide Resolve, HostMemos;
  }

  lemma {:induction false} MemosResolved(cfg: Config, s: State, a: Action, s': State)
    requires Memos(s) && Next(cfg, s, a, s') && Resolves(a)
    ensures PCMemos(s'.pc)
  {
    hide Bound, PhysicalToVirtual, IsExcluded, PatchApi, Apply1, ForeignHostChange, AllowedCall, Translate, Stripped,
         InFlight;
  }

  lemma {:induction false} MemosWrote(cfg: Config, s: State, a: Action, s': State)
    requires Memos(s) && Next(cfg, s, a, s') && OnVirtual(a)
    ensures PCMemos(s'.pc)
  {
    hide GoodMemo;
    hide Bound, PhysicalToVirtual, IsExcluded, PatchApi, Apply1, ForeignHostChange, AllowedCall, Translate, Stripped,
         InFlight;
  }

  lemma {:induction false} MemosRead(cfg: Config, s: State, a: Action, s': State)
    requires Memos(s) && Next(cfg, s, a, s') && ReadsOnly(a)
    ensures PCMemos(s'.pc)
  {
    hide GoodMemo;
    hide Bound, PhysicalToVirtual, IsExcluded, PatchApi, InFlight;
  }

  lemma {:induction false} MemosHeld(cfg: Config, s: State, a: Action, s': State)
    requires Memos(s) && Next(cfg, s, a, s')
    requires !a.MarkHost? && !a.TranslateName? && !Resolves(a) && !OnVirtual(a) && !ReadsOnly(a)
    ensures PCMemos(s'.pc)
  {
    hide GoodMemo;
    hide Bound, PhysicalToVirtual, IsExcluded, PatchApi, Apply1, ForeignHostChange, AllowedCall, Translate, Stripped,
         InFlight;
  }

  lemma {:induction false} MemosStep(cfg: Config, s: State, a: Action, s': State)
    requires Memos(s) && Next(cfg, s, a, s')
    ensures Memos(s')
  {
    hide Next, PCMemos, HostMemos;
    if a.MarkHost? {
      MemosMarked(cfg, s, a, s');
    } else if a.TranslateName? {
      MemosLearned(cfg, s, a, s');
    } else if Resolves(a) {
      MemosResolved(cfg, s, a, s');
    } else if OnVirtual(a) {
      MemosWrote(cfg, s, a, s');
    } else if ReadsOnly(a) {
      MemosRead(cfg, s, a, s');
    } else {
      MemosHeld(cfg, s, a, s');
    }
    if Patches(a) {
      MemosSaved(cfg, s, a, s');
    } else {
      MemosRest(cfg, s, a, s');
    }
  }

  // ----- what is remembered only grows

  ghost predicate Remembered(s: State, h: string, key: string) {
    h in s.host && key in s.host[h].memo
  }

  lemma {:induction false} StillRemembered(cfg: Config, s: State, a: Action, s': State, h: string, key: string)
    requires Inv(cfg, s) && Next(cfg, s, a, s') && BoundAt(cfg, s, h) && BoundAt(cfg, s', h) && Remembered(s, h, key)
    ensures Remembered(s', h, key)
  {
    BindingKept(cfg, s, a, s', h);
  }

  lemma {:induction false} StaysRemembered(cfg: Config, states: seq<State>, actions: seq<Action>, h: string,
                                           key: string, i: nat, n: nat)
    requires Run(cfg, states, actions) && Inv(cfg, states[0]) && i <= n < |states|
    requires Remembered(states[i], h, key) && BoundThroughout(cfg, states, h, i, n)
    ensures Remembered(states[n], h, key)
    decreases n
  {
    hide Inv, Next, BoundAt, Remembered;
    if i < n {
      var s, a, s' := states[n - 1], actions[n - 1], states[n];
      assert Next(cfg, s, a, s') && BoundAt(cfg, s, h) && BoundAt(cfg, s', h);
      StaysRemembered(cfg, states, actions, h, key, i, n - 1);
      InvRun(cfg, states, actions, n - 1);
      StillRemembered(cfg, s, a, s', h, key);
    }
  }

  // ----- from the translation to the save

  /** The reconcile has the translation in hand, unless it is on its way out. */
  predicate Carries(pc: PC, h: string, key: string) {
    (Translating(pc) && pc.h == h && key in pc.memo) || pc.UpRollback?
  }

  lemma {:induction false} CarriesStep(cfg: Config, s: State, a: Action, s': State, h: string, key: string)
    requires Next(cfg, s, a, s') && Carries(s.pc, h, key) && !s'.pc.Idle?
    ensures Carries(s'.pc, h, key)
  {
    hide Bound, PhysicalToVirtual, IsExcluded, PatchApi, Apply1, ForeignHostChange, AllowedCall, Translate, Annotated,
         Stripped, Translated;
  }

  ghost predicate Busy(states: seq<State>, i: nat, n: nat)
    requires n < |states|
  {
    forall k :: i < k <= n ==> !states[k].pc.Idle?
  }

  /** A name is translated at i. */
  ghost predicate TranslatedAt(cfg: Config, states: seq<State>, actions: seq<Action>, i: nat, h: string, name: string,
                               path: string)
    requires Run(cfg, states, actions) && i < |actions|
  {
    && actions[i] == TranslateName(name, path) && Translating(states[i].pc) && states[i].pc.h == h
    && Translate(states[i].cache, states[i].pc.memo, name, path).Some?
  }

  lemma {:induction false} Carried(cfg: Config, states: seq<State>, actions: seq<Action>, i: nat, n: nat, h: string,
                                   name: string, path: string)
    requires Run(cfg, states, actions) && i < n < |states|
    requires TranslatedAt(cfg, states, actions, i, h, name, path) && Busy(states, i, n)
    ensures Carries(states[n].pc, h, PathKey(name, path))
    decreases n
  {
    hide Translate;
    assert Next(cfg, states[n - 1], actions[n - 1], states[n]);
    if n > i + 1 {
      hide Next;
      Carried(cfg, states, actions, i, n - 1, h, name, path);
      CarriesStep(cfg, states[n - 1], actions[n - 1], states[n], h, PathKey(name, path));
    }
  }

  predicate Saves(a: Action) {
    a == SaveMemo(true) || a == SaveSync(true)
  }

  /** A save has something new to write, or what was read is still there. */
  ghost predicate Intact(s: State) {
    && (s.pc.UpMemo? || s.pc.SyncMemo?)
    && (s.pc.h in s.host ==> s.pc.memo != s.pc.found.memo || s.host[s.pc.h].memo == s.pc.found.memo)
  }

  /** As long as the stored object is bound nobody has removed the memo that was read. */
  lemma {:induction false} BoundIntact(cfg: Config, s: State)
    requires Inv(cfg, s) && (s.pc.UpMemo? || s.pc.SyncMemo?) && BoundAt(cfg, s, s.pc.h)
    ensures Intact(s)
  {
    hide AllForward, BindingsForward, MarkedFor, Bound, ForwardBound, GoodName, MarkersWithin, GoodConfig;
  }

  /** A save replaces the memo, unless it is the one that was read. */
  lemma {:induction false} SavedMemo(cfg: Config, s: State, a: Action, s': State)
    requires Next(cfg, s, a, s') && Saves(a)
    ensures s.pc.UpMemo? || s.pc.SyncMemo?
    ensures s'.host.Keys == s.host.Keys
    ensures s.pc.h in s.host ==>
      s'.host[s.pc.h].memo == if s.pc.found.memo == s.pc.memo then s.host[s.pc.h].memo else s.pc.memo
  {
    hide Merge, Diff, Bound, PhysicalToVirtual, IsExcluded, Apply1, ForeignHostChange, AllowedCall, Translate;
  }

  lemma {:induction false} SaveRemembers(cfg: Config, s: State, a: Action, s': State, h: string, key: string)
    requires Inv(cfg, s) && Next(cfg, s, a, s') && Saves(a) && Carries(s.pc, h, key) && h in s'.host
    ensures Remembered(s', h, key) <==> Intact(s)
  {
    SavedMemo(cfg, s, a, s');
    SavedCopy(cfg, s);
    hide Inv, Next, GoodCopy, Bound;
  }

  /** The memo that was read is still there, or somebody has removed it. */
  lemma {:induction false} SavedCopy(cfg: Config, s: State)
    requires Inv(cfg, s) && (s.pc.UpMemo? || s.pc.SyncMemo?)
    ensures s.pc.h in s.host ==> s.host[s.pc.h].memo == s.pc.found.memo || s.host[s.pc.h].memo == map[]
  {
    hide AllForward, BindingsForward, MarkedFor, Bound, ForwardBound, GoodName, MarkersWithin, GoodConfig;
  }

  // ----- the translations of a later reconcile

  /** A reconcile of the bound object has read the translation, or it never reads one. */
  ghost predicate Knows(cfg: Config, pc: PC, h: string, key: string) {
    match pc
    case HaveHost(g, p) => g == h && p.Some? && Bound(cfg, p.value) && key in p.value.memo
    case HaveName(g, p, _) => g == h && p.Some? && Bound(cfg, p.value) && key in p.value.memo
    case Up(g, p, _) => g == h && Bound(cfg, p)
    case Sync(g, p, _, _) => g == h && key in p.memo
    case SyncApply(g, p, _) => g == h && key in p.memo
    case SyncWrite(g, _, _, _, _, memo) => g == h && key in memo
    case SyncMemo(g, _, _, memo) => g == h && key in memo
    case _ => false
  }

  lemma {:induction false} KnowsStep(cfg: Config, s: State, a: Action, s': State, h: string, key: string)
    requires Next(cfg, s, a, s') && Knows(cfg, s.pc, h, key) && !s'.pc.Idle?
    ensures Knows(cfg, s'.pc, h, key)
  {
    hide Bound, PhysicalToVirtual, IsExcluded, PatchApi, Apply1, ForeignHostChange, AllowedCall, Translate, Annotated,
         Stripped, Translated;
  }

  lemma {:induction false} Known(cfg: Config, states: seq<State>, actions: seq<Action>, i: nat, n: nat, h: string,
                                 key: string)
    requires Run(cfg, states, actions) && i < n < |states| && Busy(states, i, n)
    requires actions[i] == GetHost(h) && BoundAt(cfg, states[i], h) && Remembered(states[i], h, key)
    ensures Knows(cfg, states[n].pc, h, key)
    decreases n
  {
    assert Next(cfg, states[n - 1], actions[n - 1], states[n]);
    if n > i + 1 {
      hide Next;
      Known(cfg, states, actions, i, n - 1, h, key);
      KnowsStep(cfg, states[n - 1], actions[n - 1], states[n], h, key);
    } else {
      hide Bound;
    }
  }

  // ----- over whole runs

  lemma {:induction false} MemosRun(cfg: Config, states: seq<State>, actions: seq<Action>, n: nat)
    requires Run(cfg, states, actions) && Memos(states[0]) && n < |states|
    ensures Memos(states[n])
  {
    if n > 0 {
      hide Memos;
      MemosRun(cfg, states, actions, n - 1);
      MemosStep(cfg, states[n - 1], actions[n - 1], states[n]);
    }
  }

  /** A name translated at i, saved at j by the same reconcile, on an object that stays bound up to n. */
  ghost predicate SavedTranslation(cfg: Config, states: seq<State>, actions: seq<Action>, h: string, name: string,
                                   path: string, i: nat, j: nat, n: nat)
  {
    && Run(cfg, states, actions) && Started(cfg, states[0]) && HostMemos(states[0].host) && i < j < n < |states|
    && TranslatedAt(cfg, states, actions, i, h, name, path) && Busy(states, i, j)
    && Saves(actions[j]) && BoundThroughout(cfg, states, h, j + 1, n)
  }

  /**
   A save keeps the translation exactly if it has something new to write or nobody has removed the memo that
   was read, as while the object is bound. Then, whatever the cache forgets, the name translates from the
   object's memo in every later state.
   */
  lemma {:induction false} TranslationStays(cfg: Config, states: seq<State>, actions: seq<Action>, h: string,
                                            name: string, path: string, i: nat, j: nat, n: nat, cache: Log)
    requires SavedTranslation(cfg, states, actions, h, name, path, i, j, n)
    ensures Remembered(states[j + 1], h, PathKey(name, path)) <==> Intact(states[j])
    ensures BoundAt(cfg, states[j], h) ==> Intact(states[j])
    ensures Intact(states[j]) ==>
              && h in states[n].host && PathKey(name, path) in states[n].host[h].memo
              && Translate(cache, states[n].host[h].memo, name, path).Some?
  {
    InvRun(cfg, states, actions, j);
    assert Next(cfg, states[j], actions[j], states[j + 1]);
    assert BoundAt(cfg, states[j + 1], h);
    hide Translate, Intact, Next, Inv, Started, Run;
    Carried(cfg, states, actions, i, j, h, name, path);
    SaveKeeps(cfg, states[j], actions[j], states[j + 1], h, PathKey(name, path));
    if Intact(states[j]) {
      StaysRemembered(cfg, states, actions, h, PathKey(name, path), j + 1, n);
      MemosRun(cfg, states, actions, n);
      TranslatesFromMemo(cache, states[n].host[h].memo, name, path);
    }
  }

  lemma {:induction false} SaveKeeps(cfg: Config, s: State, a: Action, s': State, h: string, key: string)
    requires Inv(cfg, s) && Next(cfg, s, a, s') && Saves(a) && Carries(s.pc, h, key) && BoundAt(cfg, s', h)
    ensures Remembered(s', h, key) <==> Intact(s)
    ensures BoundAt(cfg, s, h) ==> Intact(s)
  {
    SaveRemembers(cfg, s, a, s', h, key);
    hide Inv, Intact, Remembered;
    if BoundAt(cfg, s, h) {
      assert s.pc.h == h && (s.pc.UpMemo? || s.pc.SyncMemo?);
      BoundIntact(cfg, s);
    }
  }

  lemma {:induction false} TranslatesFromMemo(cache: Log, memo: StringMap, name: string, path: string)
    requires GoodMemo(memo) && PathKey(name, path) in memo
    ensures Translate(cache, memo, name, path).Some?
  {
    hide Resolve;
  }

  lemma {:induction false} KnownTranslates(cfg: Config, s: State, s': State, h: string, name: string, path: string)
    requires Memos(s) && Knows(cfg, s.pc, h, PathKey(name, path)) && Next(cfg, s, TranslateName(name, path), s')
    ensures s.pc.SyncWrite? && s.pc.h == h && Translate(s.cache, s.pc.memo, name, path).Some? && s'.pc.SyncWrite?
  {
    hide Bound, Resolve;
  }

  /** And no reconcile that reads the object from then on, while it is bound, fails to translate the name. */
  lemma {:induction false} NeverFailsAgain(cfg: Config, states: seq<State>, actions: seq<Action>, h: string,
                                           name: string, path: string, i: nat, j: nat, n: nat, m: nat)
    requires SavedTranslation(cfg, states, actions, h, name, path, i, j, n) && Intact(states[j]) && n < m < |actions|
    requires actions[n] == GetHost(h) && Busy(states, n, m) && actions[m] == TranslateName(name, path)
    ensures states[m].pc.SyncWrite? && states[m].pc.h == h
    ensures Translate(states[m].cache, states[m].pc.memo, name, path).Some?
    ensures states[m + 1].pc.SyncWrite?
  {
    TranslationStays(cfg, states, actions, h, name, path, i, j, n, states[n].cache);
    assert BoundAt(cfg, states[n], h);
    Known(cfg, states, actions, n, m, h, PathKey(name, path));
    MemosRun(cfg, states, actions, m);
    assert Next(cfg, states[m], actions[m], states[m + 1]);
    hide Next, Knows, Memos, Translate, Run, SavedTranslation;
    KnownTranslates(cfg, states[m], states[m + 1], h, name, path);
  }
}
