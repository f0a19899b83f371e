/** What a remembered name translates to: the value that was saved, as long as the cache gives no other answer. */
module BackSyncAnswers {
  import opened Strings
  import opened Names
  import opened CacheLog
  import opened MappingSource
  import opened Lookup
  import opened BackSync
  import opened BackSyncProofs
  import opened BackSyncSafety
  import opened BackSyncMemos

  predicate Gives(memo: StringMap, key: string, x: string) {
    key in memo && memo[key] == x
  }

  /** What the cache itself answers. */
  function CacheAnswer(cache: Log, name: string, path: string): string {
    (if path == "" then Resolve(cache, INDEX_NAME, name) else Resolve(cache, INDEX_NAME_PATH, PathKey(name, path))).name
  }

  /** If a reconcile of the object translates something under the key, the cache answers x or has forgotten it. */
  ghost predicate NoOther(s: State, a: Action, h: string, key: string, x: string) {
    a.TranslateName? && PathKey(a.name, a.path) == key && (s.pc.UpWrite? || s.pc.SyncWrite?) && s.pc.h == h ==>
      CacheAnswer(s.cache, a.name, a.path) == "" || CacheAnswer(s.cache, a.name, a.path) == x
  }

  ghost predicate NoOthers(states: seq<State>, actions: seq<Action>, h: string, key: string, x: string, i: nat, n: nat)
    requires |states| == |actions| + 1 && n < |states|
  {
    forall k :: i <= k < n ==> NoOther(states[k], actions[k], h, key, x)
  }

  /** The cache goes first, and what it has forgotten is the remembered value. */
  lemma {:induction false} ForgottenIsRemembered(cache: Log, memo: StringMap, name: string, path: string)
    ensures CacheAnswer(cache, name, path) != "" ==>
              Translate(cache, memo, name, path) == Some(CacheAnswer(cache, name, path))
    ensures CacheAnswer(cache, name, path) == "" && PathKey(name, path) in memo && memo[PathKey(name, path)] != "" ==>
              Translate(cache, memo, name, path) == Some(memo[PathKey(name, path)])
    ensures CacheAnswer(cache, name, path) == "" && PathKey(name, path) !in memo ==>
              Translate(cache, memo, name, path) == None
  {
    hide Resolve;
  }

  // ----- from the translation to the save

  predicate CarriesValue(pc: PC, h: string, key: string, x: string) {
    (Translating(pc) && pc.h == h && Gives(pc.memo, key, x)) || pc.UpRollback?
  }

  lemma {:induction false} LearnedValue(cfg: Config, s: State, a: Action, s': State, h: string, key: string, x: string)
    requires Next(cfg, s, a, s') && CarriesValue(s.pc, h, key, x) && a.TranslateName? && NoOther(s, a, h, key, x)
    requires x != "" && !s'.pc.Idle?
    ensures CarriesValue(s'.pc, h, key, x)
  {
    ForgottenIsRemembered(s.cache, s.pc.memo, a.name, a.path);
    hide Translate, CacheAnswer;
  }

  lemma {:induction false} CarriesValueStep(cfg: Config, s: State, a: Action, s': State, h: string, key: string,
                                            x: string)
    requires Next(cfg, s, a, s') && CarriesValue(s.pc, h, key, x) && !s'.pc.Idle? && NoOther(s, a, h, key, x) && x != ""
    ensures CarriesValue(s'.pc, h, key, x)
  {
    if a.TranslateName? {
      hide Next;
      LearnedValue(cfg, s, a, s', h, key, x);
    } else {
      hide NoOther;
      hide Bound, PhysicalToVirtual, IsExcluded, PatchApi, Apply1, ForeignHostChange, AllowedCall, Translate, Annotated,
           Stripped, Translated;
    }
  }

  lemma {:induction false} FirstCarried(cfg: Config, s: State, a: Action, s': State, h: string, name: string,
                                        path: string, x: string)
    requires Next(cfg, s, a, s') && a == TranslateName(name, path) && Translating(s.pc) && s.pc.h == h
    requires Translate(s.cache, s.pc.memo, name, path) == Some(x) && !s'.pc.Idle?
    ensures CarriesValue(s'.pc, h, PathKey(name, path), x)
  {
    hide Translate, PathKey;
  }

  lemma {:induction false} CarriedValue(cfg: Config, states: seq<State>, actions: seq<Action>, i: nat, n: nat,
                                        h: string, name: string, path: string, x: string)
    requires Run(cfg, states, actions) && i < n < |states|
    requires TranslatedAt(cfg, states, actions, i, h, name, path) && Busy(states, i, n)
    requires Translate(states[i].cache, states[i].pc.memo, name, path) == Some(x)
    requires x != "" && NoOthers(states, actions, h, PathKey(name, path), x, i + 1, n)
    ensures CarriesValue(states[n].pc, h, PathKey(name, path), x)
    decreases n
  {
    hide Next, Translate, PathKey;
    assert Next(cfg, states[n - 1], actions[n - 1], states[n]);
    if n == i + 1 {
      FirstCarried(cfg, states[i], actions[i], states[n], h, name, path, x);
    } else {
      CarriedValue(cfg, states, actions, i, n - 1, h, name, path, x);
      CarriesValueStep(cfg, states[n - 1], actions[n - 1], states[n], h, PathKey(name, path), x);
    }
  }

  lemma {:induction false} SavedValue(cfg: Config, s: State, a: Action, s': State, h: string, key: string, x: string)
    requires Inv(cfg, s) && Next(cfg, s, a, s') && Saves(a) && CarriesValue(s.pc, h, key, x) && h in s'.host
        && Intact(s)
    ensures Gives(s'.host[h].memo, key, x) && s'.pc.Idle?
  {
    SavedMemo(cfg, s, a, s');
    SavedCopy(cfg, s);
    SaveEnds(cfg, s, a, s');
    hide Inv, Next, GoodCopy, Bound;
  }

  lemma {:induction false} SaveEnds(cfg: Config, s: State, a: Action, s': State)
    requires Next(cfg, s, a, s') && Saves(a)
    ensures s'.pc.Idle?
  {
    hide PatchApi, Annotated;
  }

  // ----- as long as the object stays bound

  /** A reconcile of the object has read the value and keeps it in hand. */
  ghost predicate PCGives(cfg: Config, pc: PC, h: string, key: string, x: string) {
    match pc
    case Idle => true
    case Down(_, _) => true
    case HaveHost(g, p) => g == h ==> p.Some? && Bound(cfg, p.value) && Gives(p.value.memo, key, x)
    case HaveName(g, p, _) => g == h ==> p.Some? && Bound(cfg, p.value) && Gives(p.value.memo, key, x)
    case Up(g, p, _) => g == h ==> Bound(cfg, p)
    case Sync(g, p, _, _) => g == h ==> Gives(p.memo, key, x)
    case SyncApply(g, p, _) => g == h ==> Gives(p.memo, key, x)
    case SyncWrite(g, p, _, _, _, memo) => g == h ==> Gives(memo, key, x)
    case SyncMemo(g, p, _, memo) => g == h ==> Gives(memo, key, x)
    case UpMark(g, _, _) => g != h
    case UpApply(g, _, _) => g != h
    case UpWrite(g, _, _, _, _, _) => g != h
    case UpRollback(g, _, _) => g != h
    case UpMemo(g, _, _, _) => g != h
  }

  ghost predicate Holds(cfg: Config, s: State, h: string, key: string, x: string) {
    h in s.host && Gives(s.host[h].memo, key, x) && PCGives(cfg, s.pc, h, key, x)
  }

  lemma {:induction false} PCGivesOn(cfg: Config, s: State, a: Action, s': State, h: string, key: string, x: string)
    requires Holds(cfg, s, h, key, x) && Next(cfg, s, a, s') && BoundAt(cfg, s, h) && NoOther(s, a, h, key, x)
    requires x != ""
    ensures PCGives(cfg, s'.pc, h, key, x)
  {
    if a.TranslateName? {
      ForgottenIsRemembered(s.cache, if s.pc.UpWrite? || s.pc.SyncWrite? then s.pc.memo else map[], a.name, a.path);
      hide Translate, CacheAnswer, Bound;
    } else {
      hide NoOther;
      PCGivesElse(cfg, s, a, s', h, key, x);
    }
  }

  lemma {:induction false} PCGivesElse(cfg: Config, s: State, a: Action, s': State, h: string, key: string, x: string)
    requires Holds(cfg, s, h, key, x) && Next(cfg, s, a, s') && BoundAt(cfg, s, h) && !a.TranslateName?
    ensures PCGives(cfg, s'.pc, h, key, x)
  {
    hide Bound, Gives, PhysicalToVirtual, IsExcluded, PatchApi, Apply1, ForeignHostChange, AllowedCall, Translate,
        Annotated,
         Stripped, Translated;
  }

  lemma {:induction false} HostGivesOn(cfg: Config, s: State, a: Action, s': State, h: string, key: string, x: string)
    requires Holds(cfg, s, h, key, x) && Next(cfg, s, a, s') && BoundAt(cfg, s, h) && BoundAt(cfg, s', h)
    ensures Gives(s'.host[h].memo, key, x)
  {
    if Patches(a) {
      PatchEffect(cfg, s, a, s');
      hide Next, Merge, Diff, Bound, Annotated;
      assert Annotated(cfg, s.pc.found, s.pc.v, PatchMemo(s, a)).memo == PatchMemo(s, a) by {
        AnnotatedMemo(cfg, s.pc.found, s.pc.v, PatchMemo(s, a));
      }
    } else if a.ReverseWrite? {
      ReverseKeeps(cfg, s, a, s');
      hide Next, PCGives, Bound;
    } else if a.WorldHost? || a.DeleteHost? || a.Rollback? {
      RestGives(cfg, s, a, s', h, key, x);
    } else {
      HostUntouched(cfg, s, a, s');
      hide Next, PCGives, Bound;
    }
  }

  lemma {:induction false} AnnotatedMemo(cfg: Config, p: HostObj, v: NamespacedName, memo: StringMap)
    ensures Annotated(cfg, p, v, memo).memo == memo
  {
  }

  lemma {:induction false} RestGives(cfg: Config, s: State, a: Action, s': State, h: string, key: string, x: string)
    requires Holds(cfg, s, h, key, x) && Next(cfg, s, a, s') && BoundAt(cfg, s', h)
    requires a.WorldHost? || a.DeleteHost? || a.Rollback?
    ensures Gives(s'.host[h].memo, key, x)
  {
    hide Bound, Gives, Merge, Diff, MarkersWithin, Stripped;
  }

  lemma {:induction false} ValueKept(cfg: Config, states: seq<State>, actions: seq<Action>, h: string, key: string,
                                     x: string, i: nat, n: nat)
    requires Run(cfg, states, actions) && i <= n < |states| && x != ""
    requires states[i].pc.Idle? && BoundThroughout(cfg, states, h, i, n) && h in states[i].host
    requires Gives(states[i].host[h].memo, key, x) && NoOthers(states, actions, h, key, x, i, n)
    ensures Holds(cfg, states[n], h, key, x)
    decreases n
  {
    hide Next, Bound, NoOther, Gives;
    if i < n {
      assert Next(cfg, states[n - 1], actions[n - 1], states[n]) && BoundAt(cfg, states[n - 1], h);
      assert BoundAt(cfg, states[n], h) && NoOther(states[n - 1], actions[n - 1], h, key, x);
      hide PCGives, BoundAt;
      ValueKept(cfg, states, actions, h, key, x, i, n - 1);
      HostGivesOn(cfg, states[n - 1], actions[n - 1], states[n], h, key, x);
      PCGivesOn(cfg, states[n - 1], actions[n - 1], states[n], h, key, x);
    }
  }

  // ----- over whole runs

  /**
   A reconcile translated the name to x, and its save keeps it. As long as the object stays bound and the cache gives
   no other answer under the key to a reconcile of the object, its memo holds x: once the cache has forgotten the
   name, it translates to the value that was saved.
   */
  lemma {:induction false} SavedValueStays(cfg: Config, states: seq<State>, actions: seq<Action>, h: string,
                                           name: string, path: string, x: string, i: nat, j: nat, n: nat)
    requires SavedTranslation(cfg, states, actions, h, name, path, i, j, n) && Intact(states[j])
    requires Translate(states[i].cache, states[i].pc.memo, name, path) == Some(x)
    requires NoOthers(states, actions, h, PathKey(name, path), x, i, n)
    ensures h in states[n].host && Gives(states[n].host[h].memo, PathKey(name, path), x)
    ensures forall cache :: CacheAnswer(cache, name, path) == "" ==>
              Translate(cache, states[n].host[h].memo, name, path) == Some(x)
    ensures Holds(cfg, states[n], h, PathKey(name, path), x) && x != ""
  {
    var key := PathKey(name, path);
    TranslatedName(states[i].cache, states[i].pc.memo, name, path);
    StartedInv(cfg, states[0]);
    InvRun(cfg, states, actions, j);
    assert Next(cfg, states[j], actions[j], states[j + 1]) && BoundAt(cfg, states[j + 1], h);
    hide Translate, Intact, Next, Inv, Started, Run, NoOther, Gives, Holds, PathKey, Bound;
    CarriedValue(cfg, states, actions, i, j, h, name, path, x);
    SavedValue(cfg, states[j], actions[j], states[j + 1], h, key, x);
    ValueKept(cfg, states, actions, h, key, x, j + 1, n);
    HoldsHost(cfg, states[n], h, key, x);
    forall cache | CacheAnswer(cache, name, path) == ""
      ensures Translate(cache, states[n].host[h].memo, name, path) == Some(x)
    {
      SilentGives(cache, states[n].host[h].memo, name, path, x);
    }
  }

  lemma {:induction false} HoldsHost(cfg: Config, s: State, h: string, key: string, x: string)
    requires Holds(cfg, s, h, key, x)
    ensures h in s.host && Gives(s.host[h].memo, key, x)
  {
  }

  lemma {:induction false} SilentGives(cache: Log, memo: StringMap, name: string, path: string, x: string)
    requires Gives(memo, PathKey(name, path), x) && x != "" && CacheAnswer(cache, name, path) == ""
    ensures Translate(cache, memo, name, path) == Some(x)
  {
    ForgottenIsRemembered(cache, memo, name, path);
    hide Translate, CacheAnswer;
  }

  /** Names are not translated to nothing. */
  lemma {:induction false} TranslatedName(cache: Log, memo: StringMap, name: string, path: string)
    ensures Translate(cache, memo, name, path).Some? ==> Translate(cache, memo, name, path).value != ""
  {
    hide Resolve;
  }

  /** And every later reconcile of the object that asks for the name gets that value, from the cache or the memo. */
  lemma {:induction false} SameAnswerAgain(cfg: Config, states: seq<State>, actions: seq<Action>, h: string,
                                           name: string, path: string, x: string, i: nat, j: nat, n: nat)
    requires SavedTranslation(cfg, states, actions, h, name, path, i, j, n) && Intact(states[j]) && n < |actions|
    requires Translate(states[i].cache, states[i].pc.memo, name, path) == Some(x)
    requires NoOthers(states, actions, h, PathKey(name, path), x, i, n + 1)
    requires actions[n] == TranslateName(name, path) && (states[n].pc.UpWrite? || states[n].pc.SyncWrite?)
        && states[n].pc.h == h
    ensures states[n].pc.SyncWrite? && Translate(states[n].cache, states[n].pc.memo, name, path) == Some(x)
    ensures states[n + 1].pc.SyncWrite? && Gives(states[n + 1].pc.memo, PathKey(name, path), x)
  {
    hide Next, Bound, NoOther, Holds, Translate, Gives, Intact, PathKey;
    SavedValueStays(cfg, states, actions, h, name, path, x, i, j, n);
    assert NoOther(states[n], actions[n], h, PathKey(name, path), x);
    assert Next(cfg, states[n], actions[n], states[n + 1]);
    AnswerStep(cfg, states[n], actions[n], states[n + 1], h, name, path, x);
  }

  lemma {:induction false} AnswerStep(cfg: Config, s: State, a: Action, s': State, h: string, name: string,
                                      path: string, x: string)
    requires Next(cfg, s, a, s') && a == TranslateName(name, path) && (s.pc.UpWrite? || s.pc.SyncWrite?) && s.pc.h == h
    requires Holds(cfg, s, h, PathKey(name, path), x) && x != "" && NoOther(s, a, h, PathKey(name, path), x)
    ensures s.pc.SyncWrite? && Translate(s.cache, s.pc.memo, name, path) == Some(x)
    ensures s'.pc.SyncWrite? && Gives(s'.pc.memo, PathKey(name, path), x)
  {
    ForgottenIsRemembered(s.cache, s.pc.memo, name, path);
    hide Translate, CacheAnswer, Bound, PathKey;
  }
}
