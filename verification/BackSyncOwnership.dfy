/** The back syncer touches only virtual objects that carry its label, and what goes wrong without the assumptions. */
module BackSyncOwnership {
  import opened Strings
  import opened Names
  import opened CacheLog
  import opened MappingSource
  import opened Lookup
  import opened RoundTrips
  import opened BackSync
  import opened BackSyncProofs
  import opened BackSyncSafety

  /** If the object exists, it carries this controller's label. */
  ghost predicate Ours(cfg: Config, virt: map<NamespacedName, VirtObj>, v: NamespacedName) {
    v in virt ==> !IsExcluded(cfg, virt[v])
  }

  /** What the running reconcile may rely on about the virtual object it is going to write or delete. */
  ghost predicate Owned(cfg: Config, s: State) {
    match s.pc
    case Down(v, w) => IsExcluded(cfg, w) || Ours(cfg, s.virt, v)
    case Up(_, _, v) => v !in s.virt
    case UpMark(_, _, v) => v !in s.virt
    case UpApply(_, _, v) => v !in s.virt
    case UpWrite(_, _, v, _, _, _) => v !in s.virt
    case Sync(_, _, v, w) => IsExcluded(cfg, w) || Ours(cfg, s.virt, v)
    case SyncApply(_, _, v) => Ours(cfg, s.virt, v)
    case SyncWrite(_, _, v, _, _, _) => Ours(cfg, s.virt, v)
    case _ => true
  }

  /** The virtual object the running reconcile is about. */
  function Target(pc: PC): Option<NamespacedName> {
    match pc
    case Down(v, _) => Some(v)
    case Up(_, _, v) => Some(v)
    case UpMark(_, _, v) => Some(v)
    case UpApply(_, _, v) => Some(v)
    case UpWrite(_, _, v, _, _, _) => Some(v)
    case Sync(_, _, v, _) => Some(v)
    case SyncApply(_, _, v) => Some(v)
    case SyncWrite(_, _, v, _, _, _) => Some(v)
    case _ => None
  }

  /** The controller's label, "" if there is none. */
  function LabelOf(w: VirtObj): string {
    Get(w.labels, CONTROLLED_BY_LABEL)
  }

  /** Nobody else creates the virtual object the running reconcile is about, or changes the label on it. */
  ghost predicate Quiet(s: State, a: Action) {
    a.WorldVirtual? && Target(s.pc).Some? && Target(s.pc).value in a.virt ==>
      && Target(s.pc).value in s.virt
      && LabelOf(a.virt[Target(s.pc).value]) == LabelOf(s.virt[Target(s.pc).value])
  }

  lemma {:induction false} OwnedAgain(cfg: Config, names: iset<NamespacedName>, s: State, s': State)
    requires Inv(cfg, s) && KnownNames(cfg, names, s) && OneName(cfg.physical, names) && Owned(cfg, s)
    requires Next(cfg, s, ResolveAgain, s')
    ensures Owned(cfg, s')
  {
    hide CacheNames, GoodCopy, BindingsForward;
    if s'.pc.UpMark? {
      ResolvedKnown(cfg, names, s.cache, s.pc.h);
      ResolvedGood(cfg, s.cache, s.pc.h, Some(s.pc.found));
      assert s'.pc.v == s.pc.v;
    }
  }

  lemma {:induction false} OwnedReads(cfg: Config, s: State, a: Action, s': State)
    requires Owned(cfg, s) && Next(cfg, s, a, s')
    requires (ReadsOnly(a) || Resolves(a)) && !a.ResolveAgain?
    ensures Owned(cfg, s')
  {
    hide PhysicalToVirtual, Bound, InFlight;
  }

  /** What the two writes of a patch application do. */
  lemma {:induction false} WriteEffect(cfg: Config, s: State, a: Action, s': State)
    requires Next(cfg, s, a, s') && (a.WriteStatus? || a.WriteObject?)
    ensures s.pc.UpWrite? || s.pc.SyncWrite?
    ensures var t := s.pc.target;
      || s'.virt == s.virt
      || (a.WriteStatus? && t in s.virt && s'.virt == s.virt[t := s.virt[t].(content := a.content)])
      || (a.WriteObject? && a.ok && s'.virt == s.virt[t := a.patched])
    ensures a.WriteObject? && a.ok ==> s'.virt == s.virt[s.pc.target := a.patched]
    ensures a.WriteStatus? && a.ok && s.pc.target in s.virt ==>
              s'.virt == s.virt[s.pc.target := s.virt[s.pc.target].(content := a.content)]
    ensures !a.ok ==> s'.virt == s.virt
    ensures s'.pc == s.pc || s'.pc.UpRollback? || s'.pc.UpMemo? || s'.pc.SyncMemo? || s'.pc.Idle?
    ensures s'.pc == s.pc ==> a.WriteStatus?
  {
  }

  /** The deletions take away at most one object, which carries the label; a stale copy speaks for Down. */
  lemma {:induction false} DeleteEffect(cfg: Config, s: State, a: Action, s': State) returns (v: NamespacedName)
    requires Next(cfg, s, a, s') && (a.DeleteVirtual? || a.VirtualEvent? || a.HostDeletedEvent?)
    ensures s'.virt == s.virt || s'.virt == s.virt - {v}
    ensures s'.virt != s.virt && !a.DeleteVirtual? ==> v in s.virt && !IsExcluded(cfg, s.virt[v])
    ensures a.DeleteVirtual? ==> s'.pc.Idle? && s.pc.Down? && v == s.pc.v
    ensures a.DeleteVirtual? && s'.virt != s.virt ==> !IsExcluded(cfg, s.pc.w)
    ensures !a.DeleteVirtual? ==> s'.pc == s.pc
  {
    hide Bound, PhysicalToVirtual;
    v := if a.DeleteVirtual? then s.pc.v else if a.VirtualEvent? then a.v
         else PhysicalToVirtual(cfg, s.cache, a.h, Some(a.was));
  }

  lemma {:induction false} OwnedVirtual(cfg: Config, names: iset<NamespacedName>, s: State, a: Action, s': State)
    requires Inv(cfg, s) && KnownNames(cfg, names, s) && OneName(cfg.physical, names) && Owned(cfg, s)
    requires Next(cfg, s, a, s') && OnVirtual(a) && Quiet(s, a)
    ensures Owned(cfg, s')
  {
    hide Inv, KnownNames, OneName;
    if a.WorldVirtual? {
      assert s'.pc == s.pc;
    } else {
      hide Next;
      if a.WriteStatus? || a.WriteObject? {
        WriteEffect(cfg, s, a, s');
        TargetIsName(cfg, names, s);
      } else {
        var v := DeleteEffect(cfg, s, a, s');
        hide IsExcluded;
      }
    }
  }

  lemma {:induction false} OwnedRest(cfg: Config, s: State, a: Action, s': State)
    requires Owned(cfg, s) && Next(cfg, s, a, s')
    requires Patches(a) || a.DeleteHost? || a.ReverseWrite? || a.Rollback? || a.WorldHost? || a.CacheCall?
        || a.TranslateName?
    ensures Owned(cfg, s')
  {
    hide PatchApi, Bound, Annotated, Stripped, Apply1, ForeignHostChange, Translate;
  }

  lemma {:induction false} OwnedStep(cfg: Config, names: iset<NamespacedName>, s: State, a: Action, s': State)
    requires Inv(cfg, s) && KnownNames(cfg, names, s) && OneName(cfg.physical, names) && Owned(cfg, s)
    requires Next(cfg, s, a, s') && Quiet(s, a)
    ensures Owned(cfg, s')
  {
    hide Inv, KnownNames, OneName, Owned, Next;
    if a.ResolveAgain? {
      OwnedAgain(cfg, names, s, s');
    } else if ReadsOnly(a) || Resolves(a) {
      OwnedReads(cfg, s, a, s');
    } else if OnVirtual(a) {
      OwnedVirtual(cfg, names, s, a, s');
    } else {
      OwnedRest(cfg, s, a, s');
    }
  }

  /** A step leaves objects without the label as they are. */
  ghost predicate Spares(cfg: Config, s: State, s': State) {
    forall v :: v in s.virt && Get(s.virt[v].labels, CONTROLLED_BY_LABEL) != cfg.controllerID ==>
      v in s'.virt && s'.virt[v] == s.virt[v]
  }

  lemma {:induction false} OwnedSpares(cfg: Config, names: iset<NamespacedName>, s: State, a: Action, s': State)
    requires Inv(cfg, s) && KnownNames(cfg, names, s) && OneName(cfg.physical, names) && Owned(cfg, s)
    requires Next(cfg, s, a, s') && !a.WorldVirtual?
    ensures Spares(cfg, s, s')
  {
    hide Inv, KnownNames, OneName, Next;
    if a.WriteStatus? || a.WriteObject? {
      WriteEffect(cfg, s, a, s');
      TargetIsName(cfg, names, s);
    } else if OnVirtual(a) {
      var v := DeleteEffect(cfg, s, a, s');
      hide IsExcluded;
    } else {
      VirtUntouched(cfg, s, a, s');
      hide IsExcluded;
    }
  }

  lemma {:induction false} VirtUntouched(cfg: Config, s: State, a: Action, s': State)
    requires Next(cfg, s, a, s') && !OnVirtual(a)
    ensures s'.virt == s.virt
  {
    hide PatchApi, PhysicalToVirtual, Bound, IsExcluded, Annotated, Stripped, Apply1, InFlight, ForeignHostChange;
  }

  ghost predicate QuietRun(cfg: Config, names: iset<NamespacedName>, states: seq<State>, actions: seq<Action>) {
    TameRun(cfg, names, states, actions) && forall i :: 0 <= i < |actions| ==> Quiet(states[i], actions[i])
  }

  lemma {:induction false} OwnedRun(cfg: Config, names: iset<NamespacedName>, states: seq<State>, actions: seq<Action>,
                                    n: nat)
    requires QuietRun(cfg, names, states, actions) && OneName(cfg.physical, names) && n < |states|
    ensures Owned(cfg, states[n])
  {
    if n > 0 {
      hide Inv, KnownNames, Accounted, Next, Quiet, OneName;
      OwnedRun(cfg, names, states, actions, n - 1);
      TameRunKnows(cfg, names, states, actions, n - 1);
      hide Owned, Started;
      OwnedStep(cfg, names, states[n - 1], actions[n - 1], states[n]);
    }
  }

  /**
   Ownership: over every interleaving of reconciles, event handlers and cache changes, no virtual object
   without this controller's label is modified or deleted, if cached names do not collide and nobody else
   creates or relabels the virtual object of the running reconcile.
   */
  lemma {:induction false} Ownership(cfg: Config, names: iset<NamespacedName>, states: seq<State>, actions: seq<Action>,
                                     n: nat)
    requires QuietRun(cfg, names, states, actions) && OneName(cfg.physical, names) && n < |actions|
        && !actions[n].WorldVirtual?
    ensures Spares(cfg, states[n], states[n + 1])
  {
    OwnedRun(cfg, names, states, actions, n);
    TameRunKnows(cfg, names, states, actions, n);
    hide Inv, KnownNames, Accounted, Owned, Started;
    OwnedSpares(cfg, names, states[n], actions[n], states[n + 1]);
  }

  // ----- the label of what is written

  /** What the patches of the running reconcile start from carries the label. */
  ghost predicate BaseLabelled(cfg: Config, pc: PC) {
    pc.UpWrite? || pc.SyncWrite? ==> !IsExcluded(cfg, pc.base)
  }

  lemma {:induction false} BaseLabelledStep(cfg: Config, s: State, a: Action, s': State)
    requires BaseLabelled(cfg, s.pc) && Next(cfg, s, a, s')
    ensures BaseLabelled(cfg, s'.pc)
  {
    hide BaseLabelled, Next;
    if Resolves(a) {
      LabelledStart(cfg, s, a, s');
    } else if OnVirtual(a) {
      LabelledOn(cfg, s, a, s');
    } else if ReadsOnly(a) || a.TranslateName? {
      LabelledReads(cfg, s, a, s');
    } else {
      LabelledElse(cfg, s, a, s');
    }
  }

  lemma {:induction false} LabelledStart(cfg: Config, s: State, a: Action, s': State)
    requires Next(cfg, s, a, s') && Resolves(a)
    ensures BaseLabelled(cfg, s'.pc)
  {
    hide PhysicalToVirtual, Bound;
  }

  lemma {:induction false} LabelledOn(cfg: Config, s: State, a: Action, s': State)
    requires BaseLabelled(cfg, s.pc) && Next(cfg, s, a, s') && OnVirtual(a)
    ensures BaseLabelled(cfg, s'.pc)
  {
    hide IsExcluded, PatchApi, PhysicalToVirtual, Bound, Annotated, Stripped, Apply1, InFlight, ForeignHostChange,
         Translate, AllowedCall;
  }

  lemma {:induction false} LabelledReads(cfg: Config, s: State, a: Action, s': State)
    requires BaseLabelled(cfg, s.pc) && Next(cfg, s, a, s') && (ReadsOnly(a) || a.TranslateName?)
    ensures BaseLabelled(cfg, s'.pc)
  {
    hide IsExcluded, PatchApi, PhysicalToVirtual, Bound, Annotated, Stripped, Apply1, InFlight, ForeignHostChange,
         Translate, AllowedCall;
  }

  lemma {:induction false} LabelledElse(cfg: Config, s: State, a: Action, s': State)
    requires BaseLabelled(cfg, s.pc) && Next(cfg, s, a, s') && !Resolves(a) && !OnVirtual(a) && !ReadsOnly(a)
        && !a.TranslateName?
    ensures BaseLabelled(cfg, s'.pc)
  {
    hide IsExcluded, PatchApi, PhysicalToVirtual, Bound, Annotated, Stripped, Apply1, InFlight, ForeignHostChange,
         Translate, AllowedCall;
  }

  /** The patches leave the label as they find it. */
  predicate Leaves(base: VirtObj, patched: VirtObj) {
    LabelOf(patched) == LabelOf(base)
  }

  /** The step writes v as a whole, after the patches. */
  predicate Writes(s: State, a: Action, v: NamespacedName) {
    a.WriteObject? && a.ok && (s.pc.UpWrite? || s.pc.SyncWrite?) && s.pc.target == v
  }

  /** Of the objects that are new or carried the label, exactly those keep or get it whose patches leave it in place. */
  ghost predicate LabelsFollow(cfg: Config, s: State, a: Action, s': State) {
    && (forall v :: v in s'.virt && v !in s.virt ==> Writes(s, a, v))
    && (forall v :: v in s'.virt && Ours(cfg, s.virt, v) ==>
          (!IsExcluded(cfg, s'.virt[v]) <==> (Writes(s, a, v) ==> Leaves(s.pc.base, a.patched))))
  }

  lemma {:induction false} LabelsStep(cfg: Config, s: State, a: Action, s': State)
    requires BaseLabelled(cfg, s.pc) && Next(cfg, s, a, s') && !a.WorldVirtual?
    ensures LabelsFollow(cfg, s, a, s')
  {
    hide Next;
    if a.WriteStatus? || a.WriteObject? {
      WriteEffect(cfg, s, a, s');
    } else if OnVirtual(a) {
      var v := DeleteEffect(cfg, s, a, s');
      hide IsExcluded;
    } else {
      VirtUntouched(cfg, s, a, s');
      hide IsExcluded;
    }
  }

  lemma {:induction false} BaseLabelledRun(cfg: Config, states: seq<State>, actions: seq<Action>, n: nat)
    requires Run(cfg, states, actions) && Started(cfg, states[0]) && n < |states|
    ensures BaseLabelled(cfg, states[n].pc)
  {
    if n > 0 {
      BaseLabelledRun(cfg, states, actions, n - 1);
      BaseLabelledStep(cfg, states[n - 1], actions[n - 1], states[n]);
    }
  }

  /** Over whole runs: an object the controller creates or rewrites has its label exactly if the patches leave it. */
  lemma {:induction false} LabelExactly(cfg: Config, states: seq<State>, actions: seq<Action>, n: nat)
    requires Run(cfg, states, actions) && Started(cfg, states[0]) && n < |actions| && !actions[n].WorldVirtual?
    ensures LabelsFollow(cfg, states[n], actions[n], states[n + 1])
  {
    BaseLabelledRun(cfg, states, actions, n);
    LabelsStep(cfg, states[n], actions[n], states[n + 1]);
  }
}
