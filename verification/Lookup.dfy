/**
 How the back syncer resolves host names through the name cache, why it is always woken when an answer
 changes, and how remembered translations behave.
 */
module Lookup {
  import opened Strings
  import opened Names
  import opened CacheLog
  import opened NameCaches
  import opened MappingSource

  /** A syncBack selector: absent if it has no name part, otherwise its rewritten path ("" for any). */
  datatype Selector = Selector(rewrittenPath: Option<string>)

  function ResolveSelector(log: Log, h: string, s: Selector): NamespacedName {
    if s.rewrittenPath.None? then NO_NAME
    else if s.rewrittenPath.value != "" then Resolve(log, INDEX_NAME_PATH, PathKey(h, s.rewrittenPath.value))
    else Resolve(log, INDEX_NAME, h)
  }

  /** The answer of the first selector that has one. */
  function ResolveSelectors(log: Log, h: string, selectors: seq<Selector>): NamespacedName {
    if selectors == [] then NO_NAME
    else
      var nn := ResolveSelector(log, h, selectors[0]);
      if nn.name != "" then nn else ResolveSelectors(log, h, selectors[1..])
  }

  /** The answer of the first selector that has one, or no name. */
  ghost predicate FirstAnswer(log: Log, h: string, selectors: seq<Selector>, nn: NamespacedName) {
    || (nn == NO_NAME && forall k :: 0 <= k < |selectors| ==> ResolveSelector(log, h, selectors[k]).name == "")
    || (nn.name != "" && exists k ::
          && 0 <= k < |selectors| && nn == ResolveSelector(log, h, selectors[k])
          && forall j :: 0 <= j < k ==> ResolveSelector(log, h, selectors[j]).name == "")
  }

  lemma {:induction false} AnswersInOrder(log: Log, h: string, selectors: seq<Selector>)
    ensures FirstAnswer(log, h, selectors, ResolveSelectors(log, h, selectors))
  {
    if selectors != [] && ResolveSelector(log, h, selectors[0]).name == "" {
      var rest := selectors[1..];
      AnswersInOrder(log, h, rest);
      hide ResolveSelector;
      var nn := ResolveSelectors(log, h, rest);
      assert ResolveSelectors(log, h, selectors) == nn;
      forall k | 0 < k < |selectors|
        ensures selectors[k] == rest[k - 1]
      {
      }
      if nn.name != "" {
        var k :| 0 <= k < |rest| && nn == ResolveSelector(log, h, rest[k])
            && forall j :: 0 <= j < k ==> ResolveSelector(log, h, rest[j]).name == "";
        assert nn == ResolveSelector(log, h, selectors[k + 1]);
      }
    }
  }

  /**
   The selectors are asked in order, and those without a name part have no answer: the first answer is the answer of
   all, also if selectors before it know nothing.
   */
  lemma {:induction false} LeastSelectorAnswers(log: Log, h: string, selectors: seq<Selector>, k: nat)
    requires k < |selectors| && ResolveSelector(log, h, selectors[k]).name != ""
    requires forall j :: 0 <= j < k ==> ResolveSelector(log, h, selectors[j]).name == ""
    ensures selectors[k].rewrittenPath.Some?
    ensures ResolveSelectors(log, h, selectors) == ResolveSelector(log, h, selectors[k])
  {
    AnswersInOrder(log, h, selectors);
  }

  /** A selector with a name part asks for the host name under its path, or under the name alone if that is empty. */
  lemma {:induction false} SelectorAsks(log: Log, h: string, path: string)
    ensures ResolveSelector(log, h, Selector(None)).name == ""
    ensures ResolveSelector(log, h, Selector(Some(path)))
         == if path == "" then Resolve(log, INDEX_NAME, h) else Resolve(log, INDEX_NAME_PATH, h + "/" + path)
  {
  }

  lemma {:induction false} ResolveSelectorsForward(physical: Physical, log: Log, h: string, selectors: seq<Selector>)
    requires AllForward(physical, log) && SlashFree(physical) && '/' !in h
    requires ResolveSelectors(log, h, selectors).name != ""
    ensures Host(physical, ResolveSelectors(log, h, selectors)) == h
    ensures Mentioned(physical, log, ResolveSelectors(log, h, selectors))
  {
    var s := selectors[0];
    if ResolveSelector(log, h, s).name != "" {
      if s.rewrittenPath.value != "" {
        ResolveNamePathForward(physical, log, h, s.rewrittenPath.value);
      } else {
        ResolveNameForward(physical, log, h);
      }
    } else {
      ResolveSelectorsForward(physical, log, h, selectors[1..]);
    }
  }

  /** The hooks a back syncer sets up when it starts. */
  ghost predicate Registered(hooks: Hooks, gvk: GVK, queue: string, targetNamespace: string, selectors: seq<Selector>) {
    forall s :: s in selectors && s.rewrittenPath.Some? ==>
      Hook(queue, targetNamespace, s.rewrittenPath.value) in HooksAt(hooks, gvk, INDEX_NAME_PATH)
  }

  /** A lookup key a selector reads for a host name. */
  predicate Reads(s: Selector, h: string, index: string, key: string) {
    s.rewrittenPath.Some?
    && if s.rewrittenPath.value != "" then index == INDEX_NAME_PATH && key == PathKey(h, s.rewrittenPath.value)
       else index == INDEX_NAME && key == h
  }

  lemma {:induction false} ChangedSelector(log: Log, log': Log, h: string, selectors: seq<Selector>)
    returns (s: Selector, index: string, key: string)
    requires ResolveSelectors(log, h, selectors) != ResolveSelectors(log', h, selectors)
    ensures s in selectors && Reads(s, h, index, key)
    ensures Project(log, index, key) != Project(log', index, key)
  {
    s := selectors[0];
    if ResolveSelector(log, h, s) != ResolveSelector(log', h, s) {
      if s.rewrittenPath.value != "" {
        index, key := INDEX_NAME_PATH, PathKey(h, s.rewrittenPath.value);
      } else {
        index, key := INDEX_NAME, h;
      }
    } else {
      s, index, key := ChangedSelector(log, log', h, selectors[1..]);
    }
  }

  /** A hook told about a path key of a slash-free host name requests that host name if the path is its own, or any. */
  lemma {:induction false} HookDecodes(hook: Hook, name: string, h: string, path: string)
    requires '/' !in h
    ensures HookRequests(hook, name, PathKey(h, path))
         == if name != "" && (hook.rewrittenPath == "" || hook.rewrittenPath == path)
            then [Wake(hook.queue, NamespacedName(hook.targetNamespace, h))] else []
  {
    SplitHead(h, '/', path);
    assert PathKey(h, path) == h + ['/'] + path;
  }

  /** If an announced mapping holds a key some selector reads for h, then h has been requested. */
  lemma {:induction false} AnnouncedWakes(physical: Physical, hooks: Hooks, gvk: GVK, queue: string,
                                          targetNamespace: string, selectors: seq<Selector>, s: Selector, h: string,
                                          index: string, key: string, o: IndexMappings, fired: seq<Wake>)
    requires Registered(hooks, gvk, queue, targetNamespace, selectors)
    requires s in selectors && Reads(s, h, index, key) && Has(o.mappings, index, key)
    requires Forward(physical, o.mappings) && o.name != "" && '/' !in h
    requires AllAnnounced(hooks, gvk, o.name, o.mappings, fired)
    ensures Wake(queue, NamespacedName(targetNamespace, h)) in fired
  {
    var rewrittenPath := s.rewrittenPath.value;
    var hook := Hook(queue, targetNamespace, rewrittenPath);
    var path := rewrittenPath;
    if rewrittenPath == "" {
      var v, p :| NameSource(physical, o.mappings, h, v, p);
      path := p;
    }
    assert Has(o.mappings, INDEX_NAME_PATH, PathKey(h, path));
    assert Announced(hooks, gvk, INDEX_NAME_PATH, o.name, PathKey(h, path), fired);
    HookDecodes(hook, o.name, h, path);
  }

  lemma {:induction false} WithoutNameKeeps(log: Log, name: string, index: string, key: string)
    requires forall o :: o in log && o.name == name ==> !Has(o.mappings, index, key)
    ensures Project(Without(log, name), index, key) == Project(log, index, key)
  {
    ProjectWithout(log, name, index, key);
    var entries := Project(log, index, key);
    forall e | e in entries
      ensures e.name != name
    {
      var i :| 0 <= i < |entries| && entries[i] == e;
      var k := ProjectSource(log, index, key, i);
      assert log[k] in log;
    }
    WithoutNameAbsent(entries, name);
  }

  /** An exchange that changes a lookup list involves an object, old or new, that has the key. */
  lemma {:induction false} ExchangeTouches(log: Log, om: IndexMappings, index: string, key: string)
    requires Project(log, index, key) != Project(Exchanged(log, om), index, key)
    ensures om !in log
    ensures Has(om.mappings, index, key) || exists o :: o in log && o.name == om.name && Has(o.mappings, index, key)
  {
    var w := Without(log, om.name);
    assert w + [] == w;
    ProjectAppend(w, om, index, key);
    if !Has(om.mappings, index, key) && forall o :: o in log && o.name == om.name ==> !Has(o.mappings, index, key) {
      WithoutNameKeeps(log, om.name, index, key);
      assert false;
    }
  }

  /** No wake-up is lost when an object is exchanged. */
  lemma {:induction false} ExchangeWakes(physical: Physical, hooks: Hooks, gvk: GVK, log: Log, om: IndexMappings,
                                         queue: string, targetNamespace: string, selectors: seq<Selector>, h: string,
                                         fired: seq<Wake>)
    requires Registered(hooks, gvk, queue, targetNamespace, selectors) && '/' !in h
    requires AllForward(physical, log + [om])
    requires om !in log ==>
      AllAnnounced(hooks, gvk, om.name, om.mappings, fired)
      && forall o :: o in log && o.name == om.name ==> AllAnnounced(hooks, gvk, om.name, o.mappings, fired)
    requires ResolveSelectors(log, h, selectors) != ResolveSelectors(Exchanged(log, om), h, selectors)
    ensures Wake(queue, NamespacedName(targetNamespace, h)) in fired
  {
    var s, index, key := ChangedSelector(log, Exchanged(log, om), h, selectors);
    ExchangeTouches(log, om, index, key);
    var o: IndexMappings;
    if Has(om.mappings, index, key) {
      o := om;
    } else {
      o :| o in log && o.name == om.name && Has(o.mappings, index, key);
    }
    assert o in log + [om];
    AnnouncedWakes(physical, hooks, gvk, queue, targetNamespace, selectors, s, h, index, key, o, fired);
  }

  /** No wake-up is lost when an object is removed. */
  lemma {:induction false} RemoveWakes(physical: Physical, hooks: Hooks, gvk: GVK, log: Log, name: string,
                                       queue: string, targetNamespace: string, selectors: seq<Selector>, h: string,
                                       fired: seq<Wake>)
    requires Registered(hooks, gvk, queue, targetNamespace, selectors) && '/' !in h
    requires AllForward(physical, log)
    requires forall o :: o in log && o.name == name ==> AllAnnounced(hooks, gvk, name, o.mappings, fired)
    requires ResolveSelectors(log, h, selectors) != ResolveSelectors(Without(log, name), h, selectors)
    ensures Wake(queue, NamespacedName(targetNamespace, h)) in fired
  {
    var s, index, key := ChangedSelector(log, Without(log, name), h, selectors);
    if forall o :: o in log && o.name == name ==> !Has(o.mappings, index, key) {
      WithoutNameKeeps(log, name, index, key);
      assert false;
    }
    var o :| o in log && o.name == name && Has(o.mappings, index, key);
    AnnouncedWakes(physical, hooks, gvk, queue, targetNamespace, selectors, s, h, index, key, o, fired);
  }

  /** Whatever answer of a registered back syncer changes between two contents, its request is in the list. */
  ghost predicate AllWoken(hooks: Hooks, gvk: GVK, log: Log, log': Log, fired: seq<Wake>) {
    forall queue, targetNamespace, selectors, h ::
      Registered(hooks, gvk, queue, targetNamespace, selectors) && '/' !in h
      && ResolveSelectors(log, h, selectors) != ResolveSelectors(log', h, selectors)
      ==> Wake(queue, NamespacedName(targetNamespace, h)) in fired
  }

  /** The informer handler that feeds the cache. */
  class FromVirtualHandler {
    const gvk: GVK
    const patches: seq<Patch>
    const physical: Physical
    const nameCache: NameCache

    constructor (gvk: GVK, patches: seq<Patch>, physical: Physical, nameCache: NameCache)
      ensures this.gvk == gvk && this.patches == patches && this.physical == physical && this.nameCache == nameCache
    {
      this.gvk, this.patches, this.physical, this.nameCache := gvk, patches, physical, nameCache;
    }

    ghost function Content(): Log
      reads nameCache
    {
      Replay(nameCache.history, gvk)
    }

    /** The cache is consistent, and everything in it came through this handler. */
    ghost predicate Valid()
      reads nameCache
    {
      nameCache.Valid() && GoodPatches(patches) && AllForward(physical, Content())
    }

    method OnAdd(obj: VirtualObject) returns (ghost fired: seq<Wake>)
      requires Valid()
      modifies nameCache
      ensures Valid() && nameCache.hooks == old(nameCache.hooks)
      ensures nameCache.woken == old(nameCache.woken) + fired
      ensures AllWoken(nameCache.hooks, gvk, old(Content()), Content(), fired)
      ensures var facts := Facts(obj, patches);
        Content() == if facts.None? then old(Content())
                     else Exchanged(old(Content()), IndexMappings(obj.namespace + "/" + obj.name,
                         Collect(physical, facts.value)))
    {
      fired := [];
      var newMappings := MappingsFromVirtualObject(physical, obj, patches);
      if newMappings.Some? {
        ghost var log := Content();
        var om := IndexMappings(obj.namespace + "/" + obj.name, newMappings.value);
        CollectForward(physical, Facts(obj, patches).value);
        fired := nameCache.ExchangeMapping(gvk, om);
        assert nameCache.history[..|nameCache.history| - 1] == old(nameCache.history);
        assert om.name[|obj.namespace|] == '/';
        WithoutMembers(log, om.name);
        forall queue, targetNamespace, selectors, h |
          Registered(nameCache.hooks, gvk, queue, targetNamespace, selectors) && '/' !in h
          && ResolveSelectors(log, h, selectors) != ResolveSelectors(Content(), h, selectors)
          ensures Wake(queue, NamespacedName(targetNamespace, h)) in fired
        {
          ExchangeWakes(physical, nameCache.hooks, gvk, log, om, queue, targetNamespace, selectors, h, fired);
        }
      }
    }

    method OnUpdate(newObj: VirtualObject) returns (ghost fired: seq<Wake>)
      requires Valid()
      modifies nameCache
      ensures Valid() && nameCache.hooks == old(nameCache.hooks)
      ensures nameCache.woken == old(nameCache.woken) + fired
      ensures AllWoken(nameCache.hooks, gvk, old(Content()), Content(), fired)
      ensures var facts := Facts(newObj, patches);
        Content() == if facts.None? then old(Content())
                     else Exchanged(old(Content()), IndexMappings(newObj.namespace + "/" + newObj.name,
                         Collect(physical, facts.value)))
    {
      fired := OnAdd(newObj);
    }

    method OnDelete(namespace: string, name: string) returns (ghost fired: seq<Wake>)
      requires Valid()
      modifies nameCache
      ensures Valid() && nameCache.hooks == old(nameCache.hooks)
      ensures nameCache.woken == old(nameCache.woken) + fired
      ensures AllWoken(nameCache.hooks, gvk, old(Content()), Content(), fired)
      ensures Content() == Without(old(Content()), namespace + "/" + name)
    {
      ghost var log := Content();
      var key := namespace + "/" + name;
      fired := nameCache.RemoveMapping(gvk, key);
      assert nameCache.history[..|nameCache.history| - 1] == old(nameCache.history);
      WithoutMembers(log, key);
      forall queue, targetNamespace, selectors, h |
        Registered(nameCache.hooks, gvk, queue, targetNamespace, selectors) && '/' !in h
        && ResolveSelectors(log, h, selectors) != ResolveSelectors(Content(), h, selectors)
        ensures Wake(queue, NamespacedName(targetNamespace, h)) in fired
      {
        RemoveWakes(physical, nameCache.hooks, gvk, log, key, queue, targetNamespace, selectors, h, fired);
      }
    }
  }

  /** Start: one hook per name selector, all on the path index. */
  method Start(nameCache: NameCache, gvk: GVK, queue: string, targetNamespace: string, selectors: seq<Selector>)
    requires nameCache.Valid()
    modifies nameCache
    ensures nameCache.Valid() && nameCache.history == old(nameCache.history)
    ensures Registered(nameCache.hooks, gvk, queue, targetNamespace, selectors)
    ensures forall g, i, hook :: hook in HooksAt(old(nameCache.hooks), g, i) ==> hook in HooksAt(nameCache.hooks, g, i)
  {
    for k := 0 to |selectors|
      invariant nameCache.Valid() && nameCache.history == old(nameCache.history)
      invariant Registered(nameCache.hooks, gvk, queue, targetNamespace, selectors[..k])
      invariant forall g, i, hook :: hook in HooksAt(old(nameCache.hooks), g, i) ==>
          hook in HooksAt(nameCache.hooks, g, i)
    {
      var s := selectors[k];
      if s.rewrittenPath.Some? {
        nameCache.AddChangeHook(gvk, INDEX_NAME_PATH, Hook(queue, targetNamespace, s.rewrittenPath.value));
      }
    }
  }

  /** PhysicalToVirtual for a host object without name annotations: the loop over the selectors. */
  method ResolveBySelectors(nameCache: NameCache, gvk: GVK, h: string, selectors: seq<Selector>)
    returns (nn: NamespacedName)
    requires nameCache.Valid()
    ensures nn == ResolveSelectors(Replay(nameCache.history, gvk), h, selectors)
    ensures FirstAnswer(Replay(nameCache.history, gvk), h, selectors, nn)
  {
    ghost var log := Replay(nameCache.history, gvk);
    AnswersInOrder(log, h, selectors);
    hide FirstAnswer;
    for k := 0 to |selectors|
      invariant ResolveSelectors(log, h, selectors) == ResolveSelectors(log, h, selectors[k..])
    {
      var s := selectors[k];
      nn := NO_NAME;
      if s.rewrittenPath.Some? {
        if s.rewrittenPath.value != "" {
          nn := nameCache.ResolveNamePath(gvk, h, s.rewrittenPath.value);
        } else {
          nn := nameCache.ResolveName(gvk, h);
        }
        if nn.name == "" {
          continue;
        }
      }
      if nn.name != "" {
        return nn;
      }
    }
    nn := NO_NAME;
  }

  // ----- remembered translations

  /** Remembered translations; a remembered name is never empty. */
  ghost predicate GoodMemo(memo: map<string, string>) {
    forall k :: k in memo ==> memo[k] != ""
  }

  /** What a host name translates to, given the cache and what has been remembered. */
  function Translate(log: Log, memo: map<string, string>, name: string, path: string): Option<string> {
    var n := if path == "" then Resolve(log, INDEX_NAME, name) else Resolve(log, INDEX_NAME_PATH, PathKey(name, path));
    var key := PathKey(name, path);
    if n.name != "" then Some(n.name)
    else if key in memo && memo[key] != "" then Some(memo[key])
    else None
  }

  /** The translations of one reconcile, remembered as they are made. */
  class MemorizingResolver {
    const gvk: GVK
    const nameCache: NameCache
    var mappings: map<string, string>

    constructor (gvk: GVK, nameCache: NameCache, mappings: map<string, string>)
      ensures this.gvk == gvk && this.nameCache == nameCache && this.mappings == mappings
    {
      this.gvk, this.nameCache, this.mappings := gvk, nameCache, mappings;
    }

    method TranslateName(name: string, path: string) returns (r: Option<string>)
      requires nameCache.Valid()
      modifies `mappings
      ensures r == Translate(Replay(nameCache.history, gvk), old(mappings), name, path)
      ensures GoodMemo(old(mappings)) ==> GoodMemo(mappings)
      ensures mappings == if r.None? then old(mappings) else old(mappings)[PathKey(name, path) := r.value]
      ensures var log, key := Replay(nameCache.history, gvk), name + "/" + path;
        var n := if path == "" then Resolve(log, INDEX_NAME, name) else Resolve(log, INDEX_NAME_PATH, key);
        if n.name != "" then r == Some(n.name) && mappings == old(mappings)[key := n.name]
        else
          && mappings == old(mappings)
          && r == if key in old(mappings) && old(mappings)[key] != "" then Some(old(mappings)[key]) else None
    {
      var key := name + "/" + path;
      var n;
      if path == "" {
        n := nameCache.ResolveName(gvk, name);
      } else {
        n := nameCache.ResolveNamePath(gvk, name, path);
      }
      if n.name == "" {
        if key in mappings && mappings[key] != "" {
          assert mappings == mappings[key := mappings[key]];
          return Some(mappings[key]);
        }
        return None;
      }
      mappings := mappings[key := n.name];
      return Some(n.name);
    }
  }
}
