/** The name cache of pkg/namecache: an object table, a derived multi-index, and change hooks. */
module NameCaches {
  import opened Strings
  import opened Names
  import opened CacheLog

  type Indices = map<GVK, map<string, map<string, seq<Entry>>>>
  type Objects = map<GVK, map<string, IndexMappings>>
  type Hooks = map<GVK, map<string, seq<Hook>>>

  /** The closure a back syncer registers: its queue, target namespace and rewritten path ("" for any). */
  datatype Hook = Hook(queue: string, targetNamespace: string, rewrittenPath: string)

  /** A reconcile request put on a queue. */
  datatype Wake = Wake(queue: string, request: NamespacedName)

  /** A lookup list; an absent key and an empty list are the same thing. */
  function Look(ix: Indices, gvk: GVK, index: string, key: string): seq<Entry> {
    if gvk in ix && index in ix[gvk] && key in ix[gvk][index] then ix[gvk][index][key] else []
  }

  function Store(ix: Indices, gvk: GVK, index: string, key: string, entries: seq<Entry>): Indices
    requires gvk in ix && index in ix[gvk]
  {
    ix[gvk := ix[gvk][index := ix[gvk][index][key := entries]]]
  }

  function HooksAt(hooks: Hooks, gvk: GVK, index: string): seq<Hook> {
    if gvk in hooks && index in hooks[gvk] then hooks[gvk][index] else []
  }

  /** What one registered closure does when it is told about a key. */
  function HookRequests(hook: Hook, name: string, key: string): seq<Wake> {
    if name == "" then []
    else
      var splitted := Split(key, '/');
      var path := Join(splitted[1..], '/');
      if hook.rewrittenPath == "" || path == hook.rewrittenPath then
        [Wake(hook.queue, NamespacedName(hook.targetNamespace, splitted[0]))]
      else []
  }

  /** What the registered closures do, in the order of their registration. */
  function AllRequests(hooks: seq<Hook>, name: string, key: string): seq<Wake> {
    if hooks == [] then []
    else AllRequests(hooks[..|hooks| - 1], name, key) + HookRequests(hooks[|hooks| - 1], name, key)
  }

  lemma {:induction false} AllRequestsHave(hooks: seq<Hook>, name: string, key: string, w: Wake)
    ensures w in AllRequests(hooks, name, key) <==> exists hook :: hook in hooks && w in HookRequests(hook, name, key)
  {
    if hooks != [] {
      var init, last := hooks[..|hooks| - 1], hooks[|hooks| - 1];
      AllRequestsHave(init, name, key, w);
      assert hooks == init + [last];
    }
  }

  /** Every hook on an index was told about a key of that index. */
  ghost predicate Announced(hooks: Hooks, gvk: GVK, index: string, name: string, key: string, woken: seq<Wake>) {
    forall hook, w :: hook in HooksAt(hooks, gvk, index) && w in HookRequests(hook, name, key) ==> w in woken
  }

  /** Every hook was told about every key of a mapping. */
  ghost predicate AllAnnounced(hooks: Hooks, gvk: GVK, name: string, m: Mappings, woken: seq<Wake>) {
    forall i, k :: Has(m, i, k) ==> Announced(hooks, gvk, i, name, k, woken)
  }

  /** The table and the lists of one kind say what the abstract sequence says. */
  ghost predicate Represents(objects: Objects, ix: Indices, gvk: GVK, log: Log) {
    && TableIs(objects, gvk, log)
    && (forall i, k :: Look(ix, gvk, i, k) == Project(log, i, k))
  }

  ghost predicate TableIs(objects: Objects, gvk: GVK, log: Log) {
    && (forall name :: gvk in objects && name in objects[gvk] ==>
         objects[gvk][name] in log && objects[gvk][name].name == name)
    && (forall o :: o in log ==> gvk in objects && o.name in objects[gvk] && objects[gvk][o.name] == o)
  }

  ghost predicate Processed(m: Mappings, done: set<string>, index: string, doneKeys: set<string>, i: string, k: string)
    {
    Has(m, i, k) && (i in done || (i == index && k in doneKeys))
  }

  /** Part-way through a removal: processed keys have lost the object's entries, all else is as before. */
  ghost predicate Removing(ix: Indices, ix0: Indices, gvk: GVK, name: string, m: Mappings, done: set<string>,
                           index: string, doneKeys: set<string>)
  {
    forall g, i, k :: Look(ix, g, i, k) ==
      if g == gvk && Processed(m, done, index, doneKeys, i, k) then WithoutName(Look(ix0, g, i, k), name)
      else Look(ix0, g, i, k)
  }

  ghost predicate Adding(ix: Indices, ix0: Indices, gvk: GVK, o: IndexMappings, done: set<string>, index: string,
                         doneKeys: set<string>)
  {
    forall g, i, k :: Look(ix, g, i, k) ==
      if g == gvk && Processed(o.mappings, done, index, doneKeys, i, k)
      then Look(ix0, g, i, k) + [Entry(o.name, o.mappings[i][k])]
      else Look(ix0, g, i, k)
  }

  ghost predicate Announcing(hooks: Hooks, gvk: GVK, name: string, m: Mappings, done: set<string>, index: string,
                             doneKeys: set<string>, woken: seq<Wake>)
  {
    forall i, k :: Processed(m, done, index, doneKeys, i, k) ==> Announced(hooks, gvk, i, name, k, woken)
  }

  lemma {:induction false} RemovingStep(ix: Indices, before: Indices, ix0: Indices, gvk: GVK, name: string, m: Mappings,
                                        done: set<string>, index: string, doneKeys: set<string>, key: string)
    requires Removing(before, ix0, gvk, name, m, done, index, doneKeys)
    requires Has(m, index, key) && index !in done && key !in doneKeys
    requires gvk in before && index in before[gvk]
    requires ix == Store(before, gvk, index, key, WithoutName(Look(before, gvk, index, key), name))
    ensures Removing(ix, ix0, gvk, name, m, done, index, doneKeys + {key})
  {
  }

  lemma {:induction false} AddingStep(ix: Indices, before: Indices, ix0: Indices, gvk: GVK, o: IndexMappings,
                                      done: set<string>, index: string, doneKeys: set<string>, key: string)
    requires Adding(before, ix0, gvk, o, done, index, doneKeys)
    requires Has(o.mappings, index, key) && index !in done && key !in doneKeys
    requires gvk in before && index in before[gvk]
    requires ix == Store(before, gvk, index, key,
        Look(before, gvk, index, key) + [Entry(o.name, o.mappings[index][key])])
    ensures Adding(ix, ix0, gvk, o, done, index, doneKeys + {key})
  {
  }

  /** What has been announced stays announced. */
  lemma {:induction false} AnnouncedGrows(hooks: Hooks, gvk: GVK, name: string, index: string, keys: set<string>,
                                          key: string, fired: seq<Wake>, more: seq<Wake>)
    requires forall k :: k in keys ==> Announced(hooks, gvk, index, name, k, fired)
    requires Announced(hooks, gvk, index, name, key, more)
    ensures forall k :: k in keys + {key} ==> Announced(hooks, gvk, index, name, k, fired + more)
  {
  }

  /** Announcing every key of one more index extends what has been announced. */
  lemma {:induction false} AnnouncingIndex(hooks: Hooks, gvk: GVK, name: string, m: Mappings, done: set<string>,
                                           index: string, fired: seq<Wake>, more: seq<Wake>)
    requires index in m
    requires Announcing(hooks, gvk, name, m, done, "", {}, fired)
    requires forall k :: k in m[index] ==> Announced(hooks, gvk, index, name, k, more)
    ensures Announcing(hooks, gvk, name, m, done + {index}, "", {}, fired + more)
  {
    forall i, k | Processed(m, done + {index}, "", {}, i, k)
      ensures Announced(hooks, gvk, i, name, k, fired + more)
    {
      if i != index {
        assert Processed(m, done, "", {}, i, k);
      }
    }
  }

  lemma {:induction false} AnnouncingEnds(hooks: Hooks, gvk: GVK, name: string, m: Mappings, done: set<string>,
                                          fired: seq<Wake>)
    ensures done == {} ==> Announcing(hooks, gvk, name, m, done, "", {}, fired)
    ensures Announcing(hooks, gvk, name, m, m.Keys, "", {}, fired) ==> AllAnnounced(hooks, gvk, name, m, fired)
  {
    if Announcing(hooks, gvk, name, m, m.Keys, "", {}, fired) {
      forall i, k | Has(m, i, k)
        ensures Announced(hooks, gvk, i, name, k, fired)
      {
        assert Processed(m, m.Keys, "", {}, i, k);
      }
    }
  }

  /** Deleting a key just before storing under it makes no difference. */
  lemma {:induction false} StoreAfterDelete(ix: Indices, gvk: GVK, index: string, key: string, entries: seq<Entry>)
    requires gvk in ix && index in ix[gvk]
    ensures var cut := ix[gvk := ix[gvk][index := ix[gvk][index] - {key}]];
      Store(cut, gvk, index, key, entries) == Store(ix, gvk, index, key, entries)
  {
    var cut := ix[gvk := ix[gvk][index := ix[gvk][index] - {key}]];
    assert (ix[gvk][index] - {key})[key := entries] == ix[gvk][index][key := entries];
    assert cut[gvk][index := ix[gvk][index][key := entries]] == ix[gvk][index := ix[gvk][index][key := entries]];
  }

  /** Finishing the keys of an index finishes the index. */
  lemma {:induction false} RemovingIndexDone(ix: Indices, ix0: Indices, gvk: GVK, name: string, m: Mappings,
                                             done: set<string>, index: string)
    requires index in m && Removing(ix, ix0, gvk, name, m, done, index, m[index].Keys)
    ensures Removing(ix, ix0, gvk, name, m, done + {index}, "", {})
  {
  }

  lemma {:induction false} AddingIndexDone(ix: Indices, ix0: Indices, gvk: GVK, o: IndexMappings, done: set<string>,
                                           index: string)
    requires index in o.mappings && Adding(ix, ix0, gvk, o, done, index, o.mappings[index].Keys)
    ensures Adding(ix, ix0, gvk, o, done + {index}, "", {})
  {
  }

  lemma {:induction false} RemovingStart(ix: Indices, ix0: Indices, gvk: GVK, name: string, m: Mappings,
                                         done: set<string>, index: string)
    requires (ix == ix0 && done == {}) || Removing(ix, ix0, gvk, name, m, done, "", {})
    ensures Removing(ix, ix0, gvk, name, m, done, index, {})
  {
  }

  lemma {:induction false} AddingStart(ix: Indices, before: Indices, ix0: Indices, gvk: GVK, o: IndexMappings,
                                       done: set<string>, index: string)
    requires (before == ix0 && done == {}) || Adding(before, ix0, gvk, o, done, "", {})
    requires ix == before || (gvk !in before && ix == before[gvk := map[]])
      || (gvk in before && index !in before[gvk] && ix == before[gvk := before[gvk][index := map[]]])
    ensures Adding(ix, ix0, gvk, o, done, index, {})
  {
  }

  /** An unprocessed key of the object is still listed, so the guards that skip it never fire. */
  lemma {:induction false} StillListed(ix: Indices, ix0: Indices, gvk: GVK, log: Log, o: IndexMappings,
                                       done: set<string>, index: string, doneKeys: set<string>, key: string)
    requires forall i, k :: Look(ix0, gvk, i, k) == Project(log, i, k)
    requires Removing(ix, ix0, gvk, o.name, o.mappings, done, index, doneKeys)
    requires o in log && Has(o.mappings, index, key) && index !in done && key !in doneKeys
    ensures gvk in ix && index in ix[gvk] && key in ix[gvk][index] && ix[gvk][index][key] != []
  {
    OwnEntries(log, o, index, key);
    assert Look(ix, gvk, index, key) == Look(ix0, gvk, index, key);
  }

  lemma {:induction false} WithoutNameAbsent(entries: seq<Entry>, name: string)
    requires forall e :: e in entries ==> e.name != name
    ensures WithoutName(entries, name) == entries
  {
    if entries != [] {
      assert entries == entries[..|entries| - 1] + [entries[|entries| - 1]];
      WithoutNameAbsent(entries[..|entries| - 1], name);
    }
  }

  /** An object has no entries under keys it does not map. */
  lemma {:induction false} NoForeignEntries(log: Log, o: IndexMappings, index: string, key: string)
    requires Distinct(log) && o in log && !Has(o.mappings, index, key)
    ensures WithoutName(Project(log, index, key), o.name) == Project(log, index, key)
  {
    var entries := Project(log, index, key);
    forall e | e in entries
      ensures e.name != o.name
    {
      var i :| 0 <= i < |entries| && entries[i] == e;
      var k := ProjectSource(log, index, key, i);
      assert log[k] in log && Has(log[k].mappings, index, key);
      var j :| 0 <= j < |log| && log[j] == o;
      assert k != j;
    }
    WithoutNameAbsent(entries, o.name);
  }

  /** Under its own keys an object does have an entry. */
  lemma {:induction false} OwnEntries(log: Log, o: IndexMappings, index: string, key: string)
    requires o in log && Has(o.mappings, index, key)
    ensures Project(log, index, key) != []
  {
    ProjectEmpty(log, index, key);
  }

  class NameCache {
    var indices: Indices
    var objects: Objects
    var hooks: Hooks
    /** Requests the hooks have put on the work queues. */
    var woken: seq<Wake>
    /** Every call that may have changed the content. */
    ghost var history: seq<Op>

    ghost predicate Valid()
      reads this
    {
      forall gvk {:trigger Replay(history, gvk)} :: Represents(objects, indices, gvk, Replay(history, gvk))
    }

    constructor ()
      ensures Valid() && history == [] && hooks == map[] && woken == []
    {
      indices, objects, hooks := map[], map[], map[];
      woken, history := [], [];
    }

    method GetByIndex(gvk: GVK, index: string, key: string) returns (entries: seq<Entry>)
      requires Valid()
      ensures entries == Project(Replay(history, gvk), index, key)
    {
      assert Represents(objects, indices, gvk, Replay(history, gvk));
      if gvk !in indices {
        return [];
      }
      var indicesMap := indices[gvk];
      if index !in indicesMap {
        return [];
      }
      var keysMap := indicesMap[index];
      entries := if key in keysMap then keysMap[key] else [];
    }

    method GetFirstByIndex(gvk: GVK, index: string, key: string) returns (value: string)
      requires Valid()
      ensures value == FirstValue(Project(Replay(history, gvk), index, key))
    {
      var found := GetByIndex(gvk, index, key);
      if |found| == 0 {
        return "";
      }
      return found[0].value;
    }

    method ResolveName(gvk: GVK, hostName: string) returns (n: NamespacedName)
      requires Valid()
      ensures n == Resolve(Replay(history, gvk), INDEX_NAME, hostName)
    {
      var value := GetFirstByIndex(gvk, INDEX_NAME, hostName);
      if value == "" {
        return NO_NAME;
      }
      return StringToNamespacedName(value);
    }

    method ResolveNamePath(gvk: GVK, hostName: string, fieldPath: string) returns (n: NamespacedName)
      requires Valid()
      ensures n == Resolve(Replay(history, gvk), INDEX_NAME_PATH, PathKey(hostName, fieldPath))
    {
      var value := GetFirstByIndex(gvk, INDEX_NAME_PATH, hostName + "/" + fieldPath);
      if value == "" {
        return NO_NAME;
      }
      return StringToNamespacedName(value);
    }

    method RemoveMapping(gvk: GVK, name: string) returns (ghost fired: seq<Wake>)
      requires Valid()
      modifies this
      ensures Valid() && hooks == old(hooks)
      ensures history == old(history) + [Remove(gvk, name)]
      ensures woken == old(woken) + fired
      ensures forall o :: o in Replay(old(history), gvk) && o.name == name ==>
                AllAnnounced(hooks, gvk, name, o.mappings, fired)
    {
      ghost var log := Replay(history, gvk);
      ReplayDistinct(history, gvk);
      fired := TakeOutMapping(gvk, name, log);
      history := history + [Remove(gvk, name)];
      ValidAgain(old(objects), old(indices), old(history), objects, indices, gvk, Remove(gvk, name));
    }

    /** The unlocked removal; it leaves empty lists behind, which read as absent keys. */
    method TakeOutMapping(gvk: GVK, name: string, ghost log: Log) returns (ghost fired: seq<Wake>)
      requires Represents(objects, indices, gvk, log) && Distinct(log)
      modifies `indices, `objects, `woken
      ensures Represents(objects, indices, gvk, Without(log, name))
      ensures forall g, i, k :: g != gvk ==> Look(indices, g, i, k) == Look(old(indices), g, i, k)
      ensures objects.Keys == old(objects).Keys && forall g :: g in objects && g != gvk ==>
          objects[g] == old(objects)[g]
      ensures woken == old(woken) + fired
      ensures forall o :: o in log && o.name == name ==> AllAnnounced(hooks, gvk, name, o.mappings, fired)
    {
      hide Announced, Removing, Announcing;
      fired := [];
      if gvk !in objects || name !in objects[gvk] {
        NothingToRemove(log, name);
        return;
      }
      var o := objects[gvk][name];
      ghost var objects0, ix0 := objects, indices;

      objects := objects[gvk := objects[gvk] - {name}];

      var todo := o.mappings.Keys;
      ghost var done: set<string> := {};
      RemovingStart(indices, ix0, gvk, name, o.mappings, done, "");
      AnnouncingEnds(hooks, gvk, name, o.mappings, done, fired);
      while todo != {}
        invariant todo <= o.mappings.Keys && done == o.mappings.Keys - todo
        invariant objects == objects0[gvk := objects0[gvk] - {name}]
        invariant Removing(indices, ix0, gvk, name, o.mappings, done, "", {})
        invariant woken == old(woken) + fired
        invariant Announcing(hooks, gvk, name, o.mappings, done, "", {}, fired)
        decreases todo
      {
        var index :| index in todo;
        todo := todo - {index};
        ghost var more := RemoveKeys(gvk, name, index, o, log, ix0, done);
        AnnouncingIndex(hooks, gvk, name, o.mappings, done, index, fired, more);
        fired := fired + more;
        done := done + {index};
      }
      assert done == o.mappings.Keys;
      AnnouncingEnds(hooks, gvk, name, o.mappings, done, fired);
      RemovalComplete(objects, indices, objects0, ix0, gvk, o, log, done);
    }

    /** The inner loop of the removal: one index of the removed object, keys in any order. */
    method RemoveKeys(gvk: GVK, name: string, index: string, o: IndexMappings, ghost log: Log, ghost ix0: Indices,
                      ghost done: set<string>)
      returns (ghost fired: seq<Wake>)
      requires o in log && o.name == name && index in o.mappings && index !in done
      requires forall i, k :: Look(ix0, gvk, i, k) == Project(log, i, k)
      requires Removing(indices, ix0, gvk, name, o.mappings, done, "", {})
      modifies `indices, `woken
      ensures Removing(indices, ix0, gvk, name, o.mappings, done + {index}, "", {})
      ensures woken == old(woken) + fired
      ensures forall k :: k in o.mappings[index] ==> Announced(hooks, gvk, index, name, k, fired)
    {
      hide Announced, Removing, Has, AllRequests, HooksAt;
      fired := [];
      var mappingKeyValues := o.mappings[index];
      var keys := mappingKeyValues.Keys;
      ghost var doneKeys: set<string> := {};
      RemovingStart(indices, ix0, gvk, name, o.mappings, done, index);
      while keys != {}
        invariant keys <= mappingKeyValues.Keys && doneKeys == mappingKeyValues.Keys - keys
        invariant Removing(indices, ix0, gvk, name, o.mappings, done, index, doneKeys)
        invariant woken == old(woken) + fired
        invariant forall k :: k in doneKeys ==> Announced(hooks, gvk, index, name, k, fired)
        decreases keys
      {
        var mappingKey :| mappingKey in keys;
        keys := keys - {mappingKey};

        // the three guards of the source that skip a missing index, a missing key or an empty list are dead
        StillListed(indices, ix0, gvk, log, o, done, index, doneKeys, mappingKey);
        var objectMappings := indices[gvk][index][mappingKey];
        ghost var before := indices;
        if |objectMappings| == 1 {
          indices := indices[gvk := indices[gvk][index := indices[gvk][index] - {mappingKey}]];
        }
        var otherMappings := FilterOut(objectMappings, name);
        indices := Store(indices, gvk, index, mappingKey, otherMappings);
        StoreAfterDelete(before, gvk, index, mappingKey, otherMappings);
        RemovingStep(indices, before, ix0, gvk, name, o.mappings, done, index, doneKeys, mappingKey);

        ghost var more := ExecuteHooks(gvk, index, name, mappingKey);
        AnnouncedGrows(hooks, gvk, name, index, doneKeys, mappingKey, fired, more);
        fired := fired + more;
        doneKeys := doneKeys + {mappingKey};
      }
      assert doneKeys == o.mappings[index].Keys;
      RemovingIndexDone(indices, ix0, gvk, name, o.mappings, done, index);
    }

    method ExchangeMapping(gvk: GVK, om: IndexMappings) returns (ghost fired: seq<Wake>)
      requires Valid()
      modifies this
      ensures Valid() && hooks == old(hooks)
      ensures history == old(history) + [Exchange(gvk, om)]
      ensures woken == old(woken) + fired
      ensures om !in Replay(old(history), gvk) ==>
                && AllAnnounced(hooks, gvk, om.name, om.mappings, fired)
                && forall o :: o in Replay(old(history), gvk) && o.name == om.name ==>
                     AllAnnounced(hooks, gvk, om.name, o.mappings, fired)
    {
      hide AllAnnounced, Represents, Adding, Look, Replay, Without, Project;
      fired := [];
      ghost var log := Replay(history, gvk);
      ReplayDistinct(history, gvk);
      if gvk !in objects {
        objects := objects[gvk := map[]];
      }
      EmptyKind(objects, old(objects), indices, gvk, log);
      var present := om.name in objects[gvk];
      if present && om == objects[gvk][om.name] {
        TableLookup(objects, indices, gvk, log, om);
        history := history + [Exchange(gvk, om)];
        ValidAgain(old(objects), old(indices), old(history), objects, indices, gvk, Exchange(gvk, om));
        return;
      } else if present {
        TableLookup(objects, indices, gvk, log, om);
        fired := TakeOutMapping(gvk, om.name, log);
      } else {
        TableLookup(objects, indices, gvk, log, om);
        NothingToRemove(log, om.name);
      }
      ghost var without := Without(log, om.name);

      ghost var objects1, ix1 := objects, indices;
      if |om.mappings| > 0 {
        objects := objects[gvk := objects[gvk][om.name := om]];
      }
      ghost var more := AddMappings(gvk, om);
      AllAnnouncedGrows(hooks, gvk, om.name, fired, more);
      fired := fired + more;
      history := history + [Exchange(gvk, om)];
      WithoutMembers(log, om.name);
      AdditionComplete(objects, indices, objects1, ix1, gvk, om, without);
      ValidAgain(old(objects), old(indices), old(history), objects, indices, gvk, Exchange(gvk, om));
    }

    /** The loops that add the index values of an object, in any order. */
    method AddMappings(gvk: GVK, om: IndexMappings) returns (ghost fired: seq<Wake>)
      modifies `indices, `woken
      ensures Adding(indices, old(indices), gvk, om, om.mappings.Keys, "", {})
      ensures woken == old(woken) + fired && AllAnnounced(hooks, gvk, om.name, om.mappings, fired)
    {
      hide Announced, Adding, Announcing;
      fired := [];
      ghost var ix0 := indices;
      if gvk !in indices {
        indices := indices[gvk := map[]];
      }
      var todo := om.mappings.Keys;
      ghost var done: set<string> := {};
      AddingStart(indices, ix0, ix0, gvk, om, done, "");
      AnnouncingEnds(hooks, gvk, om.name, om.mappings, done, fired);
      while todo != {}
        invariant todo <= om.mappings.Keys && done == om.mappings.Keys - todo
        invariant gvk in indices
        invariant Adding(indices, ix0, gvk, om, done, "", {})
        invariant woken == old(woken) + fired
        invariant Announcing(hooks, gvk, om.name, om.mappings, done, "", {}, fired)
        decreases todo
      {
        var index :| index in todo;
        todo := todo - {index};
        var mappingKeyValues := om.mappings[index];
        if |mappingKeyValues| == 0 {
          AddingStart(indices, indices, ix0, gvk, om, done, index);
          AddingIndexDone(indices, ix0, gvk, om, done, index);
          AnnouncingIndex(hooks, gvk, om.name, om.mappings, done, index, fired, []);
          assert fired + [] == fired;
          done := done + {index};
          continue;
        }
        ghost var more := AddKeys(gvk, index, om, ix0, done);
        AnnouncingIndex(hooks, gvk, om.name, om.mappings, done, index, fired, more);
        fired := fired + more;
        done := done + {index};
      }
      assert done == om.mappings.Keys;
      AnnouncingEnds(hooks, gvk, om.name, om.mappings, done, fired);
    }

    method AddKeys(gvk: GVK, index: string, om: IndexMappings, ghost ix0: Indices, ghost done: set<string>)
      returns (ghost fired: seq<Wake>)
      requires index in om.mappings && index !in done && gvk in indices
      requires Adding(indices, ix0, gvk, om, done, "", {})
      modifies `indices, `woken
      ensures gvk in indices && Adding(indices, ix0, gvk, om, done + {index}, "", {})
      ensures woken == old(woken) + fired
      ensures forall k :: k in om.mappings[index] ==> Announced(hooks, gvk, index, om.name, k, fired)
    {
      hide Announced, Adding, Has, AllRequests, HooksAt;
      fired := [];
      ghost var ix1 := indices;
      if index !in indices[gvk] {
        indices := indices[gvk := indices[gvk][index := map[]]];
      }
      var mappingKeyValues := om.mappings[index];
      var keys := mappingKeyValues.Keys;
      ghost var doneKeys: set<string> := {};
      AddingStart(indices, ix1, ix0, gvk, om, done, index);
      while keys != {}
        invariant keys <= mappingKeyValues.Keys && doneKeys == mappingKeyValues.Keys - keys
        invariant gvk in indices && index in indices[gvk]
        invariant Adding(indices, ix0, gvk, om, done, index, doneKeys)
        invariant woken == old(woken) + fired
        invariant forall k :: k in doneKeys ==> Announced(hooks, gvk, index, om.name, k, fired)
        decreases keys
      {
        var key :| key in keys;
        keys := keys - {key};
        var values := if key in indices[gvk][index] then indices[gvk][index][key] else [];
        values := values + [Entry(om.name, mappingKeyValues[key])];
        ghost var before := indices;
        indices := Store(indices, gvk, index, key, values);
        AddingStep(indices, before, ix0, gvk, om, done, index, doneKeys, key);

        ghost var more := ExecuteHooks(gvk, index, om.name, key);
        AnnouncedGrows(hooks, gvk, om.name, index, doneKeys, key, fired, more);
        fired := fired + more;
        doneKeys := doneKeys + {key};
      }
      assert doneKeys == om.mappings[index].Keys;
      AddingIndexDone(indices, ix0, gvk, om, done, index);
    }

    method ExecuteHooks(gvk: GVK, index: string, name: string, key: string) returns (ghost fired: seq<Wake>)
      modifies `woken
      ensures woken == old(woken) + fired
      ensures fired == AllRequests(HooksAt(hooks, gvk, index), name, key)
      ensures Announced(hooks, gvk, index, name, key, fired)
    {
      fired := [];
      forall hook, w | hook in HooksAt(hooks, gvk, index) && w in HookRequests(hook, name, key)
        ensures w in AllRequests(HooksAt(hooks, gvk, index), name, key)
      {
        AllRequestsHave(HooksAt(hooks, gvk, index), name, key, w);
      }
      if gvk !in hooks {
        return;
      }
      var gvkHooks := hooks[gvk];
      if index !in gvkHooks {
        return;
      }
      var registered := gvkHooks[index];
      for h := 0 to |registered|
        invariant woken == old(woken) + fired
        invariant fired == AllRequests(registered[..h], name, key)
      {
        assert registered[..h + 1][..h] == registered[..h];
        woken := woken + HookRequests(registered[h], name, key);
        fired := fired + HookRequests(registered[h], name, key);
      }
      assert registered[..|registered|] == registered;
    }

    method AddChangeHook(gvk: GVK, index: string, hook: Hook)
      requires Valid()
      modifies `hooks
      ensures Valid()
      ensures forall g, i :: HooksAt(hooks, g, i) ==
                HooksAt(old(hooks), g, i) + if g == gvk && i == index then [hook] else []
    {
      if gvk !in hooks {
        hooks := hooks[gvk := map[]];
      }
      if index !in hooks[gvk] {
        hooks := hooks[gvk := hooks[gvk][index := []]];
      }
      hooks := hooks[gvk := hooks[gvk][index := hooks[gvk][index] + [hook]]];
    }
  }

  /** The loop that collects the entries of all other objects. */
  method FilterOut(entries: seq<Entry>, name: string) returns (others: seq<Entry>)
    ensures others == WithoutName(entries, name)
  {
    others := [];
    for i := 0 to |entries|
      invariant others == WithoutName(entries[..i], name)
    {
      assert entries[..i + 1][..i] == entries[..i];
      if entries[i].name == name {
        continue;
      }
      others := others + [entries[i]];
    }
    assert entries[..|entries|] == entries;
  }

  lemma {:induction false} NothingToRemove(log: Log, name: string)
    requires forall o :: o in log ==> o.name != name
    ensures Without(log, name) == log
  {
    if log != [] {
      assert log == log[..|log| - 1] + [log[|log| - 1]];
      NothingToRemove(log[..|log| - 1], name);
    }
  }

  lemma {:induction false} EmptyKind(objects: Objects, objects0: Objects, ix: Indices, gvk: GVK, log: Log)
    requires Represents(objects0, ix, gvk, log)
    requires objects == objects0 || (gvk !in objects0 && objects == objects0[gvk := map[]])
    ensures Represents(objects, ix, gvk, log)
  {
  }

  /** The table answers whether an object is in the sequence. */
  lemma {:induction false} TableLookup(objects: Objects, ix: Indices, gvk: GVK, log: Log, om: IndexMappings)
    requires gvk in objects && Represents(objects, ix, gvk, log)
    ensures om in log <==> om.name in objects[gvk] && om == objects[gvk][om.name]
    ensures om.name !in objects[gvk] <==> forall o :: o in log ==> o.name != om.name
  {
  }

  lemma {:induction false} AllAnnouncedGrows(hooks: Hooks, gvk: GVK, name: string, fired: seq<Wake>, more: seq<Wake>)
    ensures forall m :: (AllAnnounced(hooks, gvk, name, m, fired) || AllAnnounced(hooks, gvk, name, m, more)) ==>
              AllAnnounced(hooks, gvk, name, m, fired + more)
  {
  }

  /** A call that brings its own kind up to date and leaves the other kinds alone keeps the cache valid. */
  lemma {:induction false} ValidAgain(objects0: Objects, ix0: Indices, history: seq<Op>, objects: Objects, ix: Indices,
                                      gvk: GVK, op: Op)
    requires op.gvk == gvk
    requires forall g {:trigger Replay(history, g)} :: Represents(objects0, ix0, g, Replay(history, g))
    requires Represents(objects, ix, gvk, ApplyOp(Replay(history, gvk), op, gvk))
    requires forall g, i, k :: g != gvk ==> Look(ix, g, i, k) == Look(ix0, g, i, k)
    requires forall g :: g != gvk ==> (g in objects <==> g in objects0) && (g in objects ==> objects[g] == objects0[g])
    ensures forall g {:trigger Replay(history + [op], g)} :: Represents(objects, ix, g, Replay(history + [op], g))
  {
    assert (history + [op])[..|history|] == history;
    forall g
      ensures Represents(objects, ix, g, Replay(history + [op], g))
    {
      assert Represents(objects0, ix0, g, Replay(history, g));
    }
  }

  lemma {:induction false} RemovalComplete(objects: Objects, ix: Indices, objects0: Objects, ix0: Indices, gvk: GVK,
                                           o: IndexMappings, log: Log, done: set<string>)
    requires Represents(objects0, ix0, gvk, log) && Distinct(log)
    requires gvk in objects0 && o.name in objects0[gvk] && objects0[gvk][o.name] == o
    requires objects == objects0[gvk := objects0[gvk] - {o.name}]
    requires done == o.mappings.Keys && Removing(ix, ix0, gvk, o.name, o.mappings, done, "", {})
    ensures Represents(objects, ix, gvk, Without(log, o.name))
    ensures forall g, i, k :: g != gvk ==> Look(ix, g, i, k) == Look(ix0, g, i, k)
  {
    WithoutMembers(log, o.name);
    forall i, k
      ensures Look(ix, gvk, i, k) == Project(Without(log, o.name), i, k)
    {
      ProjectWithout(log, o.name, i, k);
      if !Has(o.mappings, i, k) {
        NoForeignEntries(log, o, i, k);
      }
    }
  }

  lemma {:induction false} AddedTable(objects: Objects, objects0: Objects, gvk: GVK, o: IndexMappings, log: Log)
    requires TableIs(objects0, gvk, log) && gvk in objects0 && forall m :: m in log ==> m.name != o.name
    requires objects == if |o.mappings| > 0 then objects0[gvk := objects0[gvk][o.name := o]] else objects0
    ensures TableIs(objects, gvk, log + if o.mappings == map[] then [] else [o])
  {
  }

  lemma {:induction false} AddedList(ix: Indices, ix0: Indices, gvk: GVK, o: IndexMappings, log: Log, i: string,
                                     k: string)
    requires Look(ix0, gvk, i, k) == Project(log, i, k) && Adding(ix, ix0, gvk, o, o.mappings.Keys, "", {})
    ensures Look(ix, gvk, i, k) == Project(log + if o.mappings == map[] then [] else [o], i, k)
  {
    if o.mappings == map[] {
      assert log + [] == log;
    } else {
      ProjectAppend(log, o, i, k);
    }
  }

  lemma {:induction false} AdditionComplete(objects: Objects, ix: Indices, objects0: Objects, ix0: Indices, gvk: GVK,
                                            o: IndexMappings, log: Log)
    requires Represents(objects0, ix0, gvk, log)
    requires gvk in objects0 && forall m :: m in log ==> m.name != o.name
    requires objects == if |o.mappings| > 0 then objects0[gvk := objects0[gvk][o.name := o]] else objects0
    requires Adding(ix, ix0, gvk, o, o.mappings.Keys, "", {})
    ensures Represents(objects, ix, gvk, log + if o.mappings == map[] then [] else [o])
    ensures forall g, i, k :: g != gvk ==> Look(ix, g, i, k) == Look(ix0, g, i, k)
  {
    AddedTable(objects, objects0, gvk, o, log);
    var r := log + if o.mappings == map[] then [] else [o];
    forall g, i, k | g != gvk
      ensures Look(ix, g, i, k) == Look(ix0, g, i, k)
    {
    }
    hide TableIs, Look, Project, Adding;
    forall i, k
      ensures Look(ix, gvk, i, k) == Project(r, i, k)
    {
      AddedList(ix, ix0, gvk, o, log, i, k);
    }
  }
}
