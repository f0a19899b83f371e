# Verification of the generic CRD plugin's core

The plugin keeps custom resources of a virtual cluster and their host cluster counterparts in step. This project
models its hard parts in Dafny 4.11 and proves what they are for:

- **The host-to-virtual name cache and the back syncer that rests on it.** `NameCaches.NameCache` is the cache with
  its object table, its derived multi-index and its change hooks, edited in place in the loops of the source. Its
  specification is a history of exchanges and removals (`CacheLog`), and the index is proved to be the projection of
  one sequence of live objects ordered by their last effective exchange. The handlers that feed the cache are
  `MappingSource` and `Lookup`. The back syncer is given twice: as a state machine whose steps are single API calls,
  interleaved with event handlers, cache changes and the rest of the world (`BackSync`), and as a class whose methods
  follow the source (`BackSyncControllers.BackSyncController`), every API call of which is proved to be one step of
  the machine, so that the theorems about all runs hold of the class. The class resolves names in the cache itself,
  which its handler feeds, and remembers translations with the memorizing resolver. `Translations` and
  `BackSyncAnswers` say what names and remembered names translate to, and `BackSyncEffects` what the steps of a
  reconcile write and what they leave as it is.
- **The patch engine on YAML nodes.** `Nodes.Node` is a mutable node; `Patches`, `Rewriting`, `ItemRewrites`,
  `RewriteNames`, `PathCreation`, `Stripping` and `PatchRuns` hold the operations, which search parents by node
  identity and write content lists in place. `Trees`, `TreeLaws` and `CreatePaths` say what they mean on documents
  as values; `Graph`, `Holders`, `Replacing`, `Removing`, `Removals` and `Editing` prove that single edits of a node
  graph add up to those meanings, without touching anything else. `DeletionLaws`, `FieldLaws` and `RunLaws` say what
  the patches make of the fields they find and that they leave the others alone.
- **Values that a replacement has put in several places.** `Replace` hangs one value node under every match, and the
  later operations find holders by node identity, so they can take another place than the one the path leads to.
  `Scans`, `Marking` and `Striking` say which positions a removal takes, `StruckTrees` when that is the deletion and
  when the path leads nowhere afterwards, `Placing` and `PlacedTrees` the same of a replacement. `Layouts` describes
  documents in which only known values are held in several places, `SteadyPaths`, `SteadyEdits` and `EditedLayouts`
  prove that the patches keep them so, and `PatchRuns` puts whole runs together.
- **Strings.** `Regex` has the running-offset replacement, the regular expression groups and the placeholder
  expansion; `OpPath` has the splitting of paths from the right.
- **Exact conditions.** Where the source does not always do what it is for, there is an input that shows it and a
  theorem that says exactly when it does: `RoundTrips` and `Limits` for names and foreign objects, `DeletionLimits` for
  deletions, `SharedRemoving`, `SharedDocuments`, `StruckTrees` and `PlacedTrees` for removals and replacements in
  documents with shared nodes, `Refills` for paths with positions, `ReversePatches` for reconciles that never come to
  rest, and `PatchLimits` and `SharedLimits` for the inputs.

## How to read it

- `Graph.Heap` is the node graph at one moment, `Graph.Repr(g, n, t)` says that node n stands for tree t, and
  `Nodes.Doc(ns, n, t)` says it of the nodes as they are now, with ns as exactly the nodes involved. `TreeShaped`
  means that no node is met twice, `Lone` that none of the places a path leads to is met twice. `Even` means that
  every node has one depth and keys are only keys, which one replacement leaves so (`SharedDocuments.ReplacedEven`).
- `Marking.Marks` lists all positions as deep as the places of a path, in document order, each with its node and
  whether it is chosen, that is, led to and meeting the condition. `Foremost` means that of the positions of one node
  the chosen ones come first, `Singly` that no other position goes in the same edit as a chosen one: one position of a
  mapping that is met once, or all positions of one sequence that hold the node.
- `Layouts.LaidDoc(g, n, t, rank, shared)` says that only nodes that stand for one of the trees in shared are held in
  several positions. A path is `Steady` if it does not pass through such a value, of the values that stand for the
  same shared tree takes the first ones, and takes none that its sequence holds twice.
- A compiled path is a sequence of `Move`s: keys, positions (also from the end) and wildcards, after the implicit
  step from a document to its content.
- `hide` statements only restrict what the prover may unfold. Every lemma carries `{:induction false}`: all
  inductions are written out.

## Findings

- Cached names collide (vendor/github.com/loft-sh/vcluster-sdk/translate/translate.go:33-40): joining name, namespace
  and suffix with the same separator makes different virtual objects share a host name
  (`Names.PhysicalNameCollides`). A live object's own name can then translate back to another object's name
  (`Limits.RoundTripCanFail`); every name comes back from every cache content exactly if no two of the names share a
  host name (`RoundTrips.RoundTripExactly`).
- A reconcile that creates an object resolves its name up to three times (pkg/syncer/back_syncer.go:200, 326-329 and
  358-361). If the cache switches between two names of one host name in between, a virtual object that is not the
  controller's is overwritten (`Limits.OwnershipCanFail`). Foreign objects are always spared exactly if no two cached
  names share a host name (`Limits.OwnershipExactly`).
- The controller's label is set before the patches run (pkg/syncer/back_syncer.go:379-386, pkg/syncer/generic.go:32-44),
  and patches may remove it, so a created object can lack it (`Limits.LabelCanBeLost`); it carries the label exactly if
  the patches leave it in place (`BackSyncOwnership.LabelExactly`).
- `syncUp` deletes without a precondition (pkg/syncer/back_syncer.go:317), so a host object recreated between read and
  deletion is deleted although it has no annotations (`DeletionLimits.StaleDeletion`). Without a foreign change in
  between, the object that goes is the one that was read and is bound to a virtual object that has existed
  (`BackSyncSafety.DeletedIsRead`); with one, it is bound exactly if its markers were left
  (`BackSyncSafety.DeletedIsBound`).
- If somebody removes a single marker at the wrong moment, an object can be bound to one name while the other is
  written, and be deleted later (pkg/syncer/back_syncer.go:312-354, `DeletionLimits.CollidingDeletion`). It takes two
  names that share a host name, and deletions are always safe exactly if the cache can learn no two such names
  (`DeletionLimits.DeletionSafeExactly`); it never happens while annotations are left whole
  (`BackSyncSafety.DeletionSafety`).
- `Replace` puts one value node at every match, and later operations look for the first holder of a node
  (pkg/patches/operation.go:16-28) and its first position (pkg/patches/operation.go:50-53, 71-74). In `{a: v, b: v}`
  made by one replacement, the removal of `$.b` takes `a`, so a reverse patch `$.b` leaks without any crash
  (`SharedLimits.OtherFieldGoes`, pkg/patches/patch.go:47-60), the replacement of `$.b` rewrites `a`
  (`SharedLimits.OtherFieldReplaced`), and the removal of `$.a.x` empties both places
  (`SharedLimits.BothPlacesEmptied`). `Striking.RemovalStrikes` says which positions go. What the removals leave is
  the deletion exactly if of each node the chosen positions come first and none goes together with another one: for
  the values themselves, if in mappings the chosen places are the first of their node and no sequence holds the node
  twice; inside a value that is held in several places, never, unless none of those places is chosen
  (`StruckTrees.RemovalIsDeletion`). `StruckTrees.LeadsNowhere` says when the path leads nowhere afterwards, and
  `PlacedTrees.ReplacementIsRewrite` when a replacement is the rewrite. Whole runs in which patches meet such values
  only where that holds leak nothing (`PatchRuns.ApplyPatches`).
- `Remove` uses the holder of a match unchecked (pkg/patches/patch_types.go:86-87) and crashes when none is left: for a
  path that meets a shared node more often than it is held (`PatchLimits.SharedRemovalCrashes`), and for a shared
  element of a list, of which the first removal takes every occurrence (`PatchLimits.SharedElementCrashes`).
  `SharedDocuments.RemovalFinishes` says exactly when it does not crash, which does not yet mean that the right places
  have gone.
- With positions in paths, a later removal can bring a field back under the path of an earlier one
  (pkg/patches/patch.go:47-60, `PatchLimits.PositionsLeak`). Which removals can do that to which paths is
  `Refills.RefillExactly`; removing a position leaves another element there exactly if the sequence is longer than the
  position needs (`Trees.PositionRefills`).
- `createPath` turns a numeric key of a missing mapping into an element of a sequence
  (pkg/patches/patch_types.go:464-468), where the path does not find it (`PatchLimits.NumberKeyLost`);
  `CreatePaths.PutGet` says exactly when it is found.
- The handler of deleted host objects checks `virtualName.String() != ""` (pkg/syncer/back_syncer.go:159), which always
  holds, because the string of an empty name is a slash; the lookup after it saves it. The check in `createPath` for
  the top of the path (pkg/patches/patch_types.go:460) never applies either, because the root of an object is always
  found.
- Reverse patches that are idempotent as a whole can still keep a reconcile busy for ever, because a changed status
  is written alone (pkg/syncer/generic.go:106-114, `ReversePatches.IdempotenceIsNotEnough`). Every reconcile comes to
  rest exactly under `ReversePatches.Settling`, which `ReversePatches.RestExactly` proves.

## Model

| member | source | states |
|---|---|---|
| CacheLog.ReplayMeaning | pkg/namecache/namecache.go:182-277 | after any history of exchanges and removals the abstract sequence holds exactly the live objects, each once, ordered by the last exchange that changed them |
| CacheLog.OldestSurvivor | pkg/namecache/namecache.go:148-155 | what a lookup returns first is the value of the live object that has the key and whose last effective exchange is the earliest; nothing is returned exactly when no live object has the key |
| NameCaches.NameCache.GetByIndex | pkg/namecache/namecache.go:131-146 | the list at an index and key is the projection of the sequence onto that key, absent keys and empty lists being alike |
| NameCaches.NameCache.GetFirstByIndex | pkg/namecache/namecache.go:148-155 | its first value, or the empty string |
| NameCaches.NameCache.ResolveName | pkg/namecache/namecache.go:157-164 | a host name resolves to the decoded first value of the name index |
| NameCaches.NameCache.ResolveNamePath | pkg/namecache/namecache.go:166-173 | the same for a host name and path in the path index |
| NameCaches.NameCache.RemoveMapping | pkg/namecache/namecache.go:175-180 | the history grows by the removal, the index keeps representing it, and every key of the removed object is announced to the hooks |
| NameCaches.NameCache.TakeOutMapping | pkg/namecache/namecache.go:182-230 | for any iteration order the index represents the sequence without the object, other kinds and objects are untouched, every key is announced |
| NameCaches.NameCache.ExchangeMapping | pkg/namecache/namecache.go:232-277 | the history grows by the exchange, the index keeps representing it, and unless the object was equal already every old and new key is announced |
| NameCaches.NameCache.AddMappings | pkg/namecache/namecache.go:253-276 | for any iteration order each key of the object gains exactly one entry at the end of its list, and is announced |
| NameCaches.NameCache.ExecuteHooks | pkg/namecache/namecache.go:279-293 | exactly the requests of the hooks registered for the kind and index are put on the queues, in the order of the hooks |
| NameCaches.NameCache.AddChangeHook | pkg/namecache/namecache.go:295-306 | the hook is added for its kind and index and no other hook changes |
| Names.DecodeEncode | pkg/namecache/namecache.go:121-129 | decoding an encoded namespaced name gives it back, for slash-free namespaces |
| Names.PathKeyInjective | pkg/namecache/namecache.go:166-173 | keys of the path index are equal only for equal slash-free host names and equal paths |
| Names.PhysicalNameCollides | vendor/github.com/loft-sh/vcluster-sdk/translate/translate.go:33-40 | two different virtual objects with the same host name, for every suffix |
| Names.PhysicalNameFits | vendor/github.com/loft-sh/vcluster-sdk/translate/translate.go:33-40 | host names have at most 63 characters, and are name, namespace and suffix joined whenever that fits |
| MappingSource.MappingsFromVirtualObject | pkg/namecache/from_virtual_handler.go:58-109 | it fails exactly if the path of a rewrite patch does not compile; otherwise both indices hold, for the own name, for every scalar match of a rewrite patch without regular expression and for every match of one whose name group took part, the host name of just that name, in the namespace of the match or of the object, and nothing else; of several names with one key the last one in the object is filed |
| MappingSource.CollectForward | pkg/namecache/from_virtual_handler.go:58-114 | every value of such a mapping is a virtual name whose translation is the host name it is filed under |
| MappingSource.ResolveNameForward | pkg/namecache/namecache.go:157-164 | in every cache state a host name that resolves gives a virtual name that maps forward to it |
| MappingSource.ResolveNamePathForward | pkg/namecache/namecache.go:166-173 | the same through the path index, which needs the split of the key at the first slash |
| Lookup.ResolveBySelectors | pkg/syncer/back_syncer.go:399-421 | the loop returns the answer of the first selector that has one, also if selectors before it know nothing, and no name exactly if none has one |
| Lookup.LeastSelectorAnswers | pkg/syncer/back_syncer.go:399-421 | whatever the selectors before it are, the least selector with an answer decides |
| Lookup.SelectorAsks | pkg/syncer/back_syncer.go:399-421 | a selector with a path asks the path index for host name and path, one with an empty path the name index, one without a name part nothing |
| Lookup.ResolveSelectorsForward | pkg/syncer/back_syncer.go:390-421 | what the selectors resolve maps forward to the host name asked for |
| Lookup.Start | pkg/syncer/back_syncer.go:425-452 | afterwards every selector that reads the cache has a hook on the path index, and no earlier hook is lost |
| Lookup.HookDecodes | pkg/syncer/back_syncer.go:433-447 | a hook told about a path key of a slash-free host name requests exactly that host name, if the path is the one it was registered for or that was empty, and otherwise nothing |
| Lookup.ExchangeWakes | pkg/syncer/back_syncer.go:390-452 | if an exchange changes what a host name resolves to, the host name is requested |
| Lookup.RemoveWakes | pkg/syncer/back_syncer.go:390-452 | the same for a removal |
| Lookup.FromVirtualHandler.OnAdd | pkg/namecache/from_virtual_handler.go:24-36 | the cache content is exchanged for the object's mapping, or kept on an error, and no registered controller misses a change |
| Lookup.FromVirtualHandler.OnUpdate | pkg/namecache/from_virtual_handler.go:38-49 | the same for an updated object |
| Lookup.FromVirtualHandler.OnDelete | pkg/namecache/from_virtual_handler.go:51-56 | the content loses the object and no registered controller misses a change |
| Lookup.MemorizingResolver.TranslateName | pkg/syncer/back_syncer.go:555-577 | if the cache has an answer, its name without the namespace is returned and remembered; only otherwise the remembered name is returned, and the memo stays; without either it fails |
| RoundTrips.RoundTripExactly | pkg/syncer/from_virtual_syncer.go:201-290 | in every cache content learned from a set of names every live name, translated to the host and back, with its path or without, comes back, exactly if no two of the names share a host name |
| RoundTrips.InjectiveRoundTrip | pkg/syncer/from_virtual_syncer.go:201-290 | a translation brings every name back from everything the cache can learn exactly if it is injective on slash-free names |
| RoundTrips.HandlersFile | pkg/namecache/from_virtual_handler.go:58-109 | what the handlers file for an object is its own name followed by the names that stand in its fields, no more and no fewer, which is the form the round trip speaks of |
| RoundTrips.ContentIsFiled | pkg/namecache/from_virtual_handler.go:24-56 | after any sequence of additions, updates and deletions, and objects whose mapping fails, the cache content is that of a list of filed objects with distinct names, which is the form RoundTripExactly speaks of |
| RoundTrips.ReachedComesBack | pkg/syncer/from_virtual_syncer.go:201-290 | so in every content the handlers can reach every filed name comes back, if no two of the names share a host name |
| Translations.EveryNameComesBack | pkg/syncer/from_virtual_syncer.go:201-290 | from the events to the answer: every name that stands in an object the handlers have seen last and could read comes back from its host name, by path and alone, and the resolver translates the host name to just that name, whatever has been remembered |
| Translations.TranslatesExactly | pkg/syncer/back_syncer.go:555-577 | without remembered names the resolver translates a host name under a path to a name exactly if some live object has that name there and it maps to the host name |
| Limits.RoundTripCanFail | pkg/syncer/from_virtual_syncer.go:268-290 | with the real translation a live object's own name can come back as another's |
| BackSyncProofs.MergeDiff | pkg/syncer/back_syncer.go:496-506 | a merge patch from a copy to its successor applied to that copy gives the successor |
| BackSyncProofs.PatchMarks | pkg/syncer/back_syncer.go:480-507 | marking an object that has lost markers since it was read leaves exactly the intended markers |
| BackSyncProofs.PatchStrips | pkg/syncer/back_syncer.go:459-478 | the rollback patch leaves an object without a binding |
| BackSyncProofs.InvStep | pkg/syncer/back_syncer.go:176-545 | every step keeps: bindings map forward to their host object, cached values map forward, and the copies a reconcile holds are no less marked than what is stored |
| BackSyncSafety.BindingsInjective | pkg/syncer/back_syncer.go:312-354 | over whole runs two different host objects are never bound to the same virtual object, not even at different times, however the cache changes |
| BackSyncSafety.BindingStableRun | pkg/syncer/back_syncer.go:279-310 | over whole runs, whatever others write and whatever is rolled back, an object that is bound from one moment to another is bound to the same name at both, and its memo only grows |
| BackSyncSafety.BindingEnds | pkg/syncer/back_syncer.go:312-354 | in one step a binding ends only by the deletion or the rollback of that object in its own reconcile, or by a foreign change of that very object |
| BackSyncMemos.TranslationStays | pkg/syncer/back_syncer.go:278-307 | over whole runs, a name that a reconcile translated and saved translates from the object's memo at every later moment while the object stays bound, whatever the cache has forgotten; the save keeps it exactly if it has something new to write or nobody has removed the memo that was read, as while the object is bound |
| BackSyncMemos.NeverFailsAgain | pkg/syncer/back_syncer.go:555-577 | and no later reconcile of the object fails to translate that name |
| BackSyncAnswers.SavedValueStays | pkg/syncer/back_syncer.go:278-307 | the value is kept too: once a translation was saved and as long as the object stays bound and the cache gives its reconciles no other answer under the key, the memo holds the value that was translated, and every cache that has forgotten the name leaves it translating to that value |
| BackSyncAnswers.SameAnswerAgain | pkg/syncer/back_syncer.go:555-577 | and every later reconcile of the object that asks for the name gets that value and keeps it |
| BackSyncSafety.DeletionSafety | pkg/syncer/back_syncer.go:312-354 | while foreign changes leave annotations whole, a host object is only deleted when it was found bound to a virtual object that has existed, and a binding without such an object belongs to the unfinished reconcile of that object, however names collide |
| BackSyncSafety.DeletionSafetyPartlyMarked | pkg/syncer/back_syncer.go:312-354 | the same where single markers may be removed, if cached names do not collide |
| BackSyncSafety.DeletedIsRead | pkg/syncer/back_syncer.go:312-323 | without a foreign change since the read, the object that is deleted is the one that was read, and is bound to a virtual object that has existed |
| BackSyncSafety.DeletedIsBound | pkg/syncer/back_syncer.go:312-323 | whatever changed since the read, the object that is deleted is bound exactly if its markers are there, and then to what was read |
| DeletionLimits.CollidingDeletion | pkg/syncer/back_syncer.go:312-354 | for any two names that share a host name a run that deletes an object whose virtual object never existed, after a single marker was removed |
| DeletionLimits.DeletionSafeExactly | pkg/syncer/back_syncer.go:312-354 | for a set of names the cache may learn, and with single markers removable, every deletion in every run is of an object bound to a virtual object that has existed, exactly if no two of the names share a host name |
| BackSyncOwnership.Ownership | pkg/syncer/back_syncer.go:235-266 | over every interleaving no virtual object without the controller's label is modified or deleted, if cached names do not collide and nobody else creates or relabels the one object a reconcile is about |
| Limits.OwnershipExactly | pkg/syncer/back_syncer.go:312-354 | for a set of names the cache may learn, every quiet run spares every object without the label exactly if no two of the names share a host name |
| BackSyncOwnership.LabelExactly | pkg/syncer/generic.go:31-79 | over whole runs only the object write creates objects, and of those that are new or carried the label exactly those carry it afterwards whose patches leave it in place |
| BackSyncEffects.BoundExactly | pkg/syncer/back_syncer.go:454-457 | an object is bound exactly if it has the marker of this very virtual cluster and a name and a namespace that are not empty, and then to these |
| BackSyncEffects.ExcludedExactly | pkg/syncer/back_syncer.go:235-238 | an object is excluded unless its label is this very controller |
| BackSyncEffects.BaseIsCopy | pkg/syncer/back_syncer.go:357-388 | the patches start from the content and the labels of the host object, with the controller as owner |
| BackSyncEffects.ResolvesNow | pkg/syncer/back_syncer.go:312-354 | every lookup of a reconcile reads the cache anew, and only a bound copy fixes the name |
| BackSyncEffects.LooksNow | pkg/syncer/back_syncer.go:176-226 | deletion, update or creation, by which of the two objects exist at the moment of the read |
| BackSyncEffects.DeletesNow | pkg/syncer/back_syncer.go:240-323 | a deletion that succeeds takes away the object of the reconcile and no other, a virtual one only if its copy has the label of the controller |
| BackSyncEffects.StatusEffect | pkg/syncer/generic.go:56-67 | a status write that succeeds changes the content of the target and nothing else, one that fails nothing |
| BackSyncEffects.ReverseEffect | pkg/syncer/generic.go:81-136 | a reverse write replaces labels and content of the object, and nothing else, exactly if nobody has changed it since it was read |
| BackSyncEffects.MarkStores | pkg/syncer/back_syncer.go:480-507 | marking stores marker, name and namespace, removes the memo and keeps everything else |
| BackSyncEffects.RollbackStores | pkg/syncer/back_syncer.go:459-478 | a rollback takes exactly these away again |
| BackSyncEffects.OwnPartStays | pkg/syncer/back_syncer.go:459-507 | over whole runs, binding, saving and rolling back leave labels, content and foreign annotations of host objects as they are |
| Limits.LabelCanBeLost | pkg/syncer/generic.go:31-79 | a quiet run with a single name in which the patches drop the label and an object without it is created |
| Limits.OwnershipCanFail | pkg/syncer/back_syncer.go:312-354 | a quiet run that overwrites somebody else's virtual object when cached names collide |
| DeletionLimits.StaleDeletion | pkg/syncer/back_syncer.go:315-323 | a run that deletes an object without annotations which was recreated after the read |
| BackSyncControllers.BackSyncController.Reconcile | pkg/syncer/back_syncer.go:176-226 | one reconcile, with anything happening between its API calls, is a segment of a run of the state machine and ends with nothing in progress; if no call fails, its last step is one of the proper ends |
| BackSyncControllers.BackSyncController.SyncWith | pkg/syncer/back_syncer.go:216-225 | which of the three is called follows from which of the two objects exist |
| BackSyncControllers.BackSyncController.SyncDown | pkg/syncer/back_syncer.go:240-255 | one deletion step, after which the virtual object is gone if it was not excluded and the call did not fail |
| BackSyncControllers.BackSyncController.Sync | pkg/syncer/back_syncer.go:257-310 | a segment of a run: nothing for excluded objects; otherwise, if no call fails, it ends with a changed host object, with the names saved that the resolver translated on top of those read, or with a name or target that cannot be resolved or written |
| BackSyncControllers.BackSyncController.SyncUp | pkg/syncer/back_syncer.go:312-354 | a segment of a run that, if no call fails, ends with the deletion of a bound object, or with saving the names the resolver translated, a rollback, or an object that cannot be resolved or is gone |
| BackSyncControllers.BackSyncController.TranslateMetadata | pkg/syncer/back_syncer.go:357-388 | the target is what the marked copy resolves to at that moment, or the reconcile fails; the object the patches start from has the copy's labels with the controller's own |
| BackSyncControllers.BackSyncController.Resolved | pkg/syncer/back_syncer.go:390-421 | the bound name of a bound copy, otherwise what the selectors read from the cache at that moment |
| BackSyncControllers.BackSyncController.TranslateOne | pkg/syncer/back_syncer.go:555-577 | one call of the memorizing resolver is one step of the machine: it remembers exactly this name, or the reconcile fails |
| BackSyncControllers.BackSyncController.WriteVirtualObject | pkg/syncer/generic.go:69-76 | the object is written as the patches left it, labels included, or the reconcile fails |
| BackSyncControllers.BackSyncController.AddAnnotations | pkg/syncer/back_syncer.go:480-507 | marks the object or saves the names in one patch, and returns what is stored |
| BackSyncControllers.BackSyncController.RemoveAnnotations | pkg/syncer/back_syncer.go:459-478 | the rollback is one step, and a failed one leaves the object behind |
| BackSyncControllers.BackSyncController.PatchHostObject | pkg/syncer/back_syncer.go:496-506 | no call if nothing differs, an error if the object is gone, and the merge of the difference into what is stored otherwise |
| BackSyncControllers.BackSyncController.ApplyPatches | pkg/syncer/generic.go:31-79 | translation, name lookups, an optional status write and the object write are steps of a run; it reports whether all of them went through, and what the resolver remembers is the memo it started from extended by the names met |
| BackSyncControllers.BackSyncController.EnqueueVirtual | pkg/syncer/back_syncer.go:509-545 | a labelled virtual object that a host object is bound to makes a request for such a host object; one that none is bound to is deleted, unless the event is a deletion; others are left alone |
| BackSyncControllers.BackSyncController.HostDeleted | pkg/syncer/back_syncer.go:152-170 | exactly the labelled virtual object that the deleted object was bound to, or resolves to, goes |
| BackSyncControllers.BackSyncController.World | pkg/syncer/back_syncer.go:130-174 | whatever handlers, cache and others do between two calls is a segment of the run and leaves the reconcile where it stands |
| BackSyncControllers.BackSyncController.Serve | pkg/syncer/back_syncer.go:176-226 | after any number of served requests every binding maps forward and no two host objects are bound to the same virtual object |
| ReversePatches.ApplyReversePatches | pkg/syncer/generic.go:81-136 | a status write exactly if the status differs and is a subresource, no write exactly if nothing differs |
| ReversePatches.SyncUntilQuiet | pkg/syncer/generic.go:81-136 | settling reverse patches write the status at most once, exactly if it changes, and the object at most once, and end in a fixed point |
| ReversePatches.RestExactly | pkg/syncer/generic.go:81-136 | from every object the reverse patches come to rest with at most one write of each kind exactly if they settle, with and without a status subresource |
| ReversePatches.IdempotenceIsNotEnough | pkg/syncer/generic.go:104-120 | idempotent reverse patches that are never done |
| ReversePatches.IdempotenceIsNotNeeded | pkg/syncer/generic.go:104-120 | reverse patches that settle without being idempotent |
| Trees.FoundIsLookup | vendor/github.com/vmware-labs/yaml-jsonpath/pkg/yamlpath/path.go:268-285 | a path leads somewhere exactly if its matches are not empty |
| FieldLaws.KeyStep | vendor/github.com/vmware-labs/yaml-jsonpath/pkg/yamlpath/path.go:260-285 | a key leads to the value behind it |
| FieldLaws.PositionStep | vendor/github.com/vmware-labs/yaml-jsonpath/pkg/yamlpath/path.go:403-431 | a position leads to the element there, from the end if negative, and nowhere beyond the ends |
| FieldLaws.EveryStep | vendor/github.com/vmware-labs/yaml-jsonpath/pkg/yamlpath/path.go:377-401 | a wildcard leads to all values in order |
| Graph.SpotsLookup | vendor/github.com/vmware-labs/yaml-jsonpath/pkg/yamlpath/path.go:26-33 | the nodes a path leads to stand for the trees it leads to |
| Graph.OneParent | pkg/patches/operation.go:30-39 | a place that is met once is held by one content list, at one position |
| Graph.NotNested | pkg/patches/patch_types.go:137-160 | no match lies inside another |
| Nodes.Find | pkg/patches/operation.go:16-28 | the first node in document order, parents first, whose content holds the child |
| Holders.HolderMeaning | pkg/patches/operation.go:16-28 | the search finds nothing exactly if no node of the document holds the child, and otherwise a node that does |
| Nodes.ChildIndex | pkg/patches/operation.go:41-48 | the first position of the child, or -1 if it is absent |
| Nodes.FindMatches | pkg/patches/operation.go:76-83 | the nodes the path leads to, in document order |
| Nodes.ReplaceChildAtIndex | pkg/patches/operation.go:71-74 | the first occurrence of the child gives way to the value's content |
| Nodes.RemoveProperty | pkg/patches/operation.go:50-53 | the child goes together with the entry before it, its key |
| Nodes.RemoveChild | pkg/patches/operation.go:55-64 | every entry but the child stays, in order |
| Holders.AllButOnce | pkg/patches/operation.go:55-64 | if the child occurs once, exactly that position goes |
| Nodes.ReplaceNode | pkg/patches/operation.go:9-14 | exactly one content list of the document changes, at the first occurrence of the match, or nothing if no node holds it |
| Replacing.SubStep | pkg/patches/operation.go:71-74 | one in-place replacement equals adding one pair to the simultaneous replacement |
| Replacing.OverIsRewrite | pkg/patches/patch_types.go:137-160 | all replacements together rewrite exactly the places of the path |
| Patches.Replace | pkg/patches/patch_types.go:137-160 | in any document, shared nodes included, each match that meets the condition gives way to the value at the first position of its first holder; where no match is met twice the document becomes the one in which exactly those matches are the value; of a document without sharing every node still has one depth, and keys are only keys |
| FieldLaws.ReplacedFields | pkg/patches/patch_types.go:137-160 | the path then leads to the value where the match met the condition, and to the same as before where not |
| Removing.DelStep | pkg/patches/operation.go:50-64 | one in-place removal equals adding one node to the simultaneous removal, in mappings with its key |
| Removing.DelIsDelete | pkg/patches/patch_types.go:72-96 | all removals together delete exactly the places of the path |
| Patches.Remove | pkg/patches/patch_types.go:72-96 | in any document the matches that meet the condition are taken out one after the other, and it finishes exactly if each is still held when its turn comes (which positions go is RemovalStrikes); where the matches are not shared that is always so, and the document becomes the one without them, in mappings without their keys, and stays free of sharing |
| Patches.RemoveNode | pkg/patches/patch_types.go:86-92 | the match leaves the first node that holds it, from a mapping with its key, from a sequence with every occurrence; it fails exactly if no node holds it or it is a first key |
| Removals.RemoveDone | pkg/patches/patch_types.go:72-96 | where no match is shared, removing one after the other always finishes and is the deletion of all of them at once |
| SharedDocuments.RemovalFinishes | pkg/patches/patch_types.go:72-96 | in documents in which every node has one depth the removals run through exactly if every match is to be taken out at most as often as it is held: in mappings once for each position, in sequences once for each sequence, in a document any number of times |
| Striking.RemovalStrikes | pkg/patches/patch_types.go:72-96 | which positions the removals take: for every match in turn the first position of its node that is left, in a mapping alone with its key, in a sequence with all others that hold the node; they crash exactly when none is left |
| Scans.AllGoExactly | pkg/patches/operation.go:16-28 | where no other position goes in the same edit as a chosen one, all chosen positions go exactly if for each node they are the first in document order |
| StruckTrees.RemovalIsDeletion | pkg/patches/patch_types.go:72-96 | in documents in which every node has one depth, the removals run through and leave the tree without the chosen places if and only if of each node the chosen positions come first in document order and no other position goes in the same edit as a chosen one |
| StruckTrees.LeadsNowhere | pkg/patches/patch.go:47-60 | once they have run through, a path that does not end in a position leads nowhere if and only if every chosen position is among those that go |
| PlacedTrees.ReplacementIsRewrite | pkg/patches/patch_types.go:137-160 | in documents in which every node has one depth, a replacement is the rewrite at the path if and only if, among the positions that do not stand for the value already, exactly the chosen ones are the first of their nodes, as many as the node was chosen |
| SharedLimits.OtherFieldGoes | pkg/patches/patch.go:47-60 | in {a: v, b: v} made by one replacement, a reverse patch for b removes a, and b still leads to v |
| SharedLimits.OtherFieldReplaced | pkg/patches/operation.go:71-74 | in the same document the replacement of b changes a |
| SharedLimits.BothPlacesEmptied | pkg/patches/operation.go:50-53 | and the removal of a.x takes x out of b too |
| SharedDocuments.ReplacedEven | pkg/patches/patch_types.go:137-160 | what a replacement makes of a document without sharing is such a document, although the value node is shared |
| Trees.KeptPairs | pkg/patches/operation.go:50-53 | what a deletion leaves of a mapping is whole pairs, in place as key and value |
| Trees.DeleteKeeps | pkg/patches/patch_types.go:72-96 | a deletion keeps mappings paired and keys unique |
| Trees.DeletedNotFound | pkg/patches/patch.go:47-60 | a removed path leads nowhere, unless its last step is a position |
| Trees.PositionRefills | pkg/patches/patch.go:47-60 | after removing a position, the path leads somewhere again exactly if one of the sequences is longer than the position needs |
| Trees.DeletionFindsNothing | pkg/patches/patch.go:47-60 | no removal makes a path of keys and wildcards lead somewhere that led nowhere |
| DeletionLaws.DeleteFound | pkg/patches/patch_types.go:72-96 | after a removal the path leads to exactly the matches that did not meet the condition, in order, if its last step is no position |
| DeletionLaws.PositionDeleted | pkg/patches/patch_types.go:72-96 | a position of a list takes away that one element, counted from the end if negative, if it meets the condition |
| DeletionLaws.DeleteApart | pkg/patches/patch_types.go:72-96 | a path that in this document never leads to a removed place, below or above one, leads to what it led to, if no position on it moves |
| TreeLaws.RewriteFound | pkg/patches/patch_types.go:137-160 | after a rewrite the path leads to the images of what it led to |
| TreeLaws.RewriteElsewhere | pkg/patches/patch_types.go:137-160 | a path that parts from the rewritten one leads to what it led to |
| TreeLaws.RewriteApart | pkg/patches/patch_types.go:137-160 | so does every path that, in this document, never leads to the same place or below it, wildcards included |
| Layouts.ClearLone | pkg/patches/patch_types.go:137-160 | in a document in which only known values are held in several positions, a path that does not pass through or lead to one meets each place once |
| Layouts.OpenSole | pkg/patches/patch_types.go:162-190 | and if no such value lies inside its places, they share no node with the rest of the document |
| SteadyPaths.SteadyMarks | pkg/patches/operation.go:16-28 | on such documents a condition on trees alone, that the path takes the first of the values that look alike, makes removals and replacements take exactly the chosen positions |
| SteadyEdits.SteadyRemoval | pkg/patches/patch_types.go:72-96 | steady removals run through, leave the tree without the chosen places, and no further node becomes shared |
| SteadyEdits.SteadyPlacement | pkg/patches/patch_types.go:137-160 | steady replacements leave the tree with the value at exactly the chosen places, and only the value becomes shared, if there are several |
| Stripping.StripReversePatches | pkg/patches/patch.go:47-60 | the paths of the reverse patches are removed one after the other, in documents with values in several places too, wherever these removals are steady; without such values they always are |
| Stripping.NothingLeaks | pkg/patches/patch.go:47-60 | whatever their order and overlap, no path of keys and wildcards of a reverse patch leads anywhere afterwards, if the patch has a path and does not say ignore: false |
| Stripping.NothingStripped | pkg/patches/patch.go:47-60 | patches without a path and those that say ignore: false take nothing away |
| Stripping.StrippedElsewhere | pkg/patches/patch.go:47-60 | what parts from the paths of all other reverse patches is as before |
| Stripping.StrippedInOrder | pkg/patches/patch.go:47-60 | the patches take effect one after the other |
| Refills.RefillExactly | pkg/patches/patch.go:47-60 | in some document a removal brings something back under a path exactly if it removes a position of what may be a list on that path, at or before the position the path goes through |
| Refills.NothingComesBack | pkg/patches/patch.go:47-60 | with positions in paths too, what a reverse patch owns is gone in the end if no later one can bring something back under its path |
| PatchRuns.ApplyPatches | pkg/patches/patch.go:26-73 | a whole run of name rewrites, removals, replacements at any number of places and additions of missing paths, in which no patch is led astray by an earlier value in several places, succeeds exactly if everything translates; the object is then the patches' result without what the reverse patches own, only replacement values are shared, and, if no addition repeats a key, it is well formed and nothing leaks |
| PatchRuns.UnsharedRuns | pkg/patches/patch.go:26-73 | in runs in which no replacement finds several places no patch can be led astray: they need no more than additions that can be made |
| PatchRuns.ScalarThenField | pkg/patches/patch.go:26-73 | nor can it in a run that puts a scalar in any number of places and then strips a field of the object that does not hold that scalar |
| PatchRuns.AppliedInOrder | pkg/patches/patch.go:38-45 | the patches of a run take effect one after the other, each on what the ones before have made, and the first failure is the failure of the run |
| RunLaws.AppliedRemove | pkg/patches/patch_types.go:72-96 | in a run a removal leaves just the fields that do not meet its condition |
| RunLaws.AppliedReplace | pkg/patches/patch_types.go:137-160 | a replacement puts its value in just the fields that meet its condition |
| RunLaws.AppliedRewrite | pkg/patches/patch_types.go:162-190 | a rewrite fails exactly if something has no translation, and turns every place into what its kind demands |
| RunLaws.AppliedAdd | pkg/patches/patch_types.go:98-121 | an addition to a missing path is found there exactly if the path can be made |
| RunLaws.AppliedElsewhere | pkg/patches/patch_types.go:72-190 | removals, replacements and rewrites leave alone what parts from their paths |
| Rewriting.TranslateMatches | pkg/patches/patch_types.go:203-213 | exactly the scalars found that meet the condition become their translations; it fails exactly if one has none |
| ItemRewrites.GetNamespace | pkg/patches/patch_types.go:295-312 | the value of the only match, empty if there is none, an error if there are several |
| ItemRewrites.ProcessRewrite | pkg/patches/patch_types.go:192-240 | the item becomes the one with its names translated and then its namespace; it fails exactly if something has no translation |
| ItemRewrites.ItemFields | pkg/patches/patch_types.go:192-240 | for name and namespace paths that never lead to the same place in the item, wildcards included, every name is translated with the namespace the item had before, although the namespace is overwritten with its own translation |
| FieldLaws.ItemNames | pkg/patches/patch_types.go:192-240 | just the scalars that meet the condition become the translations of their values with the namespace the item had |
| FieldLaws.ItemNamespace | pkg/patches/patch_types.go:192-240 | and the namespace, if it is not empty and meets the condition, becomes its own translation |
| FieldLaws.NamespaceExactly | pkg/patches/patch_types.go:295-312 | the namespace is the value of the only match, empty without a match or a path, an error with several |
| FieldLaws.TranslatableExactly | pkg/patches/patch_types.go:192-240 | an item is rewritten exactly if it names one namespace at most and all its names and its namespace have translations |
| ItemRewrites.ItemElsewhere | pkg/patches/patch_types.go:192-240 | paths that never lead, in this item, to a place of the two paths or below one, wildcards included, lead to what they led to |
| ItemRewrites.RewriteItems | pkg/patches/patch_types.go:172-180 | every item of a list is rewritten on its own |
| Editing.StepInPlace | pkg/patches/patch_types.go:162-190 | an edit inside one match leaves the other matches and the rest of the document as they are |
| Editing.ProgressDone | pkg/patches/patch_types.go:162-190 | edits of all the matches, where these share no node with anything else, add up to the rewrite of the document; a document without sharing stays so |
| EditedLayouts.ProgressLaid | pkg/patches/patch_types.go:162-190 | and in a document with values in several places no further node becomes shared |
| RewriteNames.RewriteName | pkg/patches/patch_types.go:162-190 | every match becomes its translation as a name, a list of items or an item, and nothing else in the document changes, values in several places included; it fails exactly if something has no translation |
| FieldLaws.RewrittenPlaces | pkg/patches/patch_types.go:162-190 | a name becomes its translation without a namespace, an object the rewritten item, a list the list of its rewritten items |
| FieldLaws.RewritableExactly | pkg/patches/patch_types.go:162-190 | which succeeds exactly if all names, items and items of lists that are found can be |
| FieldLaws.RenamedFields | pkg/patches/patch_types.go:203-213 | of the fields found, just the scalars that meet the condition change, each to its translation |
| CreatePaths.CreateFromTop | pkg/patches/patch_types.go:447-497 | the recursion from the end of the path attaches, at the deepest existing node, the value inside new nodes for the missing steps |
| CreatePaths.PutGet | pkg/patches/patch_types.go:447-542 | a created path leads exactly to the value if and only if it is creatable: keys under mappings, the length under sequences, no numeric keys among the missing steps |
| CreatePaths.CreateElsewhere | pkg/patches/patch_types.go:447-497 | what paths that part from the created one lead to is unchanged, if the new nodes are found by the path |
| CreatePaths.CreateBeside | pkg/patches/patch_types.go:447-542 | whatever the new nodes are, what paths lead to that part from the place where they land is unchanged |
| CreatePaths.CreateUnique | pkg/patches/patch_types.go:447-542 | a creation keeps keys unique exactly if the node that gets the first new child has no such key |
| CreatePaths.CreatePaired | pkg/patches/patch_types.go:447-542 | a creation keeps keys paired with values |
| PathCreation.MeaningParts | pkg/patches/path.go:20-53 | the child name is the name of the last step, the parent path means the steps before it, and a sequence is made exactly for numbers |
| PathCreation.WrapNode | pkg/patches/patch_types.go:509-542 | the new parent has the value as its only child, behind the name as key in a mapping |
| PathCreation.CreatePath | pkg/patches/patch_types.go:447-497 | terminates, and leaves the document that the recursion on values describes, no further node being shared; values in several places may lie beside the path |
| PathCreation.AddMissing | pkg/patches/patch_types.go:98-121 | a path that leads nowhere is created in place and then leads to the value exactly if it is creatable |
| PatchLimits.SharedRemovalCrashes | pkg/patches/patch_types.go:86-92 | a document made by one replacement in which a path meets a shared node twice that is held once, so that the removal finds no holder |
| PatchLimits.SharedElementCrashes | pkg/patches/patch_types.go:86-92 | a list that holds one node twice: the first removal takes both, and the second finds no holder |
| PatchLimits.PositionsLeak | pkg/patches/patch.go:47-60 | two reverse patches with positions after which the first path leads somewhere |
| PatchLimits.NumberKeyLost | pkg/patches/patch_types.go:499-507 | a numeric key that is not found after its creation |
| Regex.IndexBasedReplace | pkg/patches/regex/regex.go:83-99 | the running-offset loop stays in bounds, equals the one-shot substitution for items in any order, and the length grows by what the items add |
| Regex.SortSlice | pkg/patches/regex/regex.go:85-87 | the items end up sorted and are a permutation of the given ones |
| Regex.AllItemsReplaceable | pkg/patches/regex/regex.go:40-68 | the replacements of well-formed matches never overlap and lie within bounds |
| Regex.ProcessRegex | pkg/patches/regex/regex.go:26-71 | the text that comes out is the text match by match, with just the name and namespace groups translated, and what follows the last match |
| Regex.MatchReplaced | pkg/patches/regex/regex.go:40-68 | each match whose name group took part has the name of its translation, with the namespace of the same match or none, in place of that group, and the namespace of the translation in place of the namespace group, in whatever order the groups stand; all text between is copied |
| Regex.ReplacedIsDone | pkg/patches/regex/regex.go:26-99 | the collected replacements, in one pass over the text, give just that text |
| Regex.TwoPassesAreOne | pkg/patches/regex/regex.go:16-22 | two ordered replacement passes equal one longest-match pass |
| Regex.PrepareRegexMeaning | pkg/patches/regex/regex.go:16-22 | placeholder expansion is that single pass, and no placeholder survives |
| OpPath.SplitPrinted | pkg/patches/path.go:20-53 | of a printed path the child name is the name of the last step and the parent path the printed prefix |
| OpPath.AncestorPrinted | pkg/patches/path.go:45-53 | going up reaches the base after exactly as many steps as were printed |
| OpPath.BaseHasNoParent | pkg/patches/path.go:45-53 | the root sign and an undotted first property have the empty parent path |
| OpPath.AtoiDecimal | pkg/patches/patch_types.go:499-507 | a printed position is read back as the same number |

## Left out

- StruckTrees.RemovalIsDeletion: for documents in which every node has one depth, scalars hold nothing and keys are not repeated, as one replacement leaves what is read from JSON; the last of these is only needed for one direction (StruckTrees.OrderlyRemoval).
- PlacedTrees.ReplacementIsRewrite: for documents in which every node has one depth.
- SharedDocuments.RemovalFinishes: documents in which a node is met at two depths, which one replacement whose path has matches at different depths would make, are not covered; compiled paths have no recursive descent, so all their matches are equally deep.
- PathCreation.CreatePath: paths with wildcards are excluded, for which the source attaches one value node under several parents, and so are scalar parents, where the source inserts before the scalar.
- PatchRuns.ApplyPatches: in a run, values in several places are told apart by their trees, so a patch is taken to be led astray as soon as two different values look alike; that is sufficient, and the exact condition for a single patch is StruckTrees.RemovalIsDeletion and PlacedTrees.ReplacementIsRewrite. Additions to paths that are there are not part of a run, and copying the result back into the typed object is the work of the YAML library.
- RewriteNames.RewriteName: places that contain a value held in several places are excluded, since the translation of one such place translates the others.
- Stripping.NothingLeaks: for documents without repeated keys, which objects read from JSON are, and paths without positions; Refills.NothingComesBack has those with positions.
- Nodes.FindMatches: the path library's lexer, recursive descent, slices, unions, filters and property names are not modelled; a compiled path is its list of steps, and names contain no backslash.
- PathCreation.MeaningParts: that a printed path compiles to its steps is taken from the path library.
- BackSyncControllers.BackSyncController.ApplyPatches: which names the patches meet and what they make of labels, status and content is arbitrary, so field ownership of server-side apply is not modelled, nor patches that rename the object they write.
- BackSyncControllers.BackSyncController.World: reads are up to date and API calls are atomic; caches of the clients and work queue retries are not modelled. A single handler feeds the cache of the kind.
- BackSyncControllers.BackSyncController.EnqueueVirtual: the list of host objects and the deletion of the virtual object (pkg/syncer/back_syncer.go:517-533) are one step, so a host object that is bound between the two calls is not covered.
- BackSyncControllers.BackSyncController.HostDeleted: the read and the deletion of the virtual object (pkg/syncer/back_syncer.go:157-162) are one step, so a change of its label between the two calls is not covered.
- BackSync.ForeignHostChange: the rest of the world may not drop the mappings annotation of an object that stays bound.
- BackSync.Apply: reverse patches rewrite labels and content of the host object but keep its annotations, so markers and the memo survive reverse writes by assumption; a reverse patch on annotations is not modelled.
- BackSyncSafety.DeletionSafety: assumes that no crash or failed rollback has left a marked object behind, that foreign changes remove all markers of an object or none, and that the names the cache learns have a namespace.
- BackSyncOwnership.Ownership: assumes in addition to names that do not collide that nobody else creates or relabels the one virtual object of the running reconcile, and that event objects equal the stored ones.
- Limits.OwnershipExactly: for selectors at least one of which resolves names, and names with a namespace.
- BackSyncProofs.InvStep: the mappings annotation is modelled as the map it decodes to, and the rest of the world may remove but never writes marker annotations.
- Names.PhysicalNameCollides: the digest used for long names is abstract.
- OpPath.AtoiDecimal: the range check of the number parser is not modelled.
- Regex.ProcessRegex: the regular expression engine is a parameter that returns well-formed, non-overlapping matches.
- Regex.SortSlice: the sorting routine of the Go library is modelled by a simple in-place sort.
- NameCaches.NameCache.TakeOutMapping: the guards that skip absent tables are dead under the invariant; the inner loops over keys are methods of their own.
- ReversePatches.SyncUntilQuiet: assumes a quiet environment and writes that succeed.
- Conditions are predicates on the matched part; conditions on the whole object are not modelled.
- Slices of nodes are modelled as values, so the sharing of backing arrays between slices is not.
- `CopyFromObject`, adding to existing matches, label keys, label selectors and label expressions: branch-by-branch code around the same edits.
- `pkg/blockingcacheclient` and `pkg/syncer/force_sync_controller.go`: polling and an annotation toggle.
- Forward sync of objects from the virtual cluster (`Sync`, `SyncDown` and `SyncUp` of `fromVirtualController`) beyond its name translation.
- Clients, managers, queues, logging, configuration checks and plugin start-up.
