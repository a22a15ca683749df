# OpenTofu addresses, moves, checks and cloud state: a verified model

This project models parts of OpenTofu in Dafny and proves what they are for. Each
module follows one part of the program:

- `Addrs`, `MovePatterns`, `MoveDestination`, `MoveOrdering`: `moved` blocks as patterns
  over absolute addresses, the symbolic tests on patterns, the rewriting of addresses,
  and the order in which statements must run.
- `Quoting`, `ParseTarget`, `AddressText`, `AddressOrder`, `Targeting`: the text of an
  address, the parser of targets, the sort order, and containment of targets.
- `OverrideTries`: override values found by a trie with wildcard backtracking.
- `ModuleSource`: local module paths and relative resolution.
- `Confirm`, `CloudApply`: the race between the confirmation prompt and the run poller,
  and what the backend does with its outcome.
- `CloudState`, `CloudProtocol`: the cloud state manager in place, and any number of
  managers sharing one workspace.
- `Checks`: check statuses, their summaries, and how they change over a run.

Code that changes things step by step is a class or a method with a loop, tied by its
contract to a function on values; the theorems are about those functions and about runs.
`dafny verify dfyconfig.toml` verifies the whole project.

## Findings

Each of these is a property that fails somewhere, with the theorem that says exactly
where.

- The order of two move statements can matter although neither depends on the other, for
  two reasons: the re-index rule takes away the order of a hand-over
  (`MoveOrdering.ReIndexRuleLeavesHandOverUnordered`), or the sources overlap
  (`OverlappingSourcesDisagree`). `UnorderedCommuteIff` says exactly on which addresses
  two unordered statements commute, `HandOverIsOrdered` and `HandOverPossibleIff` exactly
  when a hand-over exists and is ordered, and `OrderNeverMattersIff` that the order of a
  set of statements never matters exactly if each two of them are ordered or commute
  everywhere.
- Persisting a cloud state manager that holds no state object makes the next written
  state disappear (`CloudState.PersistWithoutStateLosesNextWrite`). By
  `CloudProtocol.NextWriteSurvivesIff` a write after an upload survives exactly if the
  upload had a state object, or the write stores an empty state too.
- A manager keeps its lock information after it unlocks, so a second unlock releases
  another manager's lock (`CloudState.SecondUnlockReleasesAnothersLock`). By
  `CloudProtocol.UnlockTakesAnothersLockIff` an unlock does so, in any reachable state,
  exactly if the manager is outside lock and unlock, the call names its last lock (or the
  workspace, if it never locked) and the server can be reached. A manager between lock
  and unlock never does.
- Serials increase only until a counter is at its maximum
  (`CloudState.SerialGrowsUnlessAtMaximum`): for the serial in the uploaded file that is
  2^64 - 1, for the signed serial that the server records 2^63 - 1. Below that a store
  raises the serial exactly if the manager knows what is stored
  (`CloudProtocol.StoreRaisesSerialIff`); one that stored the absence of a state repeats
  its serial once.
- Printing and parsing an address restores it exactly if it is not a managed resource of
  type `module`, `data` or `ephemeral`, has no negative integer key, all its names are
  identifiers and its string keys are in Unicode normal form
  (`AddressText.AddressTextRoundTrip`, `ParseTarget.ParseSpelling`).
- Resolving module sources is associative exactly if the last source is local or the
  second does not lead out of the package of the first
  (`ModuleSource.ResolveAssociative`; `ResolveFailsIff` spells the condition out).
- Target containment is not transitive
  (`Targeting.UpwardChainBreaksTransitivity`, `StaticChainBreaksTransitivity`).
  `ContainsTransitiveIff` says exactly which chains are, for all five target types.
- The sort order of addresses is a strict order, but not total:
  `AddressOrder.InstanceOrderTotal` says exactly which pairs have no order (an invalid
  mode, or a placeholder key against a key of its type) and which comparisons panic.
- Confirm can return while its poller goes on polling: this happens only if the question
  itself failed (`Confirm.ReturnStopsPoller`), and then it does
  (`Confirm.FailedQuestionLeavesPoller`).

## Model

| member | source | states |
|---|---|---|
| MovePatterns.SynthModuleInstance | internal/addrs/move_endpoint_module.go:224-246 | the loop builds the declaring module with wildcard keys followed by the module part of the subject |
| MovePatterns.SelectsModule | internal/addrs/move_endpoint_module.go:256-279 | decides step-by-step selection of a module instance by the pattern |
| MovePatterns.SelectsModuleIsCovers | internal/addrs/move_endpoint_module.go:248-279 | for module endpoints, selection is exactly membership in the set of instances the pattern stands for |
| MovePatterns.SelectsResource | internal/addrs/move_endpoint_module.go:283-310 | decides selection of a resource by the pattern |
| MovePatterns.SelectsResourceIsDenotes | internal/addrs/move_endpoint_module.go:281-310 | a resource is selected exactly when the endpoint names it or one of its instances |
| MovePatterns.ModuleInstanceCanMatch | internal/addrs/move_endpoint_module.go:312-332 | decides symmetric wildcard matching of one path with the start of another |
| MovePatterns.DecideCanChainFrom | internal/addrs/move_endpoint_module.go:334-379 | true exactly when the kinds agree and some absolute address belongs to both patterns |
| MovePatterns.CanChainFromIsOverlap | internal/addrs/move_endpoint_module.go:334-379 | the same equivalence for the function, with the witness address constructed |
| MovePatterns.CanChainFromSymmetric | internal/addrs/move_endpoint_module.go:340-379 | chaining is symmetric |
| MovePatterns.DecideNestedWithin | internal/addrs/move_endpoint_module.go:381-435 | true exactly when some object named by the one lies strictly inside some object named by the other |
| MovePatterns.NestedWithinIsContainment | internal/addrs/move_endpoint_module.go:381-435 | the same equivalence for the function; "inside" is the closure of the direct-container relation |
| MovePatterns.InsideIsPathInside | internal/addrs/move_endpoint_module.go:381-435 | strict containment of objects, defined by climbing, is the path condition that the test uses |
| MoveDestination.UnifySucceedsIffKindsAgree | internal/addrs/move_endpoint.go:157-301 | endpoints unify exactly when both are modules or both resources; then both have one type and mean the whole object if both could, else the instances as written |
| MoveDestination.MatchModuleInstancePrefix | internal/addrs/move_endpoint_module.go:437-464 | splits an address at the declaring module, by names |
| MoveDestination.ModuleMoveDestination | internal/addrs/move_endpoint_module.go:477-554 | the loops compute the destination of a module instance, including the failing type assertion |
| MoveDestination.MoveIsMovesTo | internal/addrs/move_endpoint_module.go:466-711 | on every address the three receivers compute exactly "replace the subject, keep the module instance and what is below"; no type assertion fails |
| MoveDestination.MoveRoundTrip | internal/addrs/move_endpoint_module.go:477-711 | moving by a statement and then by its reverse restores the address |
| MoveDestination.MoveIsInjective | internal/addrs/move_endpoint_module.go:477-711 | two addresses never move to the same destination |
| MoveDestination.UnifiedStatementIsBijection | internal/addrs/move_endpoint.go:174-216 | for endpoints as parsed: unified, then applied both ways, with no failing type assertion |
| MoveDestination.ModuleMoveMatchesSelectedPrefix | internal/addrs/move_endpoint_module.go:477-554 | a module statement matches exactly when the pattern selects the prefix of its own length |
| MoveDestination.ModuleMoveExtends | internal/addrs/move_endpoint_module.go:477-554 | extending a module instance extends its destination by the same suffix |
| MoveDestination.MoveCommutesWithContainingResource | internal/addrs/move_endpoint_module.go:567-711 | for module and whole-resource statements, moving an instance commutes with taking its resource |
| MoveOrdering.MoveMatchesCoveredObjects | internal/addrs/move_endpoint_module.go:466-711 | a statement matches an address exactly when it covers it or something it lies inside |
| MoveOrdering.ReIndexIffOnlyKeysChange | internal/addrs/move_endpoint_module.go:716-743 | a statement counts as a re-index exactly if its subjects are module instances and no address that it moves changes a module name |
| MoveOrdering.DependsOnIff | internal/refactoring/move_execute.go:230-278 | for all pairs: one statement depends on another exactly if some object is a target of the other and its own source, or in one of four ways an object of the one lies inside one of the other and it is not a re-index declared further out |
| MoveOrdering.HandOverPossibleIff | internal/refactoring/move_execute.go:232-255 | one statement can hand an address over to another exactly if the target of the one and the source of the other chain or nest |
| MoveOrdering.HandOverIsOrdered | internal/refactoring/move_execute.go:230-278 | when one statement moves an address to one that another would move, the second depends on the first exactly unless the re-index rule applies without chaining |
| MoveOrdering.ReIndexRuleLeavesHandOverUnordered | internal/refactoring/move_execute.go:257-278 | a concrete hand-over that the re-index rule leaves unordered, on which the two orders disagree |
| MoveOrdering.OverlappingSourcesDisagree | internal/refactoring/move_execute.go:232-255 | two unordered statements with overlapping sources, and no re-index, on which the two orders disagree |
| MoveOrdering.UnorderedCommuteIff | internal/refactoring/move_execute.go:232-278 | two unordered statements commute on an address exactly if one is redundant, or neither hands it over to the other and they do not move it to different places |
| MoveOrdering.UnorderedStatementsCommute | internal/refactoring/move_execute.go:232-278 | in particular they commute everywhere if their sources do not overlap and the re-index rule took no order away |
| MoveOrdering.OrderDoesNotMatter | internal/refactoring/move_execute.go:40-96 | any two topological orders of the same statements take every address to the same place, if each unordered pair commutes everywhere |
| MoveOrdering.OrderNeverMattersIff | internal/refactoring/move_execute.go:40-96 | within a set of statements the order never matters exactly if each two are ordered or commute everywhere |
| Quoting.ToHCLQuotedString | internal/addrs/instance_key.go:212-263 | the loop writes the quoted form |
| Quoting.QuoteRoundTrip | internal/addrs/instance_key.go:212-263 | reading the quoted form gives back every string, with any text after it |
| Quoting.QuoteIsPlainIff | internal/addrs/instance_key.go:212-263 | a string is written as it is exactly if all its characters are printable and none has a meaning between quotes |
| Quoting.QuoteIsShortest | internal/addrs/instance_key.go:212-263 | no text without unprintable characters that reads as the same string is shorter |
| ParseTarget.ParseModuleInstancePrefix | internal/addrs/module_instance.go:104-180 | the loop takes off the module steps and their keys, or fails |
| ParseTarget.ParseSpelling | internal/addrs/parse_target.go:36-134 | parsing the traversal of an address gives the address exactly unless its type is reserved |
| ParseTarget.ParsedIsSpelling | internal/addrs/parse_target.go:36-251 | whatever the parser accepts is the traversal of the address it returns |
| AddressText.ModuleInstanceString | internal/addrs/module_instance.go:270-297 | the loop writes the dotted text of a module path |
| AddressText.IntTextIsCanonical | internal/addrs/instance_key.go:65-67 | an integer key has a sign only if it is negative and no leading zero |
| AddressText.AddressTextRoundTrip | internal/addrs/targetable.go:27-30 | reading the text of an address as an HCL traversal and parsing it gives the address exactly if its type is not reserved, its names are identifiers, no integer key is negative and string keys are in normal form |
| AddressText.AddrTextInjective | internal/addrs/unique_key.go:8-14 | within each of the four address types, equal texts mean equal addresses |
| AddressOrder.ModuleInstanceLess | internal/addrs/module_instance.go:345-364 | the loop decides the order of module paths, panics included |
| AddressOrder.InstanceOrderIsInstanceBefore | internal/addrs/resource.go:405-417 | which of two instances sorts first: fewer modules, then the first difference of the paths by name and key, then mode, type and name, then the key; keys go none, unknown, numbers, texts, and modes ephemeral, data, managed |
| AddressOrder.InstanceOrderTotal | internal/addrs/resource.go:405-417 | at most one of two instances sorts before the other, and one does exactly unless they are equal or clash where they first differ; the comparison panics exactly if that is a clash of integer or string type |
| AddressOrder.InstanceOrderTransitive | internal/addrs/resource.go:405-417 | the order is transitive, placeholder keys and invalid modes included |
| AddressOrder.KeyOrderTotal | internal/addrs/instance_key.go:147-192 | for all keys: one sorts first exactly unless they are equal or clash, and the comparison panics exactly on a clash of integer or string type |
| AddressOrder.ResourceLessTotal | internal/addrs/resource.go:41-59 | two different resources are ordered exactly unless their modes differ and one of them is invalid |
| Targeting.ModuleInstanceContains | internal/addrs/module_instance.go:483-510 | the loop decides containment of module paths |
| Targeting.ContainsReflexive | internal/addrs/targetable.go:15-21 | every target contains itself |
| Targeting.ContainsIsCovers | internal/addrs/resource.go:217-239 | for all pairs of target types the text comparisons decide equality of the addresses; an instance stands for its resource exactly if it has no key |
| Targeting.ModuleTargetCoversInside | internal/addrs/module_instance.go:452-524 | a module target contains exactly itself and what lies inside it, or inside its call if its last key is missing |
| Targeting.StaticTargetCoversInside | internal/addrs/module.go:80-117 | a static module target covers exactly the instances of the module and what lies inside them |
| Targeting.ModuleTargetCoversStatic | internal/addrs/module_instance.go:456-481 | a module instance target covers a static module or its resources exactly if it has no keys and the module lies at or below it |
| Targeting.ConfigTargetCoversInside | internal/addrs/resource.go:507-530 | a static resource target covers exactly the instances of the resource |
| Targeting.ResourceTargetCoversInside | internal/addrs/resource.go:217-239 | a resource target covers exactly itself and its instances, an instance target itself and, without a key, its resource |
| Targeting.ContainsTransitiveIff | internal/addrs/targetable.go:15-21 | a chain of two containments is one exactly if it does not go up from an unkeyed instance and down to a keyed one, nor through a static address to keys that the static one does not show |
| Targeting.ContainsTransitive | internal/addrs/module_instance.go:456-524 | in particular, containment is transitive along chains that go down |
| Targeting.UpwardChainBreaksTransitivity | internal/addrs/resource.go:335-354 | an instance of the first exception |
| Targeting.StaticChainBreaksTransitivity | internal/addrs/module_instance.go:458-481 | an instance of the second exception |
| OverrideTries.OverrideTrie.constructor | internal/addrs/override_trie.go:45-55 | an empty trie means the empty list of calls |
| OverrideTries.OverrideTrie.Set | internal/addrs/override_trie.go:57-126 | appends one entry to the list of calls that the fields mean, or panics exactly if a key is missing beyond the size of the evidence table |
| OverrideTries.OverrideTrie.RecordKeys | internal/addrs/override_trie.go:70-91 | the loop records every missing key and whether a wildcard was used, or panics |
| OverrideTries.OverrideTrie.SetNoKeyEvidence | internal/addrs/override_trie.go:93-105 | makes the table if there is none and adds to one list, or panics outside it |
| OverrideTries.OverrideTrie.Get | internal/addrs/override_trie.go:128-173 | returns the lookup in that list, for queries of any length; the refusal flag is set exactly by mixed addressing, and then every later call finds nothing |
| OverrideTries.OverrideTrie.RecursiveGet | internal/addrs/override_trie.go:152-173 | the recursion computes the backtracking search |
| OverrideTries.OverrideTrie.CheckKey | internal/addrs/override_trie.go:175-209 | rejects exactly a wildcard or mixed addressing, sets the refusal flag in the second case, and panics outside the evidence table |
| OverrideTries.LookupFindsApplicable | internal/addrs/override_trie.go:57-173 | a lookup returns the latest value of the most specific matching entry, and nothing exactly when none matches |
| OverrideTries.LookupFindsDecidingCall | internal/addrs/override_trie.go:57-173 | the same in terms of the addresses given to `Set` and `Get`: every module key and the own key of the resource count, from the outside in |
| OverrideTries.LookupStopsIff | internal/addrs/override_trie.go:128-209 | a lookup fails exactly when matching entries lead it to the first position whose check fails, and it fails the way that check does |
| OverrideTries.UnmixedLookupNeverFails | internal/addrs/override_trie.go:15-22 | with one style of addressing a lookup without wildcards never fails |
| OverrideTries.EvidenceIsMissing | internal/addrs/override_trie.go:93-105 | the evidence table lists exactly the positions where some override has no key |
| OverrideTries.SameDepthNeverPanics | internal/configs/config.go:1114-1118 | with one trie for each configured resource, as the callers have it, nothing panics |
| ModuleSource.ResolveAssociative | internal/addrs/module_source_resolve.go:18-72 | resolution is associative, failures included, exactly when the last source is local or the second does not lead out of the package of the first |
| ModuleSource.ResolveFailsIff | internal/addrs/module_source_resolve.go:18-72 | resolution fails exactly for a local path from a package whose subdirectory is rooted or escapes, or is not as deep as the path climbs |
| ModuleSource.ResolveInsidePackage | internal/addrs/module_source_resolve.go:60-72 | for every subdirectory: a local path resolves exactly when it does not lead out of the package; the result is the remaining segments, none of them `.` or `..` |
| ModuleSource.ResolveKeepsValid | internal/addrs/module_source_resolve.go:25-32 | resolving local sources gives a local source |
| ModuleSource.ResolveKeepsPackage | internal/addrs/module_source_resolve.go:18-54 | an absolute source is taken as it is; a local one keeps kind and package, and between local sources leads where the two lead one after the other |
| ModuleSource.IsLocalIff | internal/addrs/module_source.go:183-190 | a text is a local source exactly if its first segment, with either slash, is `.` or `..` and is not the last |
| ModuleSource.ResolveIsParseOfConcatenation | internal/addrs/module_source.go:147-190 | resolving two parsed local sources is parsing their concatenation |
| Confirm.RunKeepsInv | internal/cloud/backend_common.go:429-540 | every interleaving keeps the invariant on contexts, channel and typed input |
| Confirm.ConfirmedOnlyIfTyped | internal/cloud/backend_common.go:490-540 | confirm returns nil only if the keyword was typed, and then the poller has been told to stop |
| Confirm.UndisturbedOutcome | internal/cloud/backend_common.go:490-540 | without an interruption or a report of the poller the outcome is nil exactly if the question worked and the keyword was typed |
| Confirm.DiscardOnlyIfNotTyped | internal/cloud/backend_common.go:510-533 | the run is discarded only if something else was typed |
| Confirm.CancelWins | internal/cloud/backend_common.go:491-503 | a cancellation before the answer is looked at is what confirm returns, whatever was typed |
| Confirm.CanceledRun | internal/cloud/backend_common.go:429-503 | a run in which the cancellation reaches both contexts and is returned |
| Confirm.ContextsEndOnce | internal/cloud/backend_common.go:430-436 | a context that has ended stays as it is, and the outside changes nothing else |
| Confirm.PollerReportsIff | internal/cloud/backend_common.go:446-484 | which reads of the run the poller reports, and as what |
| Confirm.NobodyBlocks | internal/cloud/backend_common.go:430-540 | no send waits for room; the poller always has a next step, and so has the prompt once the question is answered |
| Confirm.ReturnStopsPoller | internal/cloud/backend_common.go:429-540 | when confirm has returned, the poller has been told to stop or is leaving, unless the question failed |
| Confirm.FailedQuestionLeavesPoller | internal/cloud/backend_common.go:491-495 | a run in which the question fails and the poller is not told to stop |
| Confirm.EarlierReportWins | internal/cloud/backend_common.go:433-488 | an error the poller sends before the answer is what confirm returns |
| CloudApply.DecideApply | internal/cloud/backend_apply.go:98-200 | exactly when the operation goes on, and exactly when the approval call is made |
| CloudApply.ApprovalLeftOutIff | internal/cloud/backend_apply.go:164-200 | an operation goes on without the approval call exactly with the flag, or if somebody else approved while the question was open |
| CloudApply.InteractiveApplyNeedsYes | internal/cloud/backend_apply.go:165-200 | an interactive apply is approved only after "yes" was typed |
| CloudApply.CheckPolicy | internal/cloud/backend_common.go:312-427 | passes exactly when every check is cleared; makes the override call exactly for the soft failures it reaches that a flag or a confirmed answer allows, in order |
| CloudApply.InteractiveOverrideNeedsKeyword | internal/cloud/backend_common.go:385-417 | without the flag a check is overridden only after "override" was typed |
| CloudState.StateManager.WriteState | internal/cloud/state.go:165-187 | replaces the state, by none if none is given, resets the force-push flag and changes nothing else |
| CloudState.StateManager.RefreshState | internal/cloud/state.go:389-430 | copies the current snapshot into the fields, or clears them |
| CloudState.StateManager.PrepareUpload | internal/cloud/state.go:205-225 | the serial and lineage of the snapshot to upload |
| CloudState.StateManager.PersistState | internal/cloud/state.go:189-276 | the new fields and the new snapshots, for every answer of the world |
| CloudState.StateManager.LockState | internal/cloud/state.go:360-387 | takes the lock exactly when it is free |
| CloudState.StateManager.UnlockState | internal/cloud/state.go:467-522 | releases the lock only with the right identifier and no upload error |
| CloudState.LockCallsSucceedIff | internal/cloud/state.go:360-522 | lock and unlock report success exactly if they took or released the lock, or locks are disabled or a failed upload keeps the lock |
| CloudState.PersistSkipsIff | internal/cloud/state.go:197-204 | a persist in which nothing fails stores nothing exactly if what it would upload is what was read, with a lineage and a serial |
| CloudState.PersistWithoutStateLosesNextWrite | internal/cloud/state.go:197-273 | a written state that disappears |
| CloudState.SecondUnlockReleasesAnothersLock | internal/cloud/state.go:468-501 | a second unlock that releases another manager's lock |
| CloudState.SerialGrowsUnlessAtMaximum | internal/cloud/state.go:197-328 | for every manager, the stored serial exceeds the one read exactly when the counter is not behind it and not at 2^64 - 1 in the file, 2^63 - 1 as recorded |
| CloudProtocol.RunKeepsInv | internal/cloud/backend_context.go:54-71 | every interleaving of the managers keeps holder and snapshot in agreement |
| CloudProtocol.NoLostUpdate | internal/cloud/state.go:190-276 | each stored snapshot was based on the current one, keeps its lineage and holds what was last written; a manager that stored the absence of a state before stores the current snapshot again |
| CloudProtocol.NextWriteSurvivesIff | internal/cloud/state.go:197-273 | a write after an upload survives exactly if the upload had a state object or the write is empty too |
| CloudProtocol.UnlockTakesAnothersLockIff | internal/cloud/state.go:467-522 | in every reachable state, exactly when an unlock takes the lock that another manager holds |
| CloudProtocol.PersistStoresIff | internal/cloud/state.go:190-276 | a manager in agreement with the workspace stores exactly if nothing fails and the current snapshot is not the one it holds; the first snapshot has serial 1, others the next serial and the same lineage |
| CloudProtocol.PersistStoresOnce | internal/cloud/state.go:197-204 | right after a refresh, or after storing a state object, a persist stores nothing |
| CloudProtocol.FirstSerialIsOne | internal/cloud/state.go:217-224 | in every run the first stored snapshot has serial 1 |
| CloudProtocol.NothingIsForced | internal/cloud/state.go:165-175 | no snapshot of a run is uploaded with the force flag |
| CloudProtocol.OneLineageOneHolder | internal/cloud/state.go:217-224 | all snapshots share one lineage, and at most one manager is between lock and unlock |
| CloudProtocol.SerialsIncrease | internal/cloud/state.go:205-224 | in runs of at most 2^64 states the serials in the files strictly increase, except that a snapshot without state may be there twice in a row; in runs of at most 2^63 states the recorded serials are the same numbers |
| CloudProtocol.StoreRaisesSerialIff | internal/cloud/state.go:197-225 | in such a run a store raises the serial exactly if the manager has a state that it read or stored |
| CloudProtocol.SerialsIncreaseWithState | internal/cloud/state.go:205-224 | with a state object at every persist the serials strictly increase |
| CloudProtocol.FailedUploadKeepsWorkspaceLocked | internal/cloud/state.go:257-261 | after a persist of which only the upload failed, the workspace stays locked in every later state, all other managers are idle and no lock call succeeds |
| CloudProtocol.FailedUploadIsMarked | internal/cloud/state.go:257-261 | a persist marks the manager exactly if the upload is all that fails |
| CloudProtocol.UploadErrorKeepsWorkspaceLocked | internal/cloud/state.go:476-481 | the same from the mark on |
| CloudProtocol.UploadKeepsSyncIffStatePresent | internal/cloud/state.go:257-270 | an upload leaves manager and workspace in agreement exactly if there was a state object |
| Checks.CountStatuses | internal/checks/state.go:170-181 | the counters are positive exactly when the status occurs |
| Checks.CountSlots | internal/checks/state.go:211-227 | the same over all check types of an object |
| Checks.State.constructor | internal/checks/state.go:78-89 | everything declared, nothing known |
| Checks.State.AggregateCheckStatus | internal/checks/state.go:139-186 | Error, Fail, Unknown, Pass in this order of precedence over all slots |
| Checks.State.ObjectCheckStatus | internal/checks/state.go:188-229 | the same over the slots of one object |
| Checks.State.ReportCheckableObjects | internal/checks/state_report.go:17-58 | the first report fills the slots with Unknown, a later one does nothing, a wrong object is a panic |
| Checks.State.WriteResult | internal/checks/state_report.go:97-121 | writes one open slot; anything else is a panic that changes nothing |
| Checks.State.ReportCheckResult | internal/checks/state_report.go:60-75 | records one result |
| Checks.State.ReportCheckFailure | internal/checks/state_report.go:77-95 | records one failure and its message |
| Checks.ResultSetsSlot | internal/checks/state_report.go:97-121 | a result is accepted exactly for an open slot, and sets that slot to the reported status and no other |
| Checks.FailureRecordsMessage | internal/checks/state_report.go:77-95 | a failure sets its slot to Fail and records the given message under that rule only |
| Checks.ObjectsOpenSlots | internal/checks/state_report.go:17-58 | the first report of the objects opens every declared slot of each of them and changes nothing else |
| Checks.AggregateOnlyMovesUp | internal/checks/state_report.go:60-121 | over a run Pass and Error are final, Fail can only become Error, and nothing returns to Unknown |
| Checks.FailureMessagesStayTrue | internal/checks/state.go:231-274 | a recorded message belongs to a slot that is Fail and stays Fail |
| Checks.SlotsMatchDeclaration | internal/checks/state_report.go:38-57 | in every reachable state the slots match the declared counts |
| Checks.AggregateIsJoin | internal/checks/state.go:144-229 | the aggregate is the join of the object statuses |
| Checks.ObjectIsJoin | internal/checks/state.go:188-229 | the status of an object is the join of its slots |
| Checks.SecondObjectReportIsIgnored | internal/checks/state_report.go:32-36 | reporting the objects again changes nothing |

## Left out

- Sub-tries of the override trie are values inside one object, so sharing between nodes is not modelled; the diagnostics it returns are a single flag.
- CloudProtocol.SerialsIncrease: stated for runs of at most 2^64 states, because the 64-bit serial then wraps around.
- CloudProtocol.NoLostUpdate: for managers with locks enabled that lock, refresh, then write, persist and unlock with their own lock identifier; a forced unlock is not a step of the protocol.
- MoveOrdering.OrderDoesNotMatter: about the destination of each address; a move that is skipped because its destination is occupied is not modelled.
- Which characters are printable, which start and continue an identifier, and the Unicode normal form in which HCL keeps strings are parameters; `{` must be printable, the keywords must be identifiers, and normalising twice must be normalising once. Byte strings that are not valid UTF-8 are not modelled.
- The text reader of `AddressText` covers dotted names, whole-number indexes and quoted indexes; white space, comments and fractions in HCL traversals are not modelled.
- State migration, which is what sets the force-push flag, encryption, intermediate snapshots, and the upload fallback of the cloud state manager.
- Cost estimates, log rendering, task stages and back-off timing of the cloud backend; remote calls are reduced to their outcomes.
- Executing the move statements on a state, and the reduction and traversal of their graph.
- Diagnostics text and source ranges.
- Registry and remote source syntax, provider addresses, and the static parser of module addresses.
- The sorted list of failure messages of an object.
