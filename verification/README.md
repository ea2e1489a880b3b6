# A verified model of the echo SDK Host and protocol

The model covers the parts of the repository that are algorithms or protocols: the ownership of one
in-process Host connection, the public-API inventory and its accepted contract, the replay contract,
session publication, frame accounting, the scanner-log baseline, the facade tables, and two typed wire
codecs. Each part is proved on its own; `dafny verify dfyconfig.toml` checks all of them.

| file | what it models |
|---|---|
| `HostClose.dfy` | the Host close protocol as a step relation: shared memory plus one program counter per caller, actor and collector |
| `HostCloseInvariant.dfy` | what every step keeps |
| `HostCloseSafety.dfy` | what holds over whole runs |
| `HostCloseProgress.dfy` | no lost wakeup, no deadlock, bounded runs |
| `CleanupRetry.dfy` | the retry loop of the drop guard |
| `Publication.dfy` | publication admissions and the definition registry, as a class and under every interleaving |
| `FrameAccounting.dfy` | the frame byte counter over arbitrary reads |
| `Replay.dfy` | the replay page validator, and chains of accepted pages |
| `Reachability.dfy`, `InventoryWalk.dfy`, `InventoryRules.dfy`, `InventoryWalkEnds.dfy` | the depth-first walk over rustdoc documents, what it records told by the documents alone, and on which of them it ends |
| `ProfileMerge.dfy`, `AliasGroups.dfy`, `AcceptedScope.dfy`, `ShapeNormal.dfy` | merging profiles, alias groups, the accepted-scope delta, the normal form of shapes |
| `DenyBaseline.dfy` | the scanner-log parser against a declarative grammar, and the baseline comparison |
| `FacadeRoutes.dfy`, `FacadeCheckers.dfy`, `FacadeCatalog.dfy` | prefix routing, the two table checkers, the operation catalog |
| `WireValues.dfy`, `FailureCodec.dfy`, `EventCodec.dfy` | wire values and their JSON, the failure codec, the event codec |
| `Prelude.dfy`, `Sorting.dfy` | options, results, and sorting by a total order |

## Assumptions

- The Host protocol is sequentially consistent. A step is one atomic action; a caller is dropped only at
  an await, the actor is aborted only at a yield point, and the runtime outlives the owner. Framework
  close answers Ok or an error, in any order and as often as it is asked. Errors are tagged by the party
  that reports them, so that "a framework-close error" is a statement about origin and not about text.
- UUID tokens are fresh. A digest tells the shape it was computed from.
- Regular expressions are line classes, serde encodings and the routing rules of `resolve_route` are
  parameters, and the long literal tables of `facade.rs` and `catalog.rs` are parameters too, so what is
  proved about them holds for every table.

## What the proofs brought to light

- The inventory walk does not end on every input. A module that is entered under a name, and entered so
  again from within, makes the namespace grow without bound; named re-exports that lead back to
  themselves are followed for ever (`InventoryWalkEnds.UseCycleNeverEnds`). Nothing else keeps the walk from ending: cycles that come back to a
  module by glob re-exports are cut. It ends with a result if and only if no such cycle is in reach and
  no public node raises an error (`InventoryWalkEnds.WalkEndsExactly`); an error met before the cycle
  still ends it.
- The contract that an accepted delta produces is not always accepted when fed back: it is if and only
  if no two canonical entries share an accepted key (`AcceptedScope.FeedBackIsAccepted`, `AcceptedScope.SharedKeyIsRefused`).
- A replay gap may leave sequences between its `to` and its watermark neither delivered nor declared
  missing; exactly when the two differ (`Replay.GapDeclaresAllMissing`, `Replay.GapMayHideSequences`).
- The flat record spelling of an event loses a payload field named `event`, so a `tool_stream` that
  decodes as a variant is refused in it (`EventCodec.FlatDecodesExactly`, `EventCodec.FlatLosesToolStream`).
- The items of the facade catalog add up to its total if and only if no single route has more
  obligations than a 64-bit counter holds (`FacadeCatalog.ItemsAddUp`); in the language-facing catalog the
  field of the same name counts routes (`FacadeCatalog.FilterIsExact`).
- A family's route carries the family's own contract unless the last obligation that names the route is
  not one of the family's own (`FacadeCatalog.FamilyContractIsKept`).
- `family_for_source` depends on the order of the family table if and only if a prefix belongs to two
  families (`FacadeRoutes.ReorderingIsHarmless`, `FacadeRoutes.AmbiguityMakesOrderMatter`).

## Model

| member | source | states |
|---|---|---|
| HostCloseInvariant.InitInv | echo-sdk-host/src/lib.rs:125-127 | a new owner with any number of callers about to start satisfies the protocol invariant |
| HostCloseInvariant.StepKeepsInv | echo-sdk-host/src/lib.rs:129-309 | every enabled step of any party, drop, panic, abort and framework error included, keeps the invariant |
| HostCloseSafety.RunKeepsInv | echo-sdk-host/src/lib.rs:129-309 | the invariant holds in every state of every run |
| HostCloseSafety.RetainedAtMostOnce | echo-sdk-host/src/lib.rs:129-141 | at most one `retain` succeeds and the slot goes empty, full, empty at most once, never with a second handle |
| HostCloseSafety.CloseFencesRetain | echo-sdk-host/src/lib.rs:190-196 | a `close` that enters before any connection fences every later one |
| HostCloseSafety.ActorNeverStoppedEarly | echo-sdk-host/src/lib.rs:212-216 | the actor is told to stop only after framework close answered Ok in that run |
| HostCloseSafety.OnlyReleasingReleases | echo-sdk-host/src/lib.rs:197-221 | only a caller finishing `close` with the published result empties the slot; a failed or dropped close keeps the handle |
| HostCloseSafety.ReleaseIsJustified | echo-sdk-host/src/lib.rs:197-221 | a release comes after the collector published and after framework close answered Ok, or else in a run whose connection is never polled, before or after |
| HostCloseSafety.FrameworkCloseIsExclusive | echo-sdk-host/src/lib.rs:189-211 | framework close runs for one caller at a time, on the handle still retained, and only once the connection was polled |
| HostCloseSafety.ReturnMeansSettled | echo-sdk-host/src/lib.rs:184-223 | a `close` or `connect_owned` that returns anything but a framework-close error, a transport failure included, leaves no handle, no abort handle and no running actor, then or later, and nothing can attach any more |
| HostCloseSafety.ReturnedResultsAreReal | echo-sdk-host/src/lib.rs:306-308 | a connected caller returns its own framework-close error or exactly the one result the collector published, which never changes afterwards |
| HostCloseSafety.PublishedIsAnswered | echo-sdk-host/src/lib.rs:264-305 | the published result is the one the connection answered, or the actor failure of a panic or an abort, or Done for an actor that was told to stop; once one of these has happened no other result is published, and none of them is a framework-close error |
| HostCloseSafety.FrameworkErrorIsAnswered | echo-sdk-host/src/lib.rs:209-211 | a framework-close error that a caller returns is one that framework close gave to that very caller |
| HostCloseSafety.RetainedIsOwn | echo-sdk-host/src/lib.rs:129-141 | the retained handle is the one that the connecting caller came with |
| HostCloseSafety.RefusedExactly | echo-sdk-host/src/lib.rs:227-237 | a connecting caller is refused exactly when its first step finds no runtime, or an owner already attached or closed, with the error of that case |
| HostCloseProgress.NoLostWakeups | echo-sdk-host/src/lib.rs:143-182 | in none of the three wait loops does a party sleep once the flag is set and its notification has run; the never-polled branch never sleeps |
| HostCloseProgress.HolderStep | echo-sdk-host/src/lib.rs:189-221 | while someone holds the close gate the protocol owes a step, and it is not a drop, an abort or the end of a running connection |
| HostCloseProgress.NotStuck | echo-sdk-host/src/lib.rs:143-309 | while a caller is not through the protocol owes a step, unless that caller waits in `connect_owned` for a connection that is still running |
| HostCloseProgress.StuckMeansFinished | echo-sdk-host/src/lib.rs:143-309 | where no step is owed every caller has returned, been refused or been dropped, save those waiting for a running connection, and none of those is left once framework close has answered Ok |
| HostCloseProgress.StepLowersMeasure | echo-sdk-host/src/lib.rs:143-309 | every step of every party lowers one measure of the state |
| HostCloseProgress.RunsAreBounded | echo-sdk-host/src/lib.rs:143-309 | with n callers no schedule is longer than 27 n + 15 steps |
| CleanupRetry.RunCleanup | echo-sdk-host/src/lib.rs:353-390 | the k-th sleep is min(100 * 2^k, 1000) ms, it stops at the first success, and reports exactly the first, changed and power-of-two failures |
| CleanupRetry.ReportsAreLogarithmic | echo-sdk-host/src/lib.rs:374-384 | N failures with C changes are reported at least floor(log2 N) + 1 and at most floor(log2 N) + 1 + C times |
| CleanupRetry.ReportsAreExact | echo-sdk-host/src/lib.rs:370-384 | the reported attempts are, in order and once each, the first, those whose error is not the one before, and the powers of two that the counter can hold |
| CleanupRetry.DelaysReachTheCap | echo-sdk-host/src/lib.rs:366-387 | the delays are 100, 200, 400 and 800 ms, and one second from the fifth sleep on |
| Publication.CoreProfileSessionFactory.AssociatePublication | echo-sdk-host/src/factory.rs:300-327 | an occupied address is refused and nothing changes; a free one gets the entry and a guard that did not live before, and nothing else changes |
| Publication.CoreProfileSessionFactory.DropPublicationGuard | echo-sdk-host/src/factory.rs:196-209 | dropping a live guard removes exactly its own address; a guard that does not live removes nothing |
| Publication.CoreProfileSessionFactory.EnterPublicationFactory | echo-sdk-host/src/factory.rs:329-359 | refused exactly on a definition other than the entry's, without change; an observer comes out once, for the session and definition its token was issued for, and no other entry changes |
| Publication.CoreProfileSessionFactory.RegisterDefinition | echo-sdk-host/src/factory.rs:381-400 | accepted exactly when the id is registered afterwards, refused without change only at the limit; the default stays and at most max(1, limit) are held |
| Publication.CoreProfileSessionFactory.RemoveDefinition | echo-sdk-host/src/factory.rs:402-409 | removes exactly the id, and never the default |
| Publication.StepKeepsInv | echo-sdk-host/src/factory.rs:298-441 | every step of any interleaving keeps the admission invariant |
| Publication.GuardsMatchEntries | echo-sdk-host/src/factory.rs:187-194 | over every interleaving live guards and map entries are in bijection by token |
| Publication.GuardRemovesItsOwn | echo-sdk-host/src/factory.rs:196-209 | a dropped guard always finds its own entry and removes no other |
| Publication.AssociateIsExclusive | echo-sdk-host/src/factory.rs:298-327 | an occupied address is refused and nothing changes; a free one is taken and nothing else changes |
| Publication.ObserversRunOnce | echo-sdk-host/src/factory.rs:335-357 | an observer runs at most once, only for its own session and definition, and only in a call whose own steps found that definition registered and that observer waiting; the call builds if it succeeded and is refused otherwise |
| Publication.AdvanceExactly | echo-sdk-host/src/factory.rs:417-445 | one step of a call, told by the registry: where the call stands next, which definition it then has, which observer it took and what ran; no other call moves |
| Publication.BuildingMeans | echo-sdk-host/src/factory.rs:425-442 | over every interleaving a call that builds does so from its marker's own registered definition, or from the default if it has none; it entered where no other definition was awaited; and an observer waiting there ran for this call alone, once, and succeeded |
| Publication.OutcomeIsExact | echo-sdk-host/src/factory.rs:329-359 | a call is refused exactly when its own resolving, entering or observing step failed, and builds exactly when it entered with no observer to run or ran one that succeeded |
| Publication.RegisteredExactly | echo-sdk-host/src/factory.rs:381-409 | besides the default, the registered definitions are exactly those that a step registered and none removed since |
| Publication.HeldExactly | echo-sdk-host/src/factory.rs:298-327 | an address is held, under a token and for a definition, exactly from the step that associates them to the drop of that guard |
| Publication.CreatedBy | echo-sdk-host/src/factory.rs:417-429 | each call has the session and the marker of its own request |
| Publication.RegistryIsBounded | echo-sdk-host/src/factory.rs:284-296 | the default is never lost and at most max(1, limit) definitions are held |
| FrameAccounting.FrameAccountant.AccountRead | echo-sdk-host/src/bounded_stdio.rs:31-66 | one read advances the kept counter as the per-byte rule says, overflow included |
| FrameAccounting.CountingFrameReader.PollRead | echo-sdk-host/src/bounded_stdio.rs:88-115 | exactly the delivered bytes are counted; a rejected read delivers nothing; each of a pending read, a failed read, an end of input and a count beyond the buffer has its own answer |
| FrameAccounting.FramesPartition | echo-sdk-host/src/bounded_stdio.rs:32-64 | the frames of the specification lose no byte and end exactly at the newlines |
| FrameAccounting.ChunkingDoesNotMatter | echo-sdk-host/src/bounded_stdio.rs:69-76 | where the input is cut into reads makes no difference |
| FrameAccounting.AccountingIsExact | echo-sdk-host/src/bounded_stdio.rs:31-66 | for every split and every limit up to the largest u64, all reads pass if and only if every frame, newline included, and the trailing partial frame fit |
| FrameAccounting.PoisonedForever | echo-sdk-host/src/bounded_stdio.rs:42-62 | after a failed read every later non-empty read fails, through the saturated counter too |
| Replay.Validate | echo-sdk-protocol/src/event.rs:258-317 | accepts exactly the pages whose events are consecutive from their base, whose cursor is the last sequence, watermark or request, and whose gap starts after the request; the error of any other page is that of its identity, of its first bad event, or of its numbers |
| Replay.CursorNeverMovesBack | echo-sdk-protocol/src/event.rs:296-304 | along a chain the cursor never moves back, and strictly advances on a page with events or a gap |
| Replay.DeliveredIncreases | echo-sdk-protocol/src/event.rs:273-295 | over any chain the delivered sequences strictly increase, so nothing is delivered twice |
| Replay.DeliveredOrSkipped | echo-sdk-protocol/src/event.rs:258-317 | every sequence between the first request and the last cursor is delivered or below a page's snapshot watermark, never both |
| Replay.GapDeclaresAllMissing | echo-sdk-protocol/src/event.rs:328-347 | what a page does not deliver is all declared missing if and only if the gap reaches its watermark |
| Replay.GapMayHideSequences | echo-sdk-protocol/src/event.rs:328-347 | an accepted page that leaves a sequence neither delivered nor declared missing |
| InventoryWalk.WalkState.Push | echo-sdk-protocol/src/inventory.rs:427-456 | the records, path and shape of each, are added to those held, and the node counts as seen |
| InventoryWalk.WalkState.WalkModule | echo-sdk-protocol/src/inventory.rs:510-543 | wherever the walk ends, it ends in the state or with the error that the specification of the walk gives, which the next rows characterise |
| InventoryWalk.WalkState.WalkItem | echo-sdk-protocol/src/inventory.rs:545-727 | the same for an item or a re-export, through aliases and globs |
| InventoryWalk.WalkIsSound | echo-sdk-protocol/src/inventory.rs:510-727 | however far the walk goes, an error is one a public node raises, and an end leaves everything newly seen walked to the end, although modules still in progress are passed over |
| InventoryRules.StepsAreRules | echo-sdk-protocol/src/inventory.rs:510-727 | a node leads exactly to the nodes it nests, enters or re-exports: public visible children, named modules, targets of `use` under their alias, and modules of globs |
| InventoryRules.ErrorsAreFaults | echo-sdk-protocol/src/inventory.rs:510-727 | a node raises exactly the error of its own fault: the first missing child, a missing item, an unresolved glob, an item without a name or of an unsupported kind |
| InventoryRules.RecordsAreMade | echo-sdk-protocol/src/inventory.rs:545-727 | a node makes exactly the records of its own item, of the members below it, or the reference to an item that no document holds |
| InventoryRules.ExtractPublicItems | echo-sdk-protocol/src/inventory.rs:510-727 | on every input on which the walk ends, it succeeds exactly when no node in the closure of these rules is at fault, with the records that the nodes of the closure make, and otherwise fails with the error of such a node |
| InventoryWalkEnds.WalkComesToAnEnd | echo-sdk-protocol/src/inventory.rs:510-727 | the walk ends when every cycle in reach comes back to a module by glob re-exports in the same namespace; measure: modules still to be entered under a name, modules unvisited in the namespace, chain of named re-exports |
| InventoryWalkEnds.GrowthIsNeverDone | echo-sdk-protocol/src/inventory.rs:569-585 | for every graph, if a module entered under a name can be entered so again from within, no finite state of the walk is final |
| InventoryWalkEnds.UseCycleNeverEnds | echo-sdk-protocol/src/inventory.rs:689-701 | in every graph, wherever it stands and whatever it has gathered, the walk does not get through a named re-export that leads back to itself by re-exports: no depth of nested calls suffices |
| InventoryWalkEnds.WalkEndsExactly | echo-sdk-protocol/src/inventory.rs:510-727 | the walk ends with a result if and only if every cycle in reach is cut and no public node faults; where no public node faults it ends if and only if every cycle in reach is cut |
| InventoryWalkEnds.SelfNamedNeverEnds | echo-sdk-protocol/src/inventory.rs:689-701 | a root module that re-exports itself under a name is an input on which the walk never ends |
| InventoryWalkEnds.FaultBeforeCycleEnds | echo-sdk-protocol/src/inventory.rs:527-541 | an error in reach of a child of the root, without coming back to the root, ends the walk when no child up to that one has an uncut cycle in reach |
| ProfileMerge.MergeProfiles | echo-sdk-protocol/src/inventory.rs:1228-1269 | refused exactly when a path occurs with two kinds, else the pointwise union of the occurrences of each path |
| ProfileMerge.MergeIgnoresOrder | echo-sdk-protocol/src/inventory.rs:1228-1269 | the merge depends on neither the order nor the repetition of profiles and items |
| AliasGroups.ChooseCanonical | echo-sdk-protocol/src/inventory.rs:3222-3228 | the least member outside the re-export namespaces, or the least of all if there is none |
| AliasGroups.RecordAliases | echo-sdk-protocol/src/inventory.rs:3220-3236 | every kept path records the canonical member of its own group |
| AliasGroups.ListEntries | echo-sdk-protocol/src/inventory.rs:3208-3328 | the manifest's entries, in order, with their alias records and copied scopes |
| AliasGroups.OneCanonicalPerGroup | echo-sdk-protocol/src/inventory.rs:3208-3236 | each group of one identity and signature set has exactly one canonical entry, outside the re-export namespaces unless the whole group is inside |
| AliasGroups.CanonicalsDiffer | echo-sdk-protocol/src/inventory.rs:3208-3236 | no two canonical entries have one defining path and the same signatures |
| AliasGroups.KeptInOrder | echo-sdk-protocol/src/inventory.rs:3210-3213 | the entries that are kept are exactly those that are no derived trait implementation, in their old order |
| AliasGroups.AliasesReachCanonical | echo-sdk-protocol/src/inventory.rs:3317-3328 | an alias points in one step to the one canonical entry of its own group and has that entry's own scope; both have one defining path and the same signatures |
| AcceptedScope.ScopeIsExact | echo-sdk-protocol/src/inventory.rs:1940-1979 | which inputs get each of the five scopes, told by the source paths and the text of the whole route: acceptance outranks the testing namespace, then the reserved source, then the three language routes, the two host families and the one opaque resource route |
| AcceptedScope.ParityManifest.ApplyAcceptedSourceScope | echo-sdk-protocol/src/inventory.rs:1551-1648 | succeeds exactly on admissible deltas and rescopes every entry; otherwise leaves the manifest unchanged and names something that is wrong with the seed or the delta |
| AcceptedScope.ContractNames | echo-sdk-protocol/src/inventory.rs:1524-1535 | the contract read off a rescoped manifest names exactly the accepted keys |
| AcceptedScope.AcceptanceIsExact | echo-sdk-protocol/src/inventory.rs:1635-1646 | the produced contract has the keys (seed - retired) + added, and the number of keys is the seed's less the retired plus the added |
| AcceptedScope.FeedBackIsAccepted | echo-sdk-protocol/src/inventory.rs:1570-1582 | feeding the produced contract back with no delta is accepted if and only if no two canonical entries share an accepted key |
| AcceptedScope.SharedKeyIsRefused | echo-sdk-protocol/src/inventory.rs:1570-1592 | two canonical deferred entries of one key are an input on which feeding back fails |
| AcceptedScope.FeedBackChangesNothing | echo-sdk-protocol/src/inventory.rs:1635-1646 | and then it changes nothing |
| ShapeNormal.NormalizedIsNormal | echo-sdk-protocol/src/inventory.rs:1107-1148 | a normalized shape has no unstable key and no parameter name at any depth |
| ShapeNormal.NormalizeIsIdempotent | echo-sdk-protocol/src/inventory.rs:1107-1148 | normalizing twice is normalizing once |
| ShapeNormal.KeptExactly | echo-sdk-protocol/src/inventory.rs:1107-1148 | the normal form is the one shape that keeps every stable member under its own key, every array element at its place, every leaf, and of an `inputs` pair exactly the second component |
| DenyBaseline.ExactGroups | scripts/check-cargo-deny-baseline.py:29-77 | the loop over the lines computes the parse that the next rows characterise |
| DenyBaseline.LogsAreAccepted | scripts/check-cargo-deny-baseline.py:29-77 | every log of the grammar is accepted and yields its groups sorted by name |
| DenyBaseline.AcceptedIsLog | scripts/check-cargo-deny-baseline.py:29-77 | every accepted text is a log of the grammar, and the result is what its blocks list |
| DenyBaseline.OrderDoesNotMatter | scripts/check-cargo-deny-baseline.py:75-77 | the result does not depend on the order of the diagnostics |
| DenyBaseline.EntryOrderDoesNotMatter | scripts/check-cargo-deny-baseline.py:45-46 | nor on the order of the entries of one diagnostic |
| DenyBaseline.ComparisonIsMapEquality | scripts/check-cargo-deny-baseline.py:129-132 | the comparison holds if and only if the baseline repeats nothing and both map the same names to the same identity sets |
| FacadeRoutes.FamilyForSource | echo-sdk-protocol/src/facade.rs:2910-2929 | the family of the first declaration among the longest segment-aligned matches, none exactly when nothing matches |
| FacadeRoutes.MatchesBelow | echo-sdk-protocol/src/facade.rs:2913-2917 | a prefix matches exactly its own name and what lies below it after `::` |
| FacadeRoutes.LongestPrefixIsUnique | echo-sdk-protocol/src/facade.rs:2915-2925 | two matching prefixes of one length are the same string, so the deciding prefix is unique |
| FacadeRoutes.ReorderingIsHarmless | echo-sdk-protocol/src/facade.rs:2910-2929 | permuting the table changes no routing when no prefix belongs to two families |
| FacadeRoutes.AmbiguityMakesOrderMatter | echo-sdk-protocol/src/facade.rs:2919-2923 | when a prefix belongs to two families, two permutations route its own name differently |
| FacadeCheckers.ValidateFacadeRouteTable | echo-sdk-protocol/src/facade.rs:3731-3782 | reports exactly the violations of the table, and nothing exactly when the table is sound |
| FacadeCheckers.NoViolationIsSound | echo-sdk-protocol/src/facade.rs:3731-3782 | a table without violations has distinct families, distinct methods, and the catalog's methods exactly |
| FacadeCheckers.ValidateCatalog | echo-sdk-protocol/src/catalog.rs:587-635 | reports exactly the violations of the catalog; without any the names are distinct |
| FacadeCheckers.SlotsArePermutation | echo-sdk-protocol/src/facade.rs:3731-3782 | when both checkers pass, the families' method lists are a permutation of the catalog's names, of the same length |
| FacadeCatalog.BuildFacadeOperationCatalog | echo-sdk-protocol/src/facade.rs:3788-3998 | route ids strictly increase, and the routes are exactly the entries: of the last obligation that names the route, with its own handlers and with its own features and digests or those of its family, else of the family whose route it is, each with the number of obligations that name it; the family table and the number of obligations stand beside them |
| FacadeCatalog.EntriesAreExact | echo-sdk-protocol/src/facade.rs:3797-3967 | the same of any catalog: field by field, told by positions in the obligations and the family table |
| FacadeCatalog.ItemsAddUp | echo-sdk-protocol/src/facade.rs:3792-3796 | the items of all routes sum to the total if and only if no route's count exceeds a u64 |
| FacadeCatalog.FamilyRoutesExist | echo-sdk-protocol/src/facade.rs:3907-3970 | every family with operations and a method has exactly one family route, reached by an obligation or not |
| FacadeCatalog.FamilyContractIsKept | echo-sdk-protocol/src/facade.rs:3809-3967 | a catalog's entry under `family:<name>` carries the family's own features, encodings and operation signatures if and only if no obligation reaches it or the last one does so on the family surface for that family |
| FacadeCatalog.FilterIsExact | echo-sdk-protocol/src/facade.rs:4000-4026 | the language-facing filter keeps exactly the routes that are not intrinsic, in order, is idempotent, and its total is the number of routes |
| WireValues.WireValueToJson | echo-sdk-protocol/src/methods.rs:4173-4255 | succeeds exactly when every float is finite, every map key a string, and no map, record or variant repeats a key, with a JSON value that projects it; otherwise names the first fault |
| WireValues.ProjectsExactly | echo-sdk-protocol/src/methods.rs:4173-4255 | the projection of a value is the one JSON that has its leaves by kind, its lists by position, one member for each field or entry, and a variant's `event` and, unless empty, `data` |
| WireValues.MembersAreFields | echo-sdk-protocol/src/methods.rs:4213-4227 | each field's member of the projected object is the projection of that field |
| WireValues.MembersAreNames | echo-sdk-protocol/src/methods.rs:4213-4227 | the projected object has a member exactly for the names of its fields |
| WireValues.MapsAreRecords | echo-sdk-protocol/src/methods.rs:4198-4227 | a map projects like the record of its entries |
| EventCodec.FromWireValue | echo-sdk-protocol/src/methods.rs:4000-4161 | decodes exactly the values whose spelling, names and fields are well formed and whose object, told by its members, the derived deserializer accepts, to the event it yields |
| EventCodec.ToObject | echo-sdk-protocol/src/methods.rs:4000-4161 | up to that deserializer: the object of the payload, exactly for the well-formed spellings |
| EventCodec.MeaningIsExact | echo-sdk-protocol/src/methods.rs:4084-4103 | that object is the one with the event's name, and one member for each payload field: a typed wire value as it is, any other one projected |
| EventCodec.PayloadFields | echo-sdk-protocol/src/methods.rs:4107-4161 | refused exactly for an unknown event, or for the first field that is not the event's own, which the error names |
| EventCodec.ReadPayload | echo-sdk-protocol/src/methods.rs:4001-4055 | the loops over the fields read a payload exactly when the value spells one, and that one |
| EventCodec.PayloadIsSpelled | echo-sdk-protocol/src/methods.rs:4001-4055 | filtering and appending give the payload that the positions of the fields define |
| EventCodec.NestedSpellingsAgree | echo-sdk-protocol/src/methods.rs:4002-4049 | the variant and the record with nested record, variant or map data, in either order, decode alike for every payload |
| EventCodec.FlatSpellingAgrees | echo-sdk-protocol/src/methods.rs:4015-4020 | the flat record decodes like the variant when no payload field is named `event` or `data` |
| EventCodec.FlatAgreesExactly | echo-sdk-protocol/src/methods.rs:4015-4020 | for a well-formed payload the flat record hands the same object to the deserializer if and only if no field is named `event`, which only `tool_stream` has |
| EventCodec.FlatDecodesExactly | echo-sdk-protocol/src/methods.rs:4015-4020 | for every value that decodes as a variant the flat record decodes to the same event if and only if no field is named `event`, and otherwise does not decode at all, provided that a `tool_stream` needs its declared `event` |
| EventCodec.FlatLosesToolStream | echo-sdk-protocol/src/methods.rs:4015-4020 | a complete `tool_stream` progress event that is decoded as a variant and refused as a flat record |
| EventCodec.OrderDoesNotMatter | echo-sdk-protocol/src/methods.rs:4084-4101 | the order of the payload fields does not matter |
| FailureCodec.FromFields | echo-sdk-protocol/src/error.rs:456-509 | decodes exactly the field lists that denote a failure, to that failure; the error of any other names something that is wrong with it |
| FailureCodec.FromWireValue | echo-sdk-protocol/src/error.rs:428-454 | the same for values: a record of the right type or a map with string keys |
| FailureCodec.DecimalRoundTrip | echo-sdk-protocol/src/scalar.rs:15-29 | the decimal text of a 64-bit number parses back to it |
| FailureCodec.ParsesExactly | echo-sdk-protocol/src/scalar.rs:26-28 | a text parses exactly to the 64-bit number that it spells in decimal, after zeros and a plus sign if any |
| FailureCodec.RoundTrip | echo-sdk-protocol/src/error.rs:511-546 | decoding an encoded failure yields the failure and nothing else |
| FailureCodec.DecodingIsUnique | echo-sdk-protocol/src/error.rs:428-509 | a value decodes to at most one failure |
| FailureCodec.OrderDoesNotMatter | echo-sdk-protocol/src/error.rs:456-509 | decoding does not depend on the order of the fields |
| FailureCodec.SpellingDoesNotMatter | echo-sdk-protocol/src/error.rs:428-454 | the record and the map spelling of the same fields decode alike |
| FailureCodec.DecodesExactly | echo-sdk-protocol/src/error.rs:456-509 | decoding succeeds exactly on allowed and distinct names, well-typed required fields, and a status that is absent, null or within 16 bits |

## Left out

- Tokio, the Agent Client Protocol transport, stdio, subprocesses, files and model calls: steps that may answer anything, or inputs.
- Weak memory ordering, and a runtime that is torn down before the owner.
- The `#[cfg(test)]` hooks of `lib.rs`, and the message texts of errors.
- HostClose.Connects: the steps of the protocol are functions without a contract of their own meaning; the lemmas over runs say what they amount to. `retain` is one step, since its flag and slot change under one lock; the abort handle is kept as a flag only.
- InventoryRules.ExtractPublicItems: an item's own members (fields, variants, methods) are one list per item; required features, item kinds and source paths are not kept; `finish` and its digest suffixes are not modelled.
- InventoryWalkEnds.WalkEndsExactly: where an uncut cycle and an error are both in reach, the walk may end with the error; `FaultBeforeCycleEnds` says when it surely does, but not every such case is characterised.
- InventoryWalk.WalkState.Push: the kind, source path and required features of a record are not kept.
- InventoryWalk.WalkState.WalkItem: stated against the walk of the specification; what a node makes, leads to and raises is in `InventoryRules`.
- AliasGroups.ListEntries: the classification, features, languages and route of an entry are not modelled; the route enters as a field, and aliases need not share it.
- AcceptedScope.ParityManifest.ApplyAcceptedSourceScope: deltas are sequences, which the source keeps as ordered sets; message texts become constructors.
- Replay.Validate: the other field checks of an event are one flag, and its numbers are 64-bit integers rather than decimal text.
- Publication.CoreProfileSessionFactory.EnterPublicationFactory: an observer is a one-shot mark; whether it fails is a choice of the step that runs it.
- DenyBaseline.ExactGroups: lines arrive classified; decoding, the receipt checks, `normalized_command` and the lock-file check are left out.
- FacadeCatalog.BuildFacadeOperationCatalog: the wire schema and the digest of an operation are the pair of names they are functions of; the filter takes well-formed catalogs only.
- WireValues.WireValueToJson: the encodings of bytes, durations, timestamps, paths, handles and unknown values are one total function.
- EventCodec.FromWireValue: the derived deserializer of events is a parameter; only a `tool_stream` progress event is spelled out.
- `validate` methods of wire values and their size limits, and the modules that only declare wire structures or fixed enumerations.
