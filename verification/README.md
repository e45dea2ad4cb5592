# Verification of the Superi public API core

A Dafny 4.11 model of the logic at the heart of `superi-api`, with proofs of what its parts promise
together. `dafny verify dfyconfig.toml` checks all of it.

## What is modelled

**The event broker.** `EventStream.EventStreamApi` is the bounded queue with caller-held cursors, as a
class. `StreamModel` is the same stream as its full published history. Each class operation is proved
to act on the history as its specification says, so everything about runs is proved once, on the
history. `Delivery` runs any number of subscribers against it: exact slices, independence of
subscribers, the pace that never gaps (and that it is tight), and the exact number of polls to catch
up. `StreamLaws` says what each operation answers without the functions that compute it. `Convergence`
adds a client that applies full-replacement events, saves its cursor, crashes, retries, and recovers
through the manifest while the server publishes, evicts, restarts, and drops registrations.

**The permission engine.** `Paths` is the lexical parser for project, Unix, Windows drive, and UNC
targets. `PathLaws` proves parser and printer inverse to each other, `Scopes` proves containment, the
reading of scope matching as string prefix at a slash, and the partial order, and `Spellings` proves
independence of spelling. `Survivors` reads the resolved names off the segments themselves.
`Permissions` proves the evaluator against its declarative meaning and says when a delegation may
shrink, and `PolicyLaws` says which rules and requirements exist. `ProjectCommands` shows a compound
command is authorized exactly when each action is, and `CommandAuthority` what each action demands.

**Smaller owners.** `CommandLog` (retention on append and the paged cursor query), `Negotiation` over
the semantic versions of `Settings`, `Synchronizers` (snapshot owners that emit events) with
`MediaDelivery` (the media owner feeding the broker, up to what subscribers receive), `Schema` (canonical
catalog), and `Extensions` (registry validation and the capability chain). `CommandLogLaws`,
`Precedence`, `Names`, `CatalogLaws`, and `RegistryLaws` say for these which inputs are accepted and what
is shown, in terms of whole values.

`Core`, `Orders`, `Text`, `Rounding`, and `Replay` hold machine integers, strict orders with ordered sets
and binary search, splitting and joining of strings, division rounded up, and cursor filtering.

## Reading notes

- 64-bit sequences are a subset type; saturating and checked addition are written out.
- Characters are Unicode scalar values. Byte order of UTF-8 and scalar order agree, and the byte tests
  of the source only ever look at ASCII, so they are stated on characters.
- Ordered sets are strictly sorted sequences. Derived orders of multi-field values are lexicographic
  orders of their fields rendered as strings.
- A poll is capped by its batch limit, so where the documentation of the broker speaks of a complete
  suffix, the model states the next contiguous slice. The documentation counts eleven resources in the
  recovery manifest; the code lists twelve, and the model follows the code.
- Three manifest resources (`superi.editor.state`, `superi.engine.integration.validation`,
  `superi.project.command_log`) are replaced by no event. Convergence is therefore proved for exactly
  the other nine, and `Convergence.QuietChangesAreMissed` shows why it cannot extend to those three.
- Asking for fewer delegated capabilities can turn a grant into a denial, because a deny rule with a
  ceiling covers only requests inside it. `Permissions.ShrinkingKeepsGrantIff` gives the exact condition.
- Server state of an event-borne resource means its latest published event.

## Model

| member | source | states |
|---|---|---|
| `EventStream.EventStreamApi.constructor` | open/crates/superi-api/src/event_stream.rs:1400-1408 | A new stream is valid and equals the empty history with no subscriptions. |
| `EventStream.EventStreamApi.Open` | open/crates/superi-api/src/event_stream.rs:1427-1462 | Registers an identity once and within the bound, or fails with conflict or exhaustion and changes nothing; the cursor handed out is the end of the history or the end of its evicted part. |
| `EventStream.EventStreamApi.Close` | open/crates/superi-api/src/event_stream.rs:1465-1490 | Removes exactly one registration, keeps the queue and history, and distinguishes a changed stream from an unknown identity. |
| `EventStream.EventStreamApi.EvictOldest` | open/crates/superi-api/src/event_stream.rs:1509-1513 | The popping loop leaves the last `retained_events` records of the queue, in order. |
| `EventStream.EventStreamApi.Publish` | open/crates/superi-api/src/event_stream.rs:1493-1515 | The bounded queue refines the unbounded history: a valid event is appended under the next sequence, and the only failures are an invalid event or an exhausted sequence, which change nothing. |
| `EventStream.EventStreamApi.Poll` | open/crates/superi-api/src/event_stream.rs:1526-1581 | Filtering the bounded queue answers exactly as the full history would: a gap precisely when the next record was evicted (saturation never matters), otherwise the next slice. |
| `EventStream.EventStreamApi.NextBatch` | open/crates/superi-api/src/event_stream.rs:1562-1580 | The filtered and capped records are the contiguous history slice after the cursor, and the through sequence is its end. |
| `EventStream.EventStreamApi.Gap` | open/crates/superi-api/src/event_stream.rs:1599-1617 | A gap names both stream identities, the oldest retained and latest sequences, and the latest as reset barrier. |
| `EventStream.EventStreamApi.Snapshot` | open/crates/superi-api/src/event_stream.rs:1412-1424 | The control snapshot shows the retained window; both counts stay within the defensive bound. |
| `EventStream.EventStreamApi.OldestSequence` | open/crates/superi-api/src/event_stream.rs:1595-1597 | The front of the queue carries the first sequence that is not evicted. |
| `EventStream.EventStreamApi.NextSequence` | open/crates/superi-api/src/event_stream.rs:1583-1593 | Sequences continue the history and fail only at the end of the 64-bit space. |
| `EventStream.QueueAfterPublish` | open/crates/superi-api/src/event_stream.rs:1506-1513 | Push then trim keeps the queue the retained suffix of the history. |
| `EventStream.SuffixOfQueue` | open/crates/superi-api/src/event_stream.rs:1564-1573 | Filtering the retained suffix past a served cursor and capping it yields the history slice after the cursor. |
| `Replay.AfterDropsPrefix` | open/crates/superi-api/src/event_stream.rs:1564-1570 | Filtering a queue split at a cursor returns exactly its upper part. |
| `StreamLaws.PollDecides` | open/crates/superi-api/src/event_stream.rs:1526-1617 | A poll fails for an unknown subscription or future cursor, reports a fully described gap for another stream or an evicted record, and otherwise hands out exactly the records after the cursor: the least of what there is, what was asked for, and what the stream allows in one batch. |
| `StreamLaws.SnapshotShowsWindow` | open/crates/superi-api/src/event_stream.rs:1412-1424 | The oldest retained sequence is the first of the last `retained_events`, and the counts are those of the window and the registry. |
| `StreamLaws.OpenDecides` | open/crates/superi-api/src/event_stream.rs:1427-1462 | Opening adds exactly the identity, is refused for a registered one or at the bound, and skips everything published or nothing retained, as asked. |
| `StreamLaws.CloseDecides` | open/crates/superi-api/src/event_stream.rs:1465-1490 | Closing removes exactly the identity, refuses a changed stream or an unknown identity, and is undone by opening again. |
| `StreamLaws.PublishDecides` | open/crates/superi-api/src/event_stream.rs:1493-1515 | Publishing appends exactly one record of this stream and event under the next sequence, or changes nothing. |
| `PublicEvents.ManifestListsEveryEvent` | open/crates/superi-api/src/event_stream.rs:542-635 | The exact refresh descriptor of every event variant is in the recovery manifest. |
| `PublicEvents.ManifestIsEventsAndThreeOthers` | open/crates/superi-api/src/event_stream.rs:261-336 | A manifest entry is either the resource of some valid event or one of three named resources that no event carries. |
| `PublicEvents.RecordMetadataDescribesSnapshot` | open/crates/superi-api/src/event_stream.rs:854-869 | A valid record's schema versions and revisions are those of its own snapshot, and its metadata is determined by its event. |
| `PublicEvents.EventIsValidIff` | open/crates/superi-api/src/event_stream.rs:637-755 | An event is valid if and only if its metadata is its own snapshot's and a causing command is fully identified. |
| `PublicEvents.EventsCorrelate` | open/crates/superi-api/src/event_stream.rs:494-539 | Events correlate with the command that caused them, field by field, or with the observed revision. |
| `PublicEvents.NamesFollowResources` | open/crates/superi-api/src/event_stream.rs:463-476 | An event is named after the resource it replaces, except that history is announced as project state. |
| `PublicEvents.MethodsFollowResources` | open/crates/superi-api/src/event_stream.rs:542-635 | Replaced resources are refreshed by their own query, history and scenario by their command. |
| `Delivery.DeliveryIsExact` | open/crates/superi-api/src/event_stream.rs:1427-1581 | In every interleaving of publishes, opens, closes, and polls, what each subscriber received is a list of contiguous slices of the published history that never overlap, and the cursor ends the last one. |
| `Delivery.NothingIsDeliveredTwice` | open/crates/superi-api/src/event_stream.rs:1562-1580 | Within and across gaps, records reach one subscription in strictly increasing sequence. |
| `Delivery.ReceivingIsExact` | open/crates/superi-api/src/event_stream.rs:1526-1581 | One poll answer extends the last slice or starts a new one at the reset barrier, keeping exactness. |
| `Delivery.HistoryIsAuthentic` | open/crates/superi-api/src/event_stream.rs:1493-1515 | In every reachable history each record is the one built from its own valid event under this stream. |
| `Delivery.OthersAreInvisible` | open/crates/superi-api/src/event_stream.rs:1427-1581 | A subscriber never crowded out of the registry sees exactly what it would see alone: erasing all others and their steps changes nothing for it or the history. |
| `Delivery.OwnStepAgrees` | open/crates/superi-api/src/event_stream.rs:1437-1447 | A subscriber's own step depends on the others exactly when it opens while one registry is full and the other is not. |
| `Delivery.GapIffNextRecordEvicted` | open/crates/superi-api/src/event_stream.rs:1543-1560 | For a registered cursor within the stream, a gap is reported if and only if no retained record carries the next sequence. |
| `Delivery.ReplayIsStable` | open/crates/superi-api/src/event_stream.rs:1526-1581 | Across any intervening steps, an answer to the same query that is again a batch extends the earlier batch. |
| `Delivery.PacedSubscriberNeverGaps` | open/crates/superi-api/src/event_stream.rs:1543-1573 | Lag at most retention minus batch, and at most one batch of publishes between polls, means no gap over unbounded runs. |
| `Delivery.PollWithoutGap` | open/crates/superi-api/src/event_stream.rs:1551-1573 | A lag within retention is served: the cursor advances by the effective batch or to the end. |
| `Delivery.PaceBoundIsTight` | open/crates/superi-api/src/event_stream.rs:1551-1560 | With one more record of starting lag, the same pace forces a gap. |
| `Delivery.DrainReachesTheEnd` | open/crates/superi-api/src/event_stream.rs:1562-1580 | Without publishes, polls from a servable cursor concatenate to the rest of the history in exactly ceil(lag / batch) nonempty answers. |
| `Delivery.HandedOutCursorsAreServable` | open/crates/superi-api/src/event_stream.rs:1449-1462 | Both start policies and every reset barrier yield cursors that can be served without a gap. |
| `Convergence.DrainedClientHasConverged` | open/crates/superi-api/src/event_stream.rs:542-635 | After any run with evictions, restarts, lost registrations, retries, crashes, and refreshes taken at any moments, a drained client holds the server's current state of every resource that events replace. |
| `Convergence.StepIsSafe` | open/crates/superi-api/src/event_stream.rs:1493-1617 | Every single step of server, environment, or client keeps the convergence invariant. |
| `Convergence.AppendKeepsSettled` | open/crates/superi-api/src/event_stream.rs:1506-1508 | One more published record keeps settled cursors settled, because its own resource now has an event coming. |
| `Convergence.ApplyKeepsSettled` | open/crates/superi-api/src/event_stream.rs:342-348 | Applying one full-replacement record settles the cursor one record further. |
| `Convergence.PollIsSafe` | open/crates/superi-api/src/event_stream.rs:1526-1617 | A batch is the next slice after the saved cursor; a gap makes every tracked resource stale until refreshed. |
| `Convergence.ClientCanAlwaysConverge` | open/crates/superi-api/src/event_stream.rs:1599-1617 | From any reachable world with room to register, the client's own open, refresh, and resume steps lead to convergence. |
| `Convergence.FollowerCatchesUp` | open/crates/superi-api/src/event_stream.rs:1562-1580 | A registered client within retention converges by polling, applying, and saving alone, in exactly ceil(lag / batch) polls. |
| `Convergence.QuietChangesAreMissed` | open/crates/superi-api/src/event_stream.rs:267-278 | A change to a manifest resource without an event leaves a drained client drained and stale. |
| `Paths.NormalizeRelativeComponents` | open/crates/superi-api/src/permissions.rs:857-890 | The push and pop loop computes the recursive resolution of the split path, with the same rejections. |
| `Paths.NormalizeAbsoluteComponents` | open/crates/superi-api/src/permissions.rs:973-997 | The same for segments below an absolute root, with optional ASCII folding. |
| `PathLaws.ParseOfPrint` | open/crates/superi-api/src/permissions.rs:905-970 | For all four root forms, parsing a canonical spelling returns exactly the root and components it prints. |
| `PathLaws.ParseIsCanonical` | open/crates/superi-api/src/permissions.rs:857-997 | Whatever the parser accepts has canonical components (never empty, `.` or `..`) and carries its own printed form. |
| `PathLaws.CanonicalIsFixed` | open/crates/superi-api/src/permissions.rs:208-221 | Reparsing the canonical string of any accepted path changes nothing. |
| `PathLaws.ConstructorsBuildValidPaths` | open/crates/superi-api/src/permissions.rs:162-188 | Every path built by a constructor passes its own validation. |
| `PathLaws.ValidPathsAreTheCanonicalOnes` | open/crates/superi-api/src/permissions.rs:223-235 | Valid path values are in correspondence with canonical roots and components. |
| `PathLaws.NativeKeepsCanonicalText` | open/crates/superi-api/src/permissions.rs:179-188 | Canonical absolute text keeps its meaning under host classification; canonical relative text does if and only if the host does not read it as absolute. |
| `PathLaws.NativeReadsDriveAsAbsolute` | open/crates/superi-api/src/permissions.rs:999-1012 | A relative path whose first name is a letter and a colon is read as a drive on Windows. |
| `PathLaws.NativeMisreadsOnePath` | open/crates/superi-api/src/permissions.rs:999-1012 | `c:/x` is a valid relative path that Windows classifies as `C:/x`. |
| `PathLaws.OnlyDrivesAreMisread` | open/crates/superi-api/src/permissions.rs:999-1012 | The valid relative texts that a host reads as absolute are exactly the drive-like ones on Windows. |
| `PathLaws.NativeSeparatorsAreEqual` | open/crates/superi-api/src/permissions.rs:179-188 | A Windows host path means the same with backslashes as with slashes, except that one of each at the very start is always refused. |
| `PathLaws.ExtendResolves` | open/crates/superi-api/src/permissions.rs:857-997 | Text after a slash resolves on top of the accepted components, whatever the root form. |
| `PathLaws.ResolveOnBase` | open/crates/superi-api/src/permissions.rs:983-993 | Segments that resolve on their own never pop below whatever they are placed on. |
| `PathLaws.ResolveConcat` | open/crates/superi-api/src/permissions.rs:983-993 | Resolving a concatenation is resolving its parts in turn. |
| `PathLaws.ResolveThenFold` | open/crates/superi-api/src/permissions.rs:994-995 | Folding while resolving equals resolving first and folding the outcome. |
| `Scopes.Containment` | open/crates/superi-api/src/permissions.rs:263-277 | An accepted relative path below any accepted root lands on the root's components followed by its own; the recursive scope matches and the exact scope does not. |
| `Scopes.MatchingIsBoundaryPrefix` | open/crates/superi-api/src/permissions.rs:263-277 | On valid paths, recursive matching is string prefix at a slash boundary and exact matching is equality. |
| `Scopes.CoveringIsAPartialOrder` | open/crates/superi-api/src/permissions.rs:263-277 | Recursive coverage of valid paths is reflexive, antisymmetric, and transitive, and exact matching implies it. |
| `Spellings.WindowsSpellingIsIrrelevant` | open/crates/superi-api/src/permissions.rs:925-970 | Windows spellings that differ in separators and ASCII case are the same target for every scope. |
| `Spellings.SpelledPathIsNamed` | open/crates/superi-api/src/permissions.rs:857-970 | Under every root form, what a path names is decided by what its segments resolve to. |
| `Spellings.NeutralSegmentsResolve` | open/crates/superi-api/src/permissions.rs:983-993 | Segments that resolve to nothing can be dropped between any others without changing the resolution. |
| `Spellings.NeutralSegmentsVanish` | open/crates/superi-api/src/permissions.rs:857-997 | Segments that resolve to nothing can be spliced in anywhere, front and end included, under all four root forms, with the same target and the same scopes; the exact exception is a relative text that gains or loses a leading slash. |
| `Spellings.AcceptedPathIsSpelled` | open/crates/superi-api/src/permissions.rs:857-970 | Every accepted path is a root form followed by segments, so the splicing law covers all of them. |
| `Survivors.ResolutionIsSurvival` | open/crates/superi-api/src/permissions.rs:983-995 | Resolution fails if and only if some prefix holds more `..` than names, and otherwise leaves exactly the names whose later `..` segments never outnumber the names from them on, in order. |
| `Survivors.UpUndoesName` | open/crates/superi-api/src/permissions.rs:871-879 | `..` removes exactly the name right before it. |
| `Survivors.UpCancelsName` | open/crates/superi-api/src/permissions.rs:857-997 | Under every root form a path with a name and `..` somewhere names what the path without them names; the exact exception is a relative text that begins with a slash once they are gone. |
| `Survivors.AcceptedPathNamesSurvivors` | open/crates/superi-api/src/permissions.rs:857-997 | Every accepted path names exactly its own surviving names, folded on Windows. |
| `Survivors.AcceptanceIsStayingBelow` | open/crates/superi-api/src/permissions.rs:857-997 | A spelled path is accepted if and only if it never goes above its root and, if relative, names something and begins with no slash. |
| `Permissions.Evaluate` | open/crates/superi-api/src/permissions.rs:798-813 | The rule loop with its early return decides: some rule allows and none denies. |
| `Permissions.EvaluateAll` | open/crates/superi-api/src/permissions.rs:797-813 | The requirement loop with its early return decides: every requirement is granted. |
| `Permissions.Authorize` | open/crates/superi-api/src/permissions.rs:791-815 | Succeeds exactly when every requirement is granted; noncanonical requirements are invalid input and everything else is permission denied. |
| `Permissions.BuiltInputsAreDecided` | open/crates/superi-api/src/permissions.rs:519-525 | With a context and requirements from their constructors, the outcome is success exactly when everything given is granted, and denial otherwise. |
| `Permissions.MatchingIsApplying` | open/crates/superi-api/src/permissions.rs:708-749 | For valid rules and requirements, matching never fails and means declarative coverage: slash-boundary paths, plugin identity, capability subset. |
| `Permissions.ContainsAllIsSubset` | open/crates/superi-api/src/permissions.rs:1056-1060 | Binary search over a canonical ceiling is set inclusion. |
| `Permissions.BuiltRequirementsAreValid` | open/crates/superi-api/src/permissions.rs:519-560 | A requirement set is built exactly when all members are valid, holds the same members, and passes its own validation. |
| `Permissions.RequirementsIgnoreOrderAndRepeats` | open/crates/superi-api/src/permissions.rs:519-525 | Order and multiplicity of the given requirements never matter. |
| `Permissions.RequirementLessIsTotal` | open/crates/superi-api/src/permissions.rs:404-421 | The derived order of requirements is a strict total order. |
| `Permissions.BuiltRequirementIsValid` | open/crates/superi-api/src/permissions.rs:423-468 | Every requirement constructor yields a requirement that validates; a filesystem requirement does exactly for a valid target, which every path constructor builds. |
| `Permissions.DecisionIgnoresOrder` | open/crates/superi-api/src/permissions.rs:791-815 | Permuting or repeating rules or requirements changes no decision. |
| `Permissions.RulesAreMonotone` | open/crates/superi-api/src/permissions.rs:797-811 | Adding an allow rule never revokes and adding a deny rule never grants. |
| `Permissions.DecisionSplits` | open/crates/superi-api/src/permissions.rs:797-813 | A combined requirement set is granted exactly when both parts are. |
| `Permissions.DefaultDeniesEverything` | open/crates/superi-api/src/permissions.rs:818-826 | Without rules exactly the empty requirement set is granted. |
| `Permissions.ShrinkingKeepsGrantIff` | open/crates/superi-api/src/permissions.rs:736-739 | A subset of a granted delegation stays granted if and only if no deny rule for the plugin has a ceiling that holds all of it. |
| `Permissions.GrantsShrinkIffNoDenyCeiling` | open/crates/superi-api/src/permissions.rs:736-739 | Where a plugin's delegation is granted at all, its grants are closed under shrinking if and only if no deny rule with a ceiling matches it. |
| `Permissions.ShrinkingDelegationCanDeny` | open/crates/superi-api/src/permissions.rs:736-739 | A concrete valid context that grants a valid delegation and denies a smaller valid one. |
| `Permissions.RecursiveAllowGrantsDescendants` | open/crates/superi-api/src/permissions.rs:708-811 | A recursive allow rule without deny rules for the access grants every target named below its root. |
| `PolicyLaws.ContextAcceptedIff` | open/crates/superi-api/src/permissions.rs:761-776 | A context is built exactly for a canonical principal and good rules, and holds them as given. |
| `PolicyLaws.CanonicalCapabilitiesMeaning` | open/crates/superi-api/src/permissions.rs:1014-1025 | Capability lists are accepted exactly when all names are canonical, and become the same names in strict order. |
| `PolicyLaws.RuleAcceptedIff` | open/crates/superi-api/src/permissions.rs:673-706 | Rules validate if and only if their scopes are canonical, and only delegation rules carry a ceiling, an ordered set of names that an allowing one must have. |
| `PolicyLaws.PluginRulesAreTheBuiltOnes` | open/crates/superi-api/src/permissions.rs:602-649 | The plugin rules that validate are exactly those that the three rule constructors build. |
| `PolicyLaws.FilesystemRuleCovers` | open/crates/superi-api/src/permissions.rs:708-716 | A filesystem rule covers its own access at its own target, or at its root continued by further components. |
| `PolicyLaws.PluginRuleCovers` | open/crates/superi-api/src/permissions.rs:717-742 | A plugin rule covers its own operation for its own plugins; a delegation must lie within the ceiling, and without one everything is denied. |
| `PolicyLaws.OtherRulesCover` | open/crates/superi-api/src/permissions.rs:743-748 | A destructive rule covers its own operation, and no rule covers a requirement of another kind. |
| `PolicyLaws.DecisionIsCoverage` | open/crates/superi-api/src/permissions.rs:797-813 | One valid requirement is granted exactly when some allow rule covers it and no deny rule does. |
| `PolicyLaws.RequirementAcceptedIff` | open/crates/superi-api/src/permissions.rs:488-511 | Requirements validate if and only if targets are canonical, identities are names, and only delegations carry names, as an ordered set. |
| `PolicyLaws.PluginRequirementIsAsAsked` | open/crates/superi-api/src/permissions.rs:431-447 | A plugin requirement is built for exactly the operation and identity asked for, and covered exactly by rules for both. |
| `PolicyLaws.OrderIsDeclared` | open/crates/superi-api/src/permissions.rs:404-421 | Requirements stand in the order in which kinds, operations, and fields are declared. |
| `PolicyLaws.RequirementSetsAreOrdered` | open/crates/superi-api/src/permissions.rs:519-560 | The valid requirement sets are exactly the strictly ordered lists of good requirements. |
| `ProjectCommands.PermissionRequirements` | open/crates/superi-api/src/editor.rs:143-152 | The growing vector over all actions, canonicalized at the end, equals the recursive derivation. |
| `ProjectCommands.AppendExtension` | open/crates/superi-api/src/editor.rs:3272-3315 | Pushing the state, lifecycle, and delegation requirements one by one appends what the mutation requires, or stops at the first malformed identity. |
| `ProjectCommands.AppendAction` | open/crates/superi-api/src/editor.rs:4179-4214 | Appends exactly what the action alone requires, or fails as it fails. |
| `ProjectCommands.AppendSource` | open/crates/superi-api/src/editor.rs:2861-2872 | One read requirement per source path, stopping at the first malformed path. |
| `ProjectCommands.AppendImport` | open/crates/superi-api/src/editor.rs:4195-4199 | All imported items contribute in order, and the first malformed path anywhere stops the import. |
| `ProjectCommands.AuthorizeCommand` | open/crates/superi-api/src/permissions.rs:785-788 | Derivation then evaluation reaches the declarative decision of the command. |
| `ProjectCommands.DerivedRequirementsAreAuthorizable` | open/crates/superi-api/src/editor.rs:143-152 | Derived requirements are always valid, so a command is authorized exactly when it is well formed and all of them are granted. |
| `ProjectCommands.CompoundIsConjunction` | open/crates/superi-api/src/editor.rs:143-152 | A compound command is authorized exactly when each of its actions alone would be. |
| `CommandAuthority.ActionMembers` | open/crates/superi-api/src/editor.rs:4179-4214 | An action is refused exactly when malformed, and otherwise requires exactly: a read of each named media file, the plugin operations of its mutation, and a delegation of exactly the granted names. |
| `CommandAuthority.ActionAuthorizedIff` | open/crates/superi-api/src/editor.rs:4179-4214 | One action is authorized if and only if it is well formed and each permission it demands is granted. |
| `CommandAuthority.CommandDecides` | open/crates/superi-api/src/editor.rs:143-152 | A command is invalid input when some action is malformed, succeeds exactly when every action is permitted, and is denied otherwise; undo, redo, and inspection need no permission. |
| `CommandLog.ProjectCommandLog.EvictOldest` | open/crates/superi-project/src/command_log.rs:542-553 | The retention loop drops just enough of the oldest records and never the newest. |
| `CommandLog.PreparedDraftsAreRecordable` | open/crates/superi-project/src/command_log.rs:332-391 | A draft prepared from any request is rejected only for what the execution reports: a zero command sequence, a missed revision fence, or inconsistent evidence of change. |
| `CommandLog.ProjectCommandLog.Append` | open/crates/superi-project/src/command_log.rs:484-558 | Appending a record that validates keeps the log well formed and byte accounting exact, retains the longest suffix within both bounds, and fails without any change, exactly at the end of the sequences or for an invalid record. |
| `CommandLog.GetProjectCommandLog` | open/crates/superi-api/src/editor.rs:4470-4572 | The query answers with the gap, the shown window after the cursor, or the first failure of showing. |
| `CommandLog.ShowRecords` | open/crates/superi-api/src/editor.rs:4501-4557 | The record loop shows every selected record in order or stops at the first that may not be shown. |
| `CommandLog.ShowRecord` | open/crates/superi-api/src/editor.rs:4508-4530 | A retained request is shown only in replay detail, when decodable, and when its caller could execute it. |
| `CommandLog.GapIffNeededRecordEvicted` | open/crates/superi-api/src/editor.rs:4484-4499 | On a well-formed log a resync is reported if and only if the next needed record is not retained. |
| `CommandLog.GapAgreesWithStream` | open/crates/superi-api/src/event_stream.rs:1551-1560 | With equal oldest and latest sequences the log and the stream report gaps alike. |
| `CommandLog.PagesAreTheRecordsAfterTheCursor` | open/crates/superi-api/src/editor.rs:4501-4572 | Feeding each through sequence back, with any accepted limits, shows exactly the records after the starting cursor. |
| `CommandLog.ShownPageIsAuthorized` | open/crates/superi-api/src/editor.rs:4508-4550 | A page keeps record order and every field, metadata never fails, and no page shows a request its caller could not execute. |
| `CommandLogLaws.RecordIsShownOrRefused` | open/crates/superi-api/src/editor.rs:4508-4550 | At replay detail a record is refused exactly when its retained request is undecodable or not authorized, with that reason; otherwise it is shown in full, request included. |
| `CommandLogLaws.QueryIsRefused` | open/crates/superi-api/src/editor.rs:4474-4499 | A query outside the limit bound or beyond the latest sequence is invalid, and one whose next record was evicted needs a resync. |
| `CommandLogLaws.QueryDecides` | open/crates/superi-api/src/editor.rs:4501-4572 | Any other query answers the records right after its cursor, each in full, or the failure of the first one refused. |
| `CommandLogLaws.AppendAcceptsIff` | open/crates/superi-project/src/command_log.rs:87-125 | A prepared record is acceptable if and only if its labels are good, it ran at the expected revision, and the revision moved up exactly when something changed; requests are kept up to one mebibyte. |
| `Text.Utf8LengthOfOne` | open/crates/superi-project/src/command_log.rs:648 | One character takes as many bytes as its code point needs, one to four. |
| `Text.Utf8LengthOfConcat` | open/crates/superi-project/src/command_log.rs:648 | Byte lengths of concatenated texts add up. |
| `Text.Utf8LengthBounds` | open/crates/superi-project/src/command_log.rs:648 | A text has between one and four bytes a character, and one each exactly if all are ASCII. |
| `CommandLogLaws.BytesAreCounted` | open/crates/superi-project/src/command_log.rs:324-329 | The accounted size is 512 bytes a record plus all label bytes plus all retained request bytes. |
| `CommandLogLaws.RetentionKeepsWhatFits` | open/crates/superi-project/src/command_log.rs:542-553 | Retention leaves the newest records within 4096 of them and 64 mebibytes, and one more would not fit. |
| `Settings.ParseCanonicalName` | open/crates/superi-core/src/settings.rs:70-109 | The single-pass scanner accepts exactly two or more dot-separated lowercase segments. |
| `Names.CanonicalNameByCharacters` | open/crates/superi-core/src/settings.rs:70-109 | Canonical names are exactly the texts of lowercase letters, digits, `_`, `-`, and at least one dot with a lowercase letter at the start and after every dot. |
| `Settings.PrecedenceIsTotalPreorder` | open/crates/superi-core/src/settings.rs:354-361 | Release precedence is a total preorder whose only ties differ in build metadata. |
| `Settings.PartsCompareLexicographically` | open/crates/superi-core/src/settings.rs:481-504 | Pre-release comparison is lexicographic over identifiers, with equality only for equal lists. |
| `Settings.NumericIdentifiersCompareByValue` | open/crates/superi-core/src/settings.rs:506-515 | Length-then-text comparison of canonical numeric identifiers is numeric comparison. |
| `Precedence.PrecedesIsLowerPrecedence` | open/crates/superi-core/src/settings.rs:354-361 | The comparison is the precedence of clause 11 of Semantic Versioning 2.0.0: numbers decide first, a pre-release is below its release, the first differing identifier decides, and a proper prefix is lower. |
| `Precedence.IdentifierLessIsBelow` | open/crates/superi-core/src/settings.rs:506-515 | Identifiers compare numbers by value, numbers below text, and text by its first differing character. |
| `Precedence.ReleaseOutranksPreRelease` | open/crates/superi-core/src/settings.rs:481-486 | Every release outranks each of its pre-releases. |
| `Negotiation.SelectionIsOptimal` | open/crates/superi-api/src/negotiation.rs:511-560 | The selection is the greatest tied server release with the greatest shared primitive revision and exists exactly when both do; the incompatibilities are exactly the missing dimensions in stable order. |
| `Negotiation.ShippedNegotiationIsOptimal` | open/crates/superi-api/src/negotiation.rs:511-596 | Whatever offers pass validation, the negotiation of the shipped releases is optimal. |
| `Negotiation.OffersAcceptedIff` | open/crates/superi-api/src/negotiation.rs:563-596 | Offers are accepted if and only if both lists hold 1 to 64 entries in strict order throughout and no revision is zero. |
| `Negotiation.PreReleaseIsOfferedFirst` | open/crates/superi-api/src/negotiation.rs:570-578 | A pre-release may be offered before its release and never after it. |
| `Negotiation.FindApiIsGreatest` | open/crates/superi-api/src/negotiation.rs:513-524 | Backward search over ordered releases finds the greatest common one or proves there is none. |
| `Negotiation.FindPrimitiveIsGreatest` | open/crates/superi-api/src/negotiation.rs:525-535 | The same for primitive revisions through binary search on the validated offers. |
| `Negotiation.ReleasesAreOrdered` | open/crates/superi-api/src/version.rs:9-20 | The shipped releases are in strict precedence order. |
| `Negotiation.MoreOffersNeverLower` | open/crates/superi-api/src/negotiation.rs:511-546 | Offering more never loses a selection nor lowers either part of it. |
| `Synchronizers.MediaCapabilitiesApi.Synchronize` | open/crates/superi-api/src/api.rs:330-352 | The owner's new snapshot and answer are those of the pure step, including refusal without change at the end of the revisions. |
| `Synchronizers.EngineIntrospectionApi.Synchronize` | open/crates/superi-api/src/api.rs:1101-1140 | The same with the nested media revision decided first and both revisions advanced together. |
| `Synchronizers.ExtensionRegistryApi.Synchronize` | open/crates/superi-api/src/extensions.rs:676-691 | The same with the engine's own revision, which must advance when state changed. |
| `Synchronizers.MediaEventsFollowState` | open/crates/superi-api/src/api.rs:330-352 | Over any run: one event per visible change as long as revisions last, consecutive revisions, the last event is held, refused changes leave no trace, and without refusal the held state is the last observation. |
| `Synchronizers.EngineStepFollowsState` | open/crates/superi-api/src/api.rs:1101-1140 | One step emits exactly on a visible change, and the nested revision moves exactly with media state. |
| `Synchronizers.EngineEventsFollowState` | open/crates/superi-api/src/api.rs:1101-1140 | The same over any run, with the nested media revision never above the enclosing one. |
| `Synchronizers.ExhaustedEngineIsFrozen` | open/crates/superi-api/src/api.rs:1128-1139 | At the last revision no observation changes anything or emits an event. |
| `Synchronizers.ExhaustedMediaIsFrozen` | open/crates/superi-api/src/api.rs:339-349 | At the last revision no observation changes anything or emits an event. |
| `Synchronizers.RegistryRevisionsIncrease` | open/crates/superi-api/src/extensions.rs:676-691 | Emitted registry revisions strictly increase and the held snapshot is the last one emitted. |
| `Synchronizers.RegistryStepFollowsState` | open/crates/superi-api/src/extensions.rs:676-691 | One step takes over and emits a changed state under a later revision, refuses a changed state without one, and ignores an unchanged state. |
| `Synchronizers.RegistryFollowsEngine` | open/crates/superi-api/src/extensions.rs:676-691 | With an engine that raises its revision at every change, every change is emitted and the held state is the last one observed. |
| `MediaDelivery.SegmentsCarryConsecutiveRevisions` | open/crates/superi-api/src/event_stream.rs:1427-1581 | In every interleaving of media observations, other publishes, opens, closes, and polls, what any subscriber receives between two gaps carries consecutive media revisions, going on from those published before. |
| `MediaDelivery.StepKeepsInvariant` | open/crates/superi-api/src/api.rs:330-352 | Every step keeps the published media revisions consecutive up to the held one, or up to the end of the sequences. |
| `MediaDelivery.FreshSystemContinues` | open/crates/superi-api/src/event_stream.rs:1400-1408 | A new stream beside a media owner at any revision satisfies the invariant. |
| `Schema.RejectDuplicateNames` | open/crates/superi-api/src/schema.rs:1661-1673 | The growing set accepts exactly the lists without a repeated name. |
| `Schema.TryNew` | open/crates/superi-api/src/schema.rs:594-689 | Validation, sorting, and duplicate checks accept exactly the acceptable catalogs and return them sorted. |
| `Schema.CatalogIgnoresOrder` | open/crates/superi-api/src/schema.rs:625-676 | Permuting any of the four descriptor lists changes neither acceptance nor the catalog. |
| `Schema.CatalogIsCanonical` | open/crates/superi-api/src/schema.rs:769-788 | An accepted catalog rebuilds from its own fields to itself, is strictly ordered, and has unique method names across commands and queries. |
| `Schema.ValidPermissionIsOrdered` | open/crates/superi-api/src/schema.rs:226-254 | Accepted permission kinds are exactly the strictly ordered lists, empty exactly for permission-free methods. |
| `CatalogLaws.CatalogAcceptedIff` | open/crates/superi-api/src/schema.rs:594-676 | A catalog is accepted if and only if it repeats the current preamble, all descriptors are well formed, and names are distinct within events, within resources, and within commands and queries together. |
| `CatalogLaws.MethodMeaning` | open/crates/superi-api/src/schema.rs:183-188 | A method validates exactly with a canonical name, good references, and its permission kinds in their one spelling. |
| `CatalogLaws.CatalogKeepsEverything` | open/crates/superi-api/src/schema.rs:635-689 | An accepted catalog keeps every descriptor in its own list and adds none. |
| `Extensions.PassInOrder` | open/crates/superi-api/src/extensions.rs:568-580 | The loop that remembers only the previous entry accepts exactly the valid lists in adjacent order. |
| `Extensions.ValidateRegistry` | open/crates/superi-api/src/extensions.rs:559-581 | Comparing each identity only with its predecessor accepts exactly the globally ordered registries of valid registrations. |
| `Extensions.AcceptedRegistryIsSound` | open/crates/superi-api/src/extensions.rs:462-509 | Identities never repeat, every registration is granted only what it requested, and available features belong to ready extensions granted all they require. |
| `Extensions.CapabilityChain` | open/crates/superi-api/src/extensions.rs:245-265 | Within one registration, required capabilities of an available feature are granted and granted ones are requested. |
| `Extensions.FoundInIsSubset` | open/crates/superi-api/src/extensions.rs:251-263 | Binary search over a list whose order is only checked pairwise is set inclusion. |
| `Extensions.AcceptedRegistryIsCanonical` | open/crates/superi-api/src/extensions.rs:559-581 | Two accepted registries with the same entries list them identically. |
| `RegistryLaws.RegistryAcceptedIff` | open/crates/superi-api/src/extensions.rs:559-581 | A registry is accepted if and only if it is current, bounded, and every registration is good and after all before it, versioned producers first. |
| `RegistryLaws.RegistrationAcceptedIff` | open/crates/superi-api/src/extensions.rs:462-509 | A registration validates if and only if identity, names, discovery, features, control, lifecycle, and failure evidence agree with one another. |
| `RegistryLaws.VersionIdentifierIff` | open/crates/superi-core/src/settings.rs:584-597 | The accepted version identifiers are exactly `component@major.minor.patch` with optional pre-release and build parts, all well formed. |

## Left out

- Negotiation.SelectionIsOptimal: the independent project format result of a negotiation is not modelled.
- Event payloads are one opaque body per snapshot with its schema version and revisions.
- Error text, error context fields, recoverability, and the requirement named by a denial; errors keep their category only.
- JSON wire forms, SHA-256, and decoding of retained requests: the digest and the decoded command of request bytes are given with them.
- Real filesystem behaviour: path claims are lexical, without links or Unicode case.
- The engine behind the facades: dispatcher, history, jobs, scenario, timeline and multicam edits, and their conversion code.
- Pairing of project events with command evidence, which depends on what the dispatcher emits.
- The standard library's sort, ordered set, and binary search are textbook versions with the same results.
- Local project host, command line, scripting, TypeScript rendering, and build scripts.
