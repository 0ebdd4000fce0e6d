# Models of NyxID's state-changing core

NyxID keeps user services, their endpoints and their keys in MongoDB, migrates old
records into that form at every boot, and ships a few scripts around it. This project
models the parts of that code whose behaviour is hard to see from one function at a
time, and proves what they promise over all inputs, all runs or all interleavings.
`dafny verify dfyconfig.toml` checks everything.

| files | what they model |
|---|---|
| `UserTables`, `Slugs`, `Cleanup`, `CleanupOrder`, `Copies`, `Bindings`, `Pipeline` | the start-up migration as functions on the three tables: cleanup of suffixed duplicates, token copy, connection copy, node-binding copy |
| `CleanupEffect`, `CopyEffects`, `MigrationEffect` | what cleanup, single copies and whole runs leave, in the fields of the rows |
| `Paging`, `Database` | the same migration as it runs: class `Store`, row by row, with paging, transactions and compensation, and the orphan collector |
| `Replicas` | several replicas at once, transactional copies only: source fences, crashes and source edits |
| `BootReplicas`, `BootServices`, `BootRows`, `BootNames`, `BootCopies`, `BootRuns` | several replicas at once, all four phases in one machine: its steps; survivors and unique indexes; references; slugs and second services; repeated copies; runs that show what does not hold |
| `SemanticIndex`, `Diagnostics` | the mandatory unique index on approvals and the start-up diagnostic |
| `SshModes` | the bulk migration of the SSH auth mode |
| `Bits`, `IpRanges`, `IpTexts` | trusted proxy ranges: mask arithmetic, the parser, and what a text admits (section 3.1 of RFC 4632, sections 2.3 and 2.5.5.2 of RFC 4291) |
| `Timestamps`, `TraceRecords`, `LineSplitting`, `TraceReader`, `TraceCollection`, `TraceSelection`, `TraceReport`, `TraceOutcome` | the turn-trace script: accepting records, bounded reading, collecting, selecting, grouping |
| `TextEdits`, `Manifests`, `Lockfile`, `PathRequirements`, `Recipe`, `RecipeTexts`, `RecipeErasure`, `LockErasure` | the content-addressed dependency recipe |
| `CancellationTokens`, `Disconnects` | cancellation of requests whose client is gone |
| `Options`, `Decimals` | result types; decimal numerals |

Conventions. Identifiers are naturals drawn from a supply, so that a fresh one was never
used before. `find_one` and `update_one` take the oldest of the matching rows, and a
transaction is one atomic step. Clocks, JSON, UUID and TOML parsing, ciphertexts and the
erasure admission are parameters or opaque values. Methods follow the control flow of the
source and are proved equal to functions on values; the lemmas are about those functions.
A function that several results share has a lemma that says what it means in the fields of
its input, without its own name (`…Exactly` and the files on effects and texts above).

Some expected properties do not hold of the code. Each has a lemma that shows it, and the
exact condition under which it does hold:

- The cleanup pass can depend on the order of its scan (`OrderMatters`). It does not exactly
  when every removable row has a base that is not removable itself (`OrderFreeExactly`); in
  every order `CleanupKeepsSurvivor` and `CleanupReachesQuiet` hold.
- The order of node bindings for the same user and service can show (`AttachOrderShows`). A
  second migration with another order changes nothing exactly when the last bindings of every
  pair agree, if the first one was complete (`AnotherOrderChangesNothingExactly`); for first
  runs that a binding cut short, and for any list of bindings in the second,
  `AnyBindingsChangeNothingExactly` gives the condition.
- Replicas can give one pair of user and catalog entry two active services: from empty
  tables when both look too early (`PairsCanDouble`), and even when neither has seen a service
  of the pair, because a cleanup freed a name between their resolutions
  (`FreedNamesCanDouble`). `SecondServiceExactly` says when an insertion adds a second one,
  and `UndisturbedOnlySeenRivals` what is left of the condition without cleanup and other
  writers.
- A binding can be copied again after a cleanup removed its copy (`BindingsCanRepeat`); a
  token or connection cannot (`EveryRunCopiesOnce`). It takes a replica that was engaged on
  the binding before (`BindingCopiedAgainOnlyByEngaged`), and `EngagedCopiesExactly` says when
  such a replica goes through with it.
- The cleanup parser accepts spellings the resolver never prints, such as `x-02`
  (`LeadingZeroIsParsed`); `ParsedSlugsThatWerePrinted` says exactly which slugs were printed.
- Boots that overlap can drop an exact index that another boot has just built
  (`RacingBootsDropExactIndex`) or raise the alarm next to it
  (`RacingBootsRaiseFalseAlarm`). Neither happens exactly when no boot acts on a listing that
  has gone stale (`RunKeepsExactly`, with `StaleExactly` for what makes it stale); in terms of
  events, when nobody drops or raises the alarm behind a build, or clears behind a drop
  (`RunKeepsByEvents`).
- An IPv6 block that covers the IPv4-mapped addresses, such as `::/0`, holds no IPv4 address,
  although the 128-bit forms share the fixed bits. `LiteralReadingExactly` says that this is
  the only case in which the literal reading of an accepted prefix is not exact.
- Overlapping persists can revive the clock of a resolved streak
  (`OverlappingPersistRevivesOldStreak`); `ClockIsCurrentExactly` gives the condition.
- A registry edge spelled like a workspace member with its version is rewritten
  (`RegistryEdgeIsMistaken`; `CommonLineErasesAlike` gives the exact condition).
- The outcome of a trace group can depend on the order of its records
  (`MissingFieldsRememberTheOrder`, `EqualTimesRememberTheOrder`); for each field
  `OutcomeIsOrderFree` and its companions say exactly when it does not.
- The bulk SSH migration overwrites an explicit mode of a user service that lacks the
  stale flag (`ExplicitModeIsKept` says exactly when it is kept).

One that does hold, for a reason worth knowing: the text order of timestamps is their time
order, although the fraction digits vary, because normalised texts end in `+00:00`. With a `Z`
it would not be (`ZuluOrderFails`), which is the case section 5.1 of RFC 3339 excludes by
asking for equal numbers of fraction digits.

## Model

| member | source | states |
|---|---|---|
| Slugs.ResolveAvailableSlug | backend/src/db.rs:4732-4748 | the search over base, base-2 .. base-100 returns the specified first free name |
| Slugs.FirstFreeIsSoundAndMinimal | backend/src/db.rs:4732-4748 | a slug is the answer exactly when it is the first free candidate; there is none exactly when all hundred are in use |
| Slugs.FilteredQueryAgrees | backend/src/db.rs:4755-4786 | the answer from the `$in`-filtered slugs is the answer from all active slugs |
| Slugs.FewSlugsAlwaysResolve | backend/src/db.rs:4732-4748 | fewer than 100 active slugs always leave a free candidate |
| Slugs.ParserRecoversBase | backend/src/db.rs:4639-4648 | the cleanup parser takes every suffix off again that the resolver printed, and none above 100 |
| Slugs.LeadingZeroIsParsed | backend/src/db.rs:4639-4648 | for every base, the suffix 02 is taken off although the resolver never prints it |
| Slugs.ParsedSlugsThatWerePrinted | backend/src/db.rs:4639-4648 | which of the slugs the parser accepts are resolver output: exactly those without plus sign and leading zero |
| Slugs.SuffixBaseExactly | backend/src/db.rs:4639-4648 | a base is taken off exactly when the slug is that base, a hyphen, and an optional plus sign with digits of value 2 to 100 |
| Slugs.StripsExactly | backend/src/db.rs:4639-4648 | a slug strips to another one exactly when a chain of such suffixes leads from one to the other |
| UserTables.ResolvedSlugIsFree | backend/src/db.rs:4750-4786 | a resolved slug collides with no active slug of the user |
| UserTables.GrowthKeepsGuards | backend/src/db.rs:5207-5213 | as the tables grow, no guard that stopped a copy lets it pass later |
| UserTables.InsertionStepsAreIntact | backend/src/db.rs:5680-5799 | after each single insert of a triple, and after each compensating delete, active services resolve and migrated ones own their rows exclusively |
| UserTables.CompensationRestores | backend/src/db.rs:5691-5799 | deleting what a failed copy inserted restores the three tables |
| Cleanup.CleanupKeepsSurvivor | backend/src/db.rs:4630-4687 | a service the pass deletes came from a migration, and an active service with the same user and catalog entry and a suffix-stripped slug is left at the end, for any scan order |
| Cleanup.CleanedRowsAreOldRows | backend/src/db.rs:4630-4687 | the pass only deletes; remaining rows are untouched |
| Cleanup.CleanupReachesQuiet | backend/src/db.rs:4614-4693 | one pass over a full scan leaves nothing for a second pass |
| Cleanup.QuietMeansNoDeletion | backend/src/db.rs:4614-4693 | on such tables a pass in any order changes nothing |
| Cleanup.OrderMatters | backend/src/db.rs:4630-4687 | the result depends on the scan order: x-2-2 survives when x-2 is deleted first |
| CleanupOrder.OrderFreeExactly | backend/src/db.rs:4630-4687 | every order of the scan leaves the same tables if and only if every removable row has a base that is not removable itself |
| Cleanup.RemovalStepsAreIntact | backend/src/db.rs:4665-4677 | references stay intact after each of the three deletes of a removal |
| CleanupEffect.CleanupDeletesDuplicates | backend/src/db.rs:4614-4693 | on any tables and in any order: only duplicates go, active rows of a migration next to an active row of the same user and catalog entry under the stripped slug; with them exactly the endpoints and keys they own; none is left; and without one nothing changes |
| CleanupEffect.QueryIsScan | backend/src/db.rs:4618-4628 | the rows the pass works on are the active ones with a source that starts with `migration_` and a catalog entry, each once |
| Copies.DraftsCommit | backend/src/db.rs:5207-5213 | a copy nobody interfered with passes the recheck and breaks no unique index |
| Copies.TokenPhaseSettles | backend/src/db.rs:4789-5251 | after the token phase no token is copied again, in the result or in any later growth of it |
| Copies.ConnectionPhaseSettles | backend/src/db.rs:5254-5552 | the same for connections |
| Copies.CommitAddsFirstSibling | backend/src/db.rs:5213-5214 | a committed copy with a catalog entry is the only active service of its user for it |
| CopyEffects.TokenCopiedExactly | backend/src/db.rs:4819-5225 | a token adds one triple exactly when status, target, app credentials, users, earlier copies, services of the target and the candidate names allow it; the triple has the URL, entry, first free name, secret and source it should; otherwise nothing changes |
| CopyEffects.ConnectionCopiedExactly | backend/src/db.rs:5275-5528 | the same for a connection |
| CopyEffects.BindingCopiedExactly | backend/src/db.rs:5566-5802 | a binding gives node and priority to the oldest active service of its pair; without one it adds one triple with the URL for the type of its entry, or ends the phase, or does nothing, each under its exact condition |
| CopyEffects.TransactionExactly | backend/src/db.rs:5204-5224 | the transaction of a copy, for any draft: the triple exactly when the source row has no copy, the pair no active service and the name no active holder; otherwise nothing |
| CopyEffects.ResolvedExactly | backend/src/db.rs:4732-4786 | the resolved name is the first of base, base-2 .. base-100 that no active service of the user has |
| CopyEffects.TargetExactly | backend/src/db.rs:4861-4893 | the target of a token is the oldest active entry of its provider, for Google only `api-google` |
| Bindings.LaterAttachWins | backend/src/db.rs:5568-5585 | of two bindings for the same user and service the later one decides the node |
| Bindings.AttachOrderShows | backend/src/db.rs:5568-5585 | their order shows exactly when node or priority differ |
| Bindings.AttachAllMeaning | backend/src/db.rs:5566-5585 | attaching a list gives the service of every pair the node and priority of the pair's last binding, and changes nothing else |
| Bindings.AnotherListIsIdleExactly | backend/src/db.rs:5566-5585 | a second list changes nothing exactly when its last binding of every pair with a service agrees with the first list's |
| Bindings.IdleExactly | backend/src/db.rs:5557-5812 | on any tables, a list of bindings changes nothing if and only if, up to the first binding that ends the phase, none creates a triple and the last binding of every pair names the node and priority that are there |
| Bindings.CreatedTripleIsRestored | backend/src/db.rs:5566-5802 | a triple that a binding created is reproduced by a rerun that first attaches earlier bindings of the same pair |
| Bindings.BindingPhaseRepeats | backend/src/db.rs:5557-5812 | running the binding phase on its own result changes nothing and ends the same way |
| Pipeline.FirstSiblingKeepsQuiet | backend/src/db.rs:4597-4607 | a copy for a (user, catalog) pair without active service gives the next cleanup nothing to delete |
| Pipeline.SecondMigrationChangesNothing | backend/src/db.rs:4597-4607 | from any state, all four phases run on their own result change nothing, and the second cleanup deletes nothing |
| Pipeline.AnyBindingsChangeNothingExactly | backend/src/db.rs:4597-4607 | after any run, complete or cut short, a second run with any list of bindings changes nothing if and only if that list is idle on the result and ends the phase exactly when the first run did |
| Pipeline.AnotherOrderChangesNothingExactly | backend/src/db.rs:4597-4607 | after a complete run, a second run with the bindings in any order changes nothing if and only if, for every pair with an active service, the last bindings in both orders name the same node and priority |
| MigrationEffect.MigrationLeavesNoRows | backend/src/db.rs:4597-4607 | from any state, a run of all four phases leaves no duplicate and no token or active connection that could still be copied |
| MigrationEffect.MigrationLeavesNoBindings | backend/src/db.rs:4597-4607 | a run that no binding cuts short leaves no active binding that needs a triple, and the oldest service of every pair has the node and priority of the last binding of the pair |
| Paging.NextPage | backend/src/db.rs:4794-4814 | keyset pages skip no row and show none twice |
| Database.Store.Perform | backend/src/db.rs:4666-4677 | one write, recorded together with whether references are still intact |
| Database.Store.CleanupDuplicates | backend/src/db.rs:4614-4693 | the loop computes the specified cleanup, counts the deletions, and keeps references intact after every write |
| Database.Store.DeleteOwned | backend/src/db.rs:4665-4677 | deletes service, endpoint and key in this order, intact after each |
| Database.Store.CommitDraft | backend/src/db.rs:5178-5224 | the transaction inserts the whole triple or nothing |
| Database.Store.MigrateProviderTokens | backend/src/db.rs:4789-5251 | the paged loop copies every token once, in order, and counts the copies |
| Database.Store.MigrateServiceConnections | backend/src/db.rs:5254-5552 | the same for connections |
| Database.Store.CreateTriple | backend/src/db.rs:5680-5799 | inserts all three rows, or restores the tables when key or service cannot be inserted; intact after every write |
| Database.Store.MigrateBinding | backend/src/db.rs:5566-5802 | attaches, creates or skips as specified; a failed copy leaves the tables as they were |
| Database.Store.MigrateNodeServiceBindings | backend/src/db.rs:5557-5812 | the loop over bindings, with injected insert failures: it stops at the first failed copy and leaves the tables of exactly the bindings before it |
| Database.Store.MigrateToUnifiedCollections | backend/src/db.rs:4597-4607 | the four phases in order compute the specified migration and keep references intact at every intermediate write |
| Database.Store.CollectOrphans | backend/src/cleanup_cli.rs:83-155 | returns exactly the endpoints and keys no active service refers to |
| Database.Store.DeleteOrphans | backend/src/cleanup_cli.rs:37-81 | deletes those rows unless it is a dry run or unconfirmed |
| Database.OnlyReferencedRowsRemain | backend/src/cleanup_cli.rs:37-81 | afterwards exactly the referenced rows are left, and a second collection finds nothing |
| Replicas.TokenCopyAlone | backend/src/db.rs:5178-5224 | a read step directly followed by its commit is the sequential token copy |
| Replicas.ConnectionCopyAlone | backend/src/db.rs:5504-5528 | the same for a connection |
| Replicas.StepInsertsAtMostOne | backend/src/db.rs:5187-5220 | no step publishes part of a triple |
| Replicas.StartIsSafe | backend/src/db.rs:5173-5238 | the tables at the start are safe, whatever they hold; from there `EveryRunIsSafe` applies |
| Replicas.EveryRunIsSafe | backend/src/db.rs:5173-5238 | in every interleaving of reads, commits, crashes and source edits: whole triples only, one per source row, distinct sources and active slugs, no second active service for a pair |
| Replicas.CommitCopiesCurrentRow | backend/src/db.rs:5187-5206 | a commit that inserts copies the source row as it is now, however old the read, and fences out every other replica that read one of its documents and could still have committed |
| Replicas.SameReadIsFencedOut | backend/src/db.rs:5187-5206 | in particular every other replica with the same read |
| Replicas.CommitExactly | backend/src/db.rs:5185-5224 | in any world a transaction inserts its triple, or is stopped by a guard, and then moves the fence of every document it read by one and no other; or it changes nothing: each case under its exact condition on documents, users, guards and indexes |
| BootReplicas.EveryTaskGoesOn | backend/src/db.rs:4597-4607 | in every run of replicas and other writers, a replica inside a task can take its next step |
| BootReplicas.EveryRunCopiesActiveRows | backend/src/db.rs:5254-5277 | in every run, a new service marked as the copy of a row is the copy of one that is there, active if a connection or binding, and of no erased user if a token or connection |
| BootServices.EveryRunKeepsSurvivors | backend/src/db.rs:4630-4687 | in every interleaving of the single steps of all four phases, with crashes, failed inserts and other writers in between, a service that is gone, old or new, came from a migration and has left a survivor |
| BootServices.OnceServedStaysServed | backend/src/db.rs:4650-4667 | so a user who ever had an active service for a catalog entry has one at every later time |
| BootServices.EveryRunKeepsDistinct | backend/src/db.rs:5557-5812 | at no time do two keys or two services have the same source row, and active slugs stay unique |
| BootRows.EveryRunIsIntact | backend/src/db.rs:4665-4677 | after every single write of every replica, compensating deletes included, active services find endpoint and key, and migrated ones share them with nobody |
| BootNames.SecondServiceExactly | backend/src/db.rs:5587-5799 | in every run, a binding copy that is not refused adds a second active service of its pair if and only if one was seen when the slug was resolved, or another writer has created one, or a copy has, and the name of one of the two stood in the way of the other and was freed in between |
| BootNames.UndisturbedOnlySeenRivals | backend/src/db.rs:5587-5799 | when nothing of the user was deleted and nobody else wrote, exactly when one was seen |
| BootNames.SeenRivalsWereThere | backend/src/db.rs:5616-5650 | the services of the pair that a resolution sees are the active ones at that moment |
| BootCopies.EveryRunCopiesOnce | backend/src/db.rs:5207-5214 | in every run with all phases, removed rows included, a token or connection is copied once at most, and its copy was the first active service its pair ever had |
| BootCopies.OnlyEngagedAdd | backend/src/db.rs:5566-5614 | once a pair had a service, a migration adds another one only for a binding on which a replica was already past its look-up |
| BootCopies.BindingCopiedAgainOnlyByEngaged | backend/src/db.rs:5605-5614 | in particular a binding whose copy was removed is copied again only by such a replica |
| BootCopies.EngagedCopiesExactly | backend/src/db.rs:5605-5799 | and such a replica, left alone, copies it if and only if no key and no service of the binding is left and its name is free |
| BootRuns.EarlyLookUpsGiveTwoServices | backend/src/db.rs:5587-5799 | from any tables that do not know the pair: two bindings, two early look-ups, and then two active services |
| BootRuns.PairsCanDouble | backend/src/db.rs:5587-5799 | in particular from empty tables |
| BootRuns.FreedNameGivesTwoServices | backend/src/db.rs:4665-4667 | a cleanup in another pair frees a name between two resolutions: both copies saw no service, neither is refused, and in either order of insertion there are two; the one that was first may hold the name behind |
| BootRuns.FreedNamesCanDouble | backend/src/db.rs:4665-4667 | there are sound tables with unique slugs on which this happens |
| BootRuns.RemovedBindingIsCopiedAgain | backend/src/db.rs:5605-5614 | from any tables that do not know the pair: a binding's copy is removed as a duplicate and made again |
| BootRuns.BindingsCanRepeat | backend/src/db.rs:5605-5614 | in particular from empty tables |
| Diagnostics.StartupDiagnostic.Persist | backend/src/db.rs:4032-4074 | both updates, or only the first when the process dies in between |
| Diagnostics.StartupDiagnostic.Clear | backend/src/db.rs:4076-4092 | resolves the diagnostic |
| Diagnostics.ClockTracksStreak | backend/src/db.rs:4032-4092 | for every sequence of persists, half persists and clears, an active diagnostic dates from the persist that completed the activation of the current streak, and the resolution is absent exactly while it is active |
| Diagnostics.OverlappingPersistRevivesOldStreak | backend/src/db.rs:4032-4074 | not so for persists that overlap a clear |
| Diagnostics.ClockIsCurrentExactly | backend/src/db.rs:4032-4092 | for all interleavings of the single updates, the detection time of an active diagnostic belongs to the current streak if and only if a reset came between the end of the last streak and the activation that opened this one, or no streak ever ended |
| Diagnostics.UncutPersistIsCurrent | backend/src/db.rs:4032-4074 | so it does when no streak ended between the two updates of the opening persist |
| Diagnostics.CutPersistNeedsAnotherReset | backend/src/db.rs:4032-4074 | when one did, the old time comes back, unless another replica's reset followed that end |
| SemanticIndex.NoDuplicateGroups | backend/src/db.rs:3915-3958 | the preflight is clean exactly when no two keyed rows share the five-field identity |
| SemanticIndex.BuildIndex | backend/src/db.rs:3990-3998 | a build succeeds exactly on such rows |
| SemanticIndex.WriteExactly | backend/src/db.rs:3990-3998 | an approval write changes its own row only, and the exact index refuses it exactly when another row has the five fields |
| SemanticIndex.Approvals.EnsureExactServiceIndex | backend/src/db.rs:3880-4018 | after a call the diagnostic is active exactly when the exact index is missing; an exact index is never dropped; without racing writes the call installs it exactly when there are no duplicates |
| SemanticIndex.IndexHoldsInEveryRun | backend/src/db.rs:3880-4018 | while the exact index is installed no two keyed rows share the identity, in every run of boots, crashes and approval writes |
| SemanticIndex.BootAlone | backend/src/db.rs:3880-4018 | a boot that is left alone keeps an exact index, leaves everything as it is next to duplicates, and otherwise builds the index; the diagnostic follows |
| SemanticIndex.BootsInTurnAgree | backend/src/db.rs:3880-4018 | when boots follow one another, each completed call leaves diagnostic and index in agreement and no exact index is lost |
| SemanticIndex.StepEffects | backend/src/db.rs:3880-4018 | in any world, the exact index is lost exactly to a boot that has listed and checked an index of that name, and a completed call leaves agreement exactly when it clears with the index there or persists without it |
| SemanticIndex.RunKeepsExactly | backend/src/db.rs:3880-4018 | in every run, overlapping or not, no exact index is lost and every completed call leaves agreement if and only if no boot drops, clears or persists on a stale listing |
| SemanticIndex.StaleExactly | backend/src/db.rs:3893-4010 | a listing goes stale exactly when another boot builds or drops the index inside the call; writes and crashes do not make it stale |
| SemanticIndex.RunKeepsByEvents | backend/src/db.rs:3880-4018 | nothing goes wrong in a run if and only if no boot drops the index or persists when the last index change inside its call was a build, and none clears when it was a drop |
| SemanticIndex.UndisturbedIsEnough | backend/src/db.rs:3880-4018 | overlapping boots are harmless while none changes the index inside the call of another |
| SemanticIndex.RacingBootsDropExactIndex | backend/src/db.rs:3976-3988 | two boots at once can lose an exact index |
| SemanticIndex.RacingBootsRaiseFalseAlarm | backend/src/db.rs:3944-3970 | and can leave the diagnostic active next to the exact index without losing it |
| SshModes.Collections.MigrateLegacySshAuthMode | backend/src/db.rs:4354-4458 | the bulk passes give every downstream row without mode the mode of its original form, and every selected user service the mode of its original catalog row, or fail on a malformed configuration |
| SshModes.MigrationKeepsLegacyMode | backend/src/db.rs:4460-4469 | the per-document mode is the same before and after, and no row lacks a mode afterwards |
| SshModes.MigratedCatalogAgrees | backend/src/db.rs:4405-4455 | user services may be computed from the rewritten catalog rows: the mode is that of the original ones |
| SshModes.SecondRunChangesNothing | backend/src/db.rs:4354-4458 | a second run changes no row |
| SshModes.ExplicitModeIsKept | backend/src/db.rs:4405-4455 | exactly when an explicit mode of an ssh user service survives |
| SshModes.MigratedInTexts | backend/src/db.rs:4354-4469 | what every row becomes, in the texts of the fields: which rows get `cert`, `node_key` or `proxy_only`, which flag, and which stay |
| IpRanges.ContainsIsBlockMembership | backend/src/config.rs:103-125 | mask matching is membership in the aligned block of 2^(width-prefix) normalised addresses of the same family |
| IpRanges.ContainsIsSamePrefix | backend/src/config.rs:103-125 | mask matching compares the leading bits, for both widths and every prefix including 0 |
| IpRanges.NestedOrDisjoint | backend/src/config.rs:103-125 | two ranges are nested or disjoint |
| IpRanges.SingleHoldsOneAddress | backend/src/config.rs:128-136 | the range of an address holds that address in either form and no other |
| IpRanges.BuildRangeAccepts | backend/src/config.rs:161-189 | which prefixes are accepted, for mapped and other addresses |
| IpRanges.ParsedRangesAreRanges | backend/src/config.rs:138-191 | every accepted text gives a prefix that fits its family, so no shift is out of range |
| IpRanges.MappedRangeKeepsMeaning | backend/src/config.rs:161-189 | an IPv4-mapped range is accepted exactly for prefixes 96 to 128, and its IPv4 rewriting holds an address, in either form, exactly when the 128-bit form lies in the range as written |
| IpRanges.ParseRanges | backend/src/config.rs:1019-1036 | the list parser keeps the accepted entries in order and drops the others |
| IpRanges.SplitUndoesJoin | backend/src/config.rs:1024-1024 | a comma list is read entry by entry |
| IpTexts.AddressText | backend/src/config.rs:138-160 | a text without slash is accepted exactly when it parses, and holds that one address |
| IpTexts.PrefixText | backend/src/config.rs:138-191 | a text with a slash is accepted exactly when an address stands before it and a number that suits its family behind it; it holds the addresses of the same family that share the fixed bits |
| IpTexts.RejectionExactly | backend/src/config.rs:138-186 | why a text is rejected, in the order of the checks |
| IpTexts.LiteralReadingExactly | backend/src/config.rs:161-189 | the range holds exactly the addresses whose 128-bit form shares the fixed bits if and only if the address is an IPv4 one or the block does not cover the mapped addresses |
| IpTexts.AcceptedExactly | backend/src/config.rs:1019-1036 | an address is in some range of the result exactly when some entry of the list, trimmed, admits it |
| IpTexts.TrimMeaning | backend/src/config.rs:1025-1025 | exactly the blanks at both ends of an entry are taken off |
| Timestamps.TextOrderIsTimeOrder | scripts/turn-trace.py:56-59 | for all UTC instants, comparing the normalised texts is comparing the instants |
| Timestamps.ZuluOrderFails | scripts/turn-trace.py:56-59 | with a zone that sorts behind the decimal point it would not be |
| Timestamps.PrintedShape | scripts/turn-trace.py:56-59 | where each field stands in a normalised text, and when it has a fraction |
| TraceRecords.CleanedRecordsAreStable | scripts/turn-trace.py:44-91 | a cleaned record written out and read again is accepted as the same record |
| TraceRecords.AcceptedExactly | scripts/turn-trace.py:44-91 | a raw record is accepted as a given record exactly when each of its members, optional ones included, says so |
| LineSplitting.LinesPartitionTheStream | scripts/turn-trace.py:98-102 | plain line splitting loses nothing and cuts only behind terminators |
| LineSplitting.ChunkOfLine | scripts/turn-trace.py:100-100 | a bounded `readline` returns the whole line, or exactly the limit of it, and the rest of the line follows |
| LineSplitting.Drain | scripts/turn-trace.py:108-119 | skipping an over-long line in chunks ends exactly behind its terminator, or stops exactly when the byte budget is exceeded |
| TraceReader.ReadLine | scripts/turn-trace.py:99-144 | one turn of the loop has the effect specified for one whole line, whatever its chunks |
| TraceReader.ReadStream | scripts/turn-trace.py:98-146 | the inner loop consumes the plain lines of one stream in order |
| TraceReader.ReadRecords | scripts/turn-trace.py:94-154 | the bounded reader computes what is specified on the plain lines of all streams |
| TraceReader.LinkIngress | scripts/turn-trace.py:147-154 | linked ingress records are appended while there is room, with truncation otherwise |
| TraceReader.BuffersStayBounded | scripts/turn-trace.py:129-144 | records and ingress buffer never exceed their cap |
| TraceCollection.FirstKeepsScanOrder | scripts/turn-trace.py:137-144 | deduplication keeps first occurrences, in scan order, each once |
| TraceCollection.ReadingIsIdeal | scripts/turn-trace.py:94-146 | reading truncates exactly when lines, bytes or distinct records pass their limits, and otherwise holds the unbuffered result; every over-long or undecodable line counts once as invalid |
| TraceCollection.KeptRecordsAreAPrefix | scripts/turn-trace.py:135-144 | even a truncated run keeps a prefix of the distinct turn records |
| TraceCollection.BufferedIsLast | scripts/turn-trace.py:129-134 | with evictions too, the buffer holds at most one record per (request, phase), the last one read |
| TraceCollection.BufferIsLatest | scripts/turn-trace.py:129-134 | while the keys fit, it holds the latest record of every key in order of first appearance |
| TraceCollection.CollectionIsExact | scripts/turn-trace.py:94-154 | without truncation and eviction the result is the turn's distinct records, then the latest linked ingress records |
| TraceCollection.TruncationIsExact | scripts/turn-trace.py:94-154 | while the ingress keys fit the buffer, the truncation flag is raised exactly when lines, bytes or records (linked ingress included) pass their limits |
| TraceCollection.ResultIsBounded | scripts/turn-trace.py:140-153 | however the run ends, no more than MAX_RECORDS records come back |
| TraceSelection.ReturnedRecordsBelong | scripts/turn-trace.py:120-153 | truncated or not, a returned record stands on a line within the limit and belongs to the turn, or is an ingress record that a returned record of the turn names |
| TraceSelection.TurnRecordsComeBack | scripts/turn-trace.py:120-144 | without truncation every record of the turn on a line within the limit is returned |
| TraceSelection.NamedIngressComesBack | scripts/turn-trace.py:129-153 | and so is the last ingress record of a named request and phase, while requests and phases fit the buffer |
| TraceSelection.UntruncatedCounts | scripts/turn-trace.py:99-128 | without truncation the invalid lines are exactly those that are over-long or undecodable, and all limits hold |
| TraceReport.Group | scripts/turn-trace.py:157-180 | the grouping loop yields the links, the milestones and one item per group key, folded from exactly its contributions |
| TraceReport.RolesPartitionTheRecords | scripts/turn-trace.py:159-167 | every record becomes exactly one of link, milestone and contribution |
| TraceReport.CountWithRole | scripts/turn-trace.py:159-167 | a contribution counts in the group of its key, as often as it occurs, and in no other |
| TraceReport.GroupTimes | scripts/turn-trace.py:173-177 | a group starts at its earliest start and ends at its latest end, in time and not only in text |
| TraceReport.OrderDoesNotMatter | scripts/turn-trace.py:157-180 | any permutation of the records gives the same groups with the same instances, start and end |
| TraceReport.GroupInFields | scripts/turn-trace.py:157-180 | which records share a group, and what the group shows, in the fields of the records |
| TraceReport.EveryRecordHasItsPlace | scripts/turn-trace.py:157-180 | every record is a link, a milestone or an instance of a group, by its fields |
| TraceOutcome.LatestCarriersDecide | scripts/turn-trace.py:175-180 | when the latest closing records that carry a field agree on it, that value is shown, whatever the others carry |
| TraceOutcome.FieldIsOrderFree | scripts/turn-trace.py:175-180 | a field is the same for every permutation of the contributions if and only if its latest carriers agree, or no latest record carries it and no closing record carries anything but the default |
| TraceOutcome.OutcomeIsOrderFree | scripts/turn-trace.py:175-180 | this condition for the outcome of a group item |
| TraceOutcome.DurationIsOrderFree | scripts/turn-trace.py:175-180 | for its duration |
| TraceOutcome.StatusIsOrderFree | scripts/turn-trace.py:175-180 | for its status |
| TraceOutcome.ErrorIsOrderFree | scripts/turn-trace.py:175-180 | for its error code |
| TraceOutcome.LatestRecordDecides | scripts/turn-trace.py:175-180 | when closing records carry the same fields at different times, duration, outcome, status and error are those of the latest |
| TraceOutcome.MissingFieldsRememberTheOrder | scripts/turn-trace.py:178-180 | the condition is needed: an outcome the latest record lacks shows in one order only |
| TraceOutcome.EqualTimesRememberTheOrder | scripts/turn-trace.py:176-180 | at equal times the later line wins, so the order shows exactly when the outcomes differ |
| Manifests.NormalizePackage | scripts/docker-dependency-recipe.py:17-28 | the section-wise editor computes what one pass over the lines computes, with the same errors |
| Manifests.ManifestErasure | scripts/docker-dependency-recipe.py:17-28 | two manifests give the same text if and only if they differ in the package version alone |
| Manifests.NormalizingAgain | scripts/docker-dependency-recipe.py:17-28 | a normalised manifest is its own normal form |
| Manifests.EditedVersion | scripts/docker-dependency-recipe.py:17-28 | an edited manifest assigns version 0.0.0 |
| RecipeTexts.ManifestExactly | scripts/docker-dependency-recipe.py:17-28 | for every text: only the version assignment of the first `[package]` section is replaced, and the two errors arise exactly without that section and without exactly one assignment in it |
| RecipeTexts.VersionLineExactly | scripts/docker-dependency-recipe.py:22-24 | the version lines are exactly those of the regular expression |
| RecipeTexts.IsExplicitExactly | scripts/docker-dependency-recipe.py:53-59 | a member directory is accepted exactly when it is relative, without a component `..` and without glob characters |
| RecipeTexts.MembersExactly | scripts/docker-dependency-recipe.py:50-66 | all members pass, or the first that does not gives the error of its first failed check |
| PathRequirements.PathsOkIsExact | scripts/docker-dependency-recipe.py:31-41 | the check passes exactly when no table at any depth has both `path` and `version` |
| TextEdits.SplitMeaning | scripts/docker-dependency-recipe.py:19-19 | splitting before opening lines loses nothing, and each section starts with its only opening line |
| TextEdits.SplitJoin | scripts/docker-dependency-recipe.py:69-69 | sections are found again in their joined text |
| Lockfile.EraseWord | scripts/docker-dependency-recipe.py:83-86 | in a line with one quoted word, the replacements for all members rewrite that word or nothing |
| Lockfile.NeutralWordMeaning | scripts/docker-dependency-recipe.py:83-86 | a word is rewritten exactly when it is a member name with that member's version, and then only its version |
| Lockfile.FieldKept | scripts/docker-dependency-recipe.py:74-86 | rewriting edges neither removes nor creates a field of an entry |
| Lockfile.CommonLineErasesAlike | scripts/docker-dependency-recipe.py:83-86 | a common line comes out alike in two trees exactly when it names a member with its version in both or in neither |
| Lockfile.RegistryEdgeIsMistaken | scripts/docker-dependency-recipe.py:83-86 | a registry edge spelled as a member name with its version breaks the erasure |
| RecipeTexts.EntryExactly | scripts/docker-dependency-recipe.py:74-87 | what becomes of a lock entry, by its lines: rejected, edges only, or edges and version |
| RecipeTexts.LockExactly | scripts/docker-dependency-recipe.py:68-90 | for every text: the first rejected entry gives the error, then a missing member; otherwise every entry is replaced by its erased form and nothing else changes |
| Recipe.CollectMembers | scripts/docker-dependency-recipe.py:48-66 | the member loop, with its errors in order |
| Recipe.RewriteBlock | scripts/docker-dependency-recipe.py:71-87 | one lock entry: match check, version, edges |
| Recipe.RewriteLock | scripts/docker-dependency-recipe.py:68-90 | the block loop over the whole lock file, and the check for missing members |
| Recipe.MakeRecipe | scripts/docker-dependency-recipe.py:44-96 | the program as a whole computes the specified recipe or its first error |
| RecipeErasure.VersionBumpIsErased | scripts/docker-dependency-recipe.py:44-96 | trees that differ only in consistently changed member versions produce identical recipes |
| RecipeErasure.RecipeOfRecipe | scripts/docker-dependency-recipe.py:44-96 | the recipe of a recipe, its versions read from the new manifests, is itself |
| LockErasure.LinesEraseAlike | scripts/docker-dependency-recipe.py:83-86 | two lock lines come out alike exactly when they are the same, or agree up to a member's version in their quoted word |
| LockErasure.AlikeWordsExactly | scripts/docker-dependency-recipe.py:83-86 | when two quoted words come out alike: one member with its two versions, the same untouched word, or a member next to its literal version 0.0.0 |
| LockErasure.LockErasesVersionsOnly | scripts/docker-dependency-recipe.py:68-90 | two accepted lock files give the same text if and only if they agree up to the versions of members |
| LockErasure.RecipesAgreeExactly | scripts/docker-dependency-recipe.py:44-96 | two accepted trees give the same recipe if and only if they agree up to the versions of their members |
| RecipeErasure.LockAcceptedExactly | scripts/docker-dependency-recipe.py:74-89 | a lock file is accepted exactly when its local entries are the members with the versions of their manifests |
| RecipeErasure.RegistryEntryIsByteExact | scripts/docker-dependency-recipe.py:76-87 | a registry entry is kept byte for byte unless it quotes a member with its version |
| CancellationTokens.Tokens.Add | backend/src/downstream_disconnect.rs:37-39 | a child of a cancelled token starts cancelled |
| CancellationTokens.Tokens.CancelToken | backend/src/downstream_disconnect.rs:108-112 | cancels the token and all its descendants, nothing else |
| CancellationTokens.LeafCancelsItself | backend/src/downstream_disconnect.rs:25-30 | a token without children is cancelled alone |
| Disconnects.Server.PollRead | backend/src/downstream_disconnect.rs:158-179 | passes the result through and cancels on error or end of file into a non-empty buffer |
| Disconnects.Server.PollWrite | backend/src/downstream_disconnect.rs:182-199 | cancels on error or when none of some bytes were written |
| Disconnects.Server.PollWriteVectored | backend/src/downstream_disconnect.rs:201-219 | the same for several buffers, of which one must hold bytes |
| Disconnects.Server.PollFlush | backend/src/downstream_disconnect.rs:225-234 | cancels on error |
| Disconnects.Server.PollShutdown | backend/src/downstream_disconnect.rs:236-245 | cancels when finished, well or not |
| Disconnects.Server.DropConnection | backend/src/downstream_disconnect.rs:152-156 | cancels the connection and its requests |
| Disconnects.Server.RequestCancellation | backend/src/downstream_disconnect.rs:45-51 | a child token of the connection, or an independent one |
| Disconnects.Server.DropResponseBody | backend/src/downstream_disconnect.rs:108-112 | cancels the token of that request |
| Disconnects.CancelledExactlyForCause | backend/src/downstream_disconnect.rs:27-51 | in every run a token is cancelled exactly when its connection was seen closed or its own body was dropped |
| Disconnects.EventCancelsExactly | backend/src/downstream_disconnect.rs:108-245 | which single event cancels which tokens, by the result of the poll |
| Disconnects.DroppingABodyIsIsolated | backend/src/downstream_disconnect.rs:25-30 | dropping one body cancels that request only |
| Disconnects.CancellationIsFinal | backend/src/downstream_disconnect.rs:27-51 | no later event undoes a cancellation |
| Disconnects.CompletedWorkWins | backend/src/downstream_disconnect.rs:56-78 | work that is done when the cancellation is first polled wins; otherwise that poll ends the wait |

## Left out

- Timestamps of rows (`updated_at`, `created_at`) and, outside `Replicas`, the copy fences: states are compared without them.
- Payload fields that a copy takes over verbatim (labels, auth methods, identity fields, user agent, SSH mode of the new service): they decide no branch. Ciphertexts are opaque and their rebinding always succeeds.
- Secret-context key handling and erasure admission: calls into services that are not part of this model; a refused user is a parameter.
- MongoDB itself: a write is atomic, transactions are serial, `let _ =` deletes succeed, and of the unique indexes only (user, slug) of active services and (source, source_id) are modelled.
- A crash in the middle of a node-binding copy is not claimed to be completed later: the key's source marker makes the next run skip the binding.
- Pipeline.AnotherOrderChangesNothingExactly: is about a first run that no binding cut short; `AnyBindingsChangeNothingExactly` has no such restriction.
- SemanticIndex.BootsInTurnAgree: is the special case of boots that follow one another; `RunKeepsExactly` has no such restriction.
- Diagnostics.ClockTracksStreak: is about calls that do not overlap; `ClockIsCurrentExactly` is about all interleavings.
- The index declarations, database set-up and the other backfills of `backend/src/db.rs`: configuration and single bulk updates.
- Environment loading, validation and start-up checks of `backend/src/config.rs`; the standard library's address parser is a parameter.
- Orphan owners, the report and the confirmation prompt of `backend/src/cleanup_cli.rs`: input and output only.
- JSON, UUID and date parsing of the trace reader: parameters, assumed to read their own canonical output back where `CleanedRecordsAreStable` says so. The decoder of a line is a parameter of `ReadRecords`.
- TraceCollection.CollectionIsExact: assumes that the distinct ingress keys fit the buffer, which is when nothing is evicted; with evictions `BufferedIsLast` still holds.
- TraceCollection.TruncationIsExact: the same assumption, because an evicted record can no longer be linked.
- The rendering, sorting and coverage summary of the trace report, and the stage, span, parent and part of a group and the service of the root group, which are those of the first record.
- Regular expressions of the recipe are read line by line: white space in `\s*` is ASCII and does not run over a line end, and a line of a multi-line string counts like any other.
- The TOML parser: manifest tables, names and versions are inputs, and lock entries are read from lines of the form `key = "value"` as cargo writes them. The closing check that the new lock file parses, and writing the files, are not modelled.
- RecipeErasure.RecipeOfRecipe: the tables of the reread manifests are the old ones, since the path check looks at their keys only.
- LockErasure.RecipesAgreeExactly: lock lines hold at most one quoted word, as cargo writes them.
- `BootReplicas` has no source edits and no fences; `Replicas` has both. A transaction that finds its source changed inserts nothing, which for the tables is a crash of that copy. The reads of one token or connection copy are one step, as its commit checks them again.
- Users who rename, deactivate or delete services while replicas boot: other writers of `BootReplicas` only create services.
- BootCopies.BindingCopiedAgainOnlyByEngaged: says who can copy a binding again; `EngagedCopiesExactly` says exactly when that replica does if nobody disturbs it, not when some interleaving lets it.
- RecipeErasure.VersionBumpIsErased: member names and versions are nonempty and contain no quote or line end, and names no blank, as cargo demands.
- `poll_ready`, the make-service and the listener of the disconnect module: they only pass the connection's token on. Wakers and task scheduling are not modelled; polls happen in any order.
