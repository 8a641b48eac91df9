# TrustMeta

A distributed, authenticated index from keywords to file identifiers. A manager routes keywords to storagers
over a ring of hexadecimal prefixes, splits crowded prefixes and moves their records in the background while
clients go on writing and reading; clients check proofs of boolean queries. This project models those parts and
proves what they are meant to keep.

- **Ring and routing** (`Hex`, `Ring`, `RingEffects`, `EPRing`, `Routing`, `RouteCache`, `Router`): the ring is an
  array of entries that forms a 16-ary prefix forest and grows in place; `Ring` is its state as a value and `EPRing`
  the object. `RouteCache` is the epoch-guarded route cache as a machine of any number of readers and mutators.
- **Split, migration and replay** (`AccTree`, `Migration`, `MigrationInvariant`, `MigrationClient`,
  `MigrationServer`, `MigrationPresplit`, `MigrationTheorems`, `MigrationPlacement`, `MigrationAborts`,
  `MigrationReads`, `MigrationProgress`, `Manager`):
  a step relation over the ring, the storagers' records and their retained and confirmed prefixes, the migrations
  and their buffered operations. Two of its steps are guarded: a presplit leaves nothing behind, and a replay splits
  no leaf and goes through. `Manager` is the imperative code; each of its methods is proved to take steps of that
  relation. `Presplit` and `PresplitRecords` cover the splits ahead of a batch, `MigrationProgress` the runs that
  reach the states named below.
- **The same without the guards** (`Unguarded`, `ReplayReads`, `ReplaySplits`, `UnguardedReads`,
  `UnguardedKeywords`, `UnguardedPlacement`, `UnguardedRuns`): presplits test the counter alone, and replays split
  leaves and stop halfway, as in the code. What this machine keeps is said keyword by keyword.
- **Boolean queries** (`Text`, `BooleanExpr`, `Grammar`, `Parser`, `Syntax`, `Printer`, `RoundTrip`) and **their proofs**
  (`Field`, `Polynomial`, `SetProofs`, `SetProofBuilder`, `DecompositionProofs`, `AccumulatorProofs`): all agree
  with one `Evaluate`. `Syntax` is the grammar itself, which the parser computes on every input.
- **State that has to agree with something simpler**: the blockchain outbox (`Outbox`, `OutboxWorker`), the
  consistent-hash ring (`ConsistentHash`, `HashRing`), the AccTrie page cache (`PageCache`, `PageCacheAds`), the
  AccTrie proof bytes (`ProofBytes`, `ProofCodec`, `ProofReader`, `ProofWriter`) and the MEST bucket (`ValueList`,
  `Bucket`, `BucketRuns`, `MestBucket`).

What the model takes as given: a keyword comes with its digest of 32 hexadecimal digits, and the digest function
is the same on manager and storagers. Field elements obey the field axioms. Accumulators, curve points, pairings,
extended gcd, hashes, Merkle trees and the MEST digit function are parameters with the contract the code needs of
them, stated in `GoodLibrary`, `DistinctRoots`, `ChallengesTell`, `Sound`, `Complete`, `Lists` and `Crypto`. The disk is a
map, the chain a map from prefix to summary, and which remote calls and disk writes go through is a parameter.

Where the code does not do what it sets out to do, the model follows the code:

- A prefix retained by a migration that was given up keeps every later migration from deleting its records at
  that source (`AccTree.FullMigrationDeletesIff`, `MigrationAborts.HandOverIsCompleteIff`).
- Boolean queries take the write route, so during a migration they can ask a storager that does not have the
  records yet, or no longer has them: `MigrationReads.BooleanReadFindsIff` says exactly when they find what is
  stored, and `MigrationProgress.BooleanReadCanMiss` is a run in which they do not.
- A child of a split starts uncounted while records move to it, so a presplit can take it for empty and leave
  its records behind: `PresplitRecords.PresplitStrandsIff` and `UnguardedRuns.IdlePresplitFindsIff` say exactly when
  if the records have arrived, `UnguardedRuns.PresplitInMigrationStrandsIff` if they are still on the move, with
  writes buffered and clients going on meanwhile. `MigrationProgress.PresplitCanStrand` and
  `UnguardedRuns.BufferedAddCanForget` are runs.
- A split during a replay changes the ring, and no migration follows. `UnguardedRuns.FinishIsGuardedIff` says when a
  replay meets none, and `UnguardedRuns.NestedSplitStrandsIff` which keywords it strands.
- A migration that is given up, or whose replay stops at a failed call, is never taken up again: writes under its
  prefix are buffered for good (`UnguardedKeywords.StuckForGood`), and a stopped replay drops what it has not
  applied (`UnguardedKeywords.StopDropsRest`).
- Between the increments of two overlapping mutations the epoch looks settled
  (`RouteCache.OverlappingGuardsCanReturnStaleRoute`).
- A reset that cannot clear the outbox, or a start on one that cannot be read, leaves the flag clean although
  file and queue differ (`Outbox.CleanStepIff`).
- A single-keyword polynomial proof over a list with duplicates is refused (`SetProofBuilder.LeafProofIff`), and a
  leaf's polynomial is not compared with its list (`SetProofs.ForeignPolynomialIsAccepted`).
- A prefix whose pages are partly evicted can be read from disk in an older version, and the read drops the pages
  that were still to be written: `PageCache.ReadIsStoredIff` says exactly when a read is right, and
  `PageCacheAds.PartlyEvictedPrefixIsReadStale` gets to a wrong one by calls.
- A keyword with an operator standing alone in it, or with blanks around it, does not survive printing, nor does
  one with a parenthesis inside a group (`RoundTrip.RoundTripIff`, `RoundTrip.ParenthesisedKeywordIsCut`).

## Model

| member | source | states |
|---|---|---|
| MigrationTheorems.NoRecordIsLost | crates/manager/src/api/service.rs:1343-1640 | in the guarded machine, at every step of every run, with aborted migrations and with presplits of prefixes that hold nothing, some storager holds exactly what the accepted operations leave of a keyword, up to the operations still buffered for it |
| UnguardedKeywords.KeptKeyword | crates/manager/src/api/service.rs:1284-1952 | in every run of the code, with presplits, nested splits, stopped replays and aborts: as long as no step harms a keyword, its records and buffered operations stand for what the accepted operations on it leave |
| UnguardedKeywords.HarmlessKeeps | crates/manager/src/api/service.rs:1284-1952 | the steps that can harm a keyword at all: a presplit that sends it elsewhere while nothing covers it, a finish whose replay sends it elsewhere, a replay that stops before one of its operations; every other step keeps what is pledged, a client's operation on it applied |
| UnguardedPlacement.KeptInOnePlace | crates/manager/src/api/service.rs:1284-1952 | in such a run without aborts its records lie at one storager, besides the copy of a running migration |
| Unguarded.CodeRunSane | crates/manager/src/api/service.rs:1284-1952 | what every run of the code keeps: the prefix forest, plans of split entries, no pending migration under another, overrides that name former leaves, and the progress of the running migration |
| UnguardedRuns.GuardedRunIsCodeRun | crates/manager/src/api/service.rs:1284-1952 | every run of the guarded machine is a run of the code that accepts the same operations |
| UnguardedReads.StepUnder | crates/manager/src/api/service.rs:1343-1640 | while a migration covers a keyword nothing but its own operations changes what is pledged of it, whatever happens to the ring, until that migration replays |
| UnguardedRuns.FinishIsGuardedIff | crates/manager/src/api/service.rs:1688-1779 | a replay meets no nested split, so that the guarded machine can finish, if and only if, counting the buffered operations in order, every add leaves its child's counter within the threshold, unless the child is as deep as can be |
| ReplaySplits.NoSplitsIff | crates/manager/src/api/service.rs:1688-1779 | the same for any replay of operations that the ring routes |
| ReplaySplits.AddsFitIff | crates/manager/src/core/epring.rs:333-349 | when only adds are buffered this holds if and only if each leaf's counter plus the adds buffered for it stays within the threshold |
| UnguardedRuns.NestedSplitStrandsIff | crates/manager/src/api/service.rs:1688-1779 | a keyword whose leaf a replay splits after all its operations have landed at the target: once the migration is confirmed, reads find what was accepted if and only if an override is left, or the ring still sends it to the target, or nothing is stored |
| UnguardedRuns.FinishFindsIff | crates/manager/src/api/service.rs:1597-1620 | in general, however often the replay moves a keyword, reads after the finish find what was accepted if and only if, identifier by identifier, what landed at the storager now read says what all its operations say |
| UnguardedRuns.SteadyFinishFindsIff | crates/manager/src/api/service.rs:1597-1620 | if no split of the replay moves the keyword, reads find what was accepted if and only if the ring sends it where the migration took it, or every identifier there is named by an operation buffered for it |
| ReplayReads.LandedFids | crates/manager/src/api/service.rs:1688-1952 | after a replay each storager holds of a keyword what it held, with the operations that landed there applied |
| UnguardedKeywords.StopDropsRest | crates/manager/src/api/service.rs:1688-1952 | a replay that stops leaves of a keyword at the target what was applied and drops the other operations |
| UnguardedKeywords.StuckForGood | crates/manager/src/api/service.rs:1317-1341 | a migration that was given up, or whose replay stopped, stays pending in the rest of every run: its keywords are covered for good |
| UnguardedKeywords.GivenUpIsStuck | crates/manager/src/api/service.rs:1317-1341 | an abort and a stopped replay leave the migration pending, neither queued nor running |
| MigrationTheorems.ContentsFollowAccepted | crates/manager/src/api/service.rs:1343-1640 | in every reachable state a keyword's contents (its records at the storager that has them, followed by its buffered operations) are what the accepted operations, applied directly in order, leave; so nothing buffered is lost, doubled or reordered |
| MigrationTheorems.NextRefines | crates/manager/src/api/service.rs:1284-1640 | each step, a guarded presplit included, keeps the invariant; a client write changes the contents of its own keyword as a direct write would, and no other step changes any contents |
| MigrationTheorems.ReadsAreComplete | crates/manager/src/core/manager.rs:790-805 | outside the hand-over of a finished deletion, the query route names a storager that holds exactly the keyword's records, up to buffered writes |
| MigrationTheorems.ReadsWithoutBufferedWrites | crates/manager/src/core/manager.rs:790-805 | with no migration active for a keyword, the query route names a storager that holds exactly what all accepted operations leave |
| MigrationPlacement.EveryRecordInOnePlace | crates/manager/src/api/service.rs:1538-1619 | in every run without aborts, whenever no migration is running, each record lies only on the storager that queries for it go to |
| MigrationPlacement.NextKeepsClean | crates/manager/src/api/service.rs:1343-1640 | every step but an abort keeps: each record is at its home or is a copy on its way to its new owner; only the running migration has retained prefixes |
| MigrationAborts.HandOverIsCompleteIff | crates/storager/src/ads/acctree_ads.rs:282-311 | a migration that runs to its end leaves the source without the moved records if and only if the source held no retained prefix of another migration when it started; otherwise the source still holds all of them |
| MigrationReads.BooleanQueriesAgreeIff | crates/manager/src/api/service.rs:2060-2064 | the route of boolean queries, which ignores migrations, is that of single-keyword queries if and only if no migration is active for the keyword, or it has an override, or its child stays on the source; this is about routes, the next row about records |
| MigrationReads.BooleanReadFindsIff | crates/manager/src/api/service.rs:2060-2064 | at any point of any run without aborts, the storager a boolean query asks holds all that is stored of the keyword if and only if no migration is active for it, or its child stays on the source, or it has an override and the source has not deleted, or it has none and its child is imported, or nothing of it is stored |
| MigrationReads.BooleanReadFindsDespiteAborts | crates/manager/src/api/service.rs:2060-2064 | in runs with aborts a boolean query still finds what is stored in all those cases but the last |
| MigrationProgress.BooleanReadCanMiss | crates/manager/src/api/service.rs:2060-2064 | a reachable cluster in which a boolean query asks a storager that has nothing of a keyword although its identifier is stored |
| MigrationProgress.MigrationCanComplete | crates/manager/src/api/service.rs:1343-1640 | from any reachable cluster, a waiting migration with nothing buffered can be taken through all its prepares, imports and confirms to its end |
| MigrationReads.ActiveRoutes | crates/manager/src/core/manager.rs:786-805 | during a migration single-keyword reads stay on the source, and writes and boolean reads follow an override or the split ring |
| MigrationClient.ClientStepRefines | crates/manager/src/api/service.rs:215-375 | an add or a delete, buffered or stored, with or without a split, keeps the invariant and changes contents like the operation applied directly |
| MigrationClient.BufferContents | crates/manager/src/core/manager.rs:203-226 | buffering appends the operation behind the earlier ones of the migration that covers its keyword |
| MigrationClient.ScheduleKeepsContents | crates/manager/src/api/service.rs:1284-1341 | a split that schedules a migration changes no keyword's contents: reads stay on the source |
| MigrationClient.ScheduleKeepsMigrations | crates/manager/src/api/service.rs:1284-1341 | a new migration has a plan of sixteen children, and no two active migrations cover the same keyword |
| MigrationInvariant.ActiveIsUnique | crates/manager/src/core/manager.rs:176-191 | at most one migration is active for a keyword, so the search over the migration map has one answer |
| MigrationInvariant.ActiveRoute | crates/manager/src/api/service.rs:1343-1430 | while a migration is active its children are ring leaves, and the ring routes its keywords to the plan's targets |
| MigrationServer.PrepareKeeps | crates/manager/src/api/service.rs:1431-1483 | preparing a child exports exactly the source's records of it and changes no contents |
| MigrationServer.ImportKeeps | crates/manager/src/api/service.rs:1485-1536 | an import in any order among the others makes the target hold the child's records and changes no contents |
| MigrationServer.ImportReplaces | crates/storager/src/ads/acctree_ads.rs:222-251 | an import replaces what the target held under the prefix by the segment and leaves sibling prefixes alone |
| MigrationServer.ConfirmKeeps | crates/manager/src/api/service.rs:1538-1570 | confirming a child changes no contents, also when it is the confirm that deletes |
| MigrationServer.DeletingConfirmIsLast | crates/storager/src/ads/acctree_ads.rs:282-311 | the confirm that deletes is that of the last child to confirm |
| MigrationServer.TargetHoldsCopy | crates/manager/src/api/service.rs:1485-1570 | once all imports are done and until the source deletes, the owner by the ring holds the same identifiers of a keyword as the source |
| MigrationServer.DeleteHandsOver | crates/storager/src/ads/acctree_ads.rs:282-311 | across the deleting confirm the owner by the ring holds what the source held |
| MigrationServer.AbortKeeps | crates/manager/src/api/service.rs:1343-1430 | a migration given up at any point changes no contents |
| MigrationTheorems.ReplayContents | crates/manager/src/api/service.rs:1688-1952 | a replay without a nested split applies the operations once each, in order, to each keyword's contents |
| MigrationTheorems.FinishKeeps | crates/manager/src/api/service.rs:1597-1620 | dropping the overrides, replaying what was buffered and setting `confirmed` changes no contents |
| AccTree.Storager.DrainImportMoves | crates/storager/src/ads/acctree_ads.rs:222-269 | a drained segment imported elsewhere moves exactly the records under the prefix and replaces those the target had there |
| AccTree.FullMigrationDeletesIff | crates/storager/src/ads/acctree_ads.rs:271-311 | preparing and confirming a list of prefixes deletes exactly the records under them if and only if no other prefix was retained before, and otherwise deletes nothing |
| AccTree.ConfirmAllDeletes | crates/storager/src/ads/acctree_ads.rs:282-311 | confirming the prefixes one by one equals confirming them together: the last one deletes what all of them cover |
| AccTree.PrepareAllRetains | crates/storager/src/ads/acctree_ads.rs:271-280 | preparing retains the prefixes, forgets earlier confirmations and leaves the records |
| AccTree.StaleRetainedPrefixKeepsRecords | crates/storager/src/ads/acctree_ads.rs:282-311 | a concrete storager that still holds a record after a full migration of its prefix, because an earlier one was never confirmed |
| AccTree.RingPrefixIsNormal | crates/storager/src/ads/acctree_ads.rs:73-85 | prefixes of the ring pass normalisation unchanged |
| AccTree.NormalizesIff | crates/storager/src/ads/acctree_ads.rs:73-85 | a prefix is accepted, whatever its case and the blanks around it, if and only if it has from one to 64 hexadecimal digits, and then stands for those digits in lower case |
| AccTree.RequestsIff | crates/storager/src/ads/acctree_ads.rs:210-311 | which requests a storager refuses: malformed prefixes, segments of another format version, and confirms of a prefix it does not retain; what it exports it would import |
| AccTree.AccTreeAds.ExportPrefixSegment | crates/storager/src/ads/acctree_ads.rs:210-220 | exports the records whose keyword's digest lies under the prefix, or fails on a malformed prefix |
| AccTree.AccTreeAds.ImportPrefixSegment | crates/storager/src/ads/acctree_ads.rs:222-251 | new state, or unchanged state on each error |
| AccTree.AccTreeAds.DrainPrefixSegment | crates/storager/src/ads/acctree_ads.rs:253-269 | new state and segment, or unchanged state on each error |
| AccTree.AccTreeAds.PrepareRetainPrefixSegment | crates/storager/src/ads/acctree_ads.rs:271-280 | new retained and confirmed prefixes and the exported segment |
| AccTree.AccTreeAds.ConfirmPrefixMigration | crates/storager/src/ads/acctree_ads.rs:282-311 | new retained and confirmed prefixes; deletes when the last retained one is confirmed |
| Manager.Manager.Add | crates/manager/src/api/service.rs:215-375 | an add is accepted if and only if a migration covers its keyword or the storager is reached; it then changes the contents of its keyword by one identifier and nothing else, by the machine's step; a failed one changes nothing |
| Manager.Manager.Delete | crates/manager/src/api/service.rs:608-844 | a delete is accepted if and only if a migration covers its keyword or the storager is reached; it then removes the identifier from its keyword's contents and nothing else; a failed one changes nothing |
| Manager.Manager.ActivePrefixMigrationForKeyword | crates/manager/src/core/manager.rs:176-191 | finds an unconfirmed migration whose children cover the keyword, if there is one |
| Manager.Manager.BufferOperationDuringMigration | crates/manager/src/core/manager.rs:203-226 | buffers if and only if a migration is active for the keyword, and then at the end of its list |
| Manager.Manager.QueryRouteKeyword | crates/manager/src/core/manager.rs:790-805 | leads to the storager that the step machine reads from |
| Manager.Manager.ScheduleSplitMigration | crates/manager/src/api/service.rs:1284-1341 | a migration is recorded unless an unconfirmed one is pending for the prefix |
| Manager.Manager.PrepareChildren | crates/manager/src/api/service.rs:1431-1483 | succeeds if and only if every call gets through, the storager refusing none; then every child with another target has been exported from the source, in order; contents stay |
| Manager.Manager.ImportSegments | crates/manager/src/api/service.rs:1485-1536 | succeeds if and only if every call gets through, no target refusing; then every exported segment is at its target; contents stay whichever calls fail |
| Manager.Manager.ConfirmChildren | crates/manager/src/api/service.rs:1538-1570 | succeeds if and only if every call gets through, the source refusing none; then all imported children are confirmed there; contents stay wherever it stops |
| Manager.Manager.HandOver | crates/manager/src/api/service.rs:1431-1570 | prepares, imports and confirms all go through if and only if each call for a child that leaves the source does |
| Manager.Manager.ReplayPendingOperations | crates/manager/src/api/service.rs:1688-1952 | takes the whole list and applies it in order, each operation at its route of the moment, exactly as the unguarded machine replays, up to the end or the first call that does not get through, and tells whether a leaf was split; without a split every contents has changed by just the operations applied |
| Manager.Manager.RunSplitMigration | crates/manager/src/api/service.rs:1343-1640 | it is aborted if and only if one of its prepare, import or confirm calls does not get through; completed or aborted, no contents change; once it replays it ends in the unguarded machine's finish, or its stopped replay, from a state with the contents at the start; it completes without a nested split if and only if the counters at that state have room for the buffered operations |
| Manager.Manager.CountPrefixes | crates/manager/src/api/service.rs:412-418 | counts, for exactly the prefixes that items route to, how many do |
| Manager.Manager.PresplitForBatch | crates/manager/src/api/service.rs:410-441 | terminates; every prefix that had counted nothing and that more items route to than the threshold is split; counted leaves keep their keywords; if uncounted prefixes hold nothing, the whole call keeps the invariant and every keyword's contents |
| Manager.PresplitsOk | crates/manager/src/api/service.rs:410-441 | any sequence of presplits of prefixes that hold nothing keeps the invariant and all contents |
| Manager.Manager.ApplyPresplits | crates/manager/src/api/service.rs:423-436 | a round counts as applied if and only if some split is not below a prefix presplit before, and all its prefixes are known afterwards |
| Ring.RingState.EveryKeywordHasOneLeaf | crates/manager/src/core/epring.rs:226-256 | from any non-empty list of nodes, after any sequence of inserts, deletes, presplits and summary updates, exactly one leaf matches a keyword and routing finds it |
| Ring.RingState.RunKeepsForest | crates/manager/src/core/epring.rs:210-389 | every sequence of ring operations keeps the entries a complete 16-ary prefix forest |
| Ring.RingState.InitialIsForest | crates/manager/src/core/epring.rs:48-79 | the ring starts as such a forest, one root for each prefix of the root length |
| Ring.RingState.SplitKeepsForest | crates/manager/src/core/epring.rs:166-208 | appending sixteen children and rewriting the parent keeps the forest |
| Ring.RingState.SplitIsLocal | crates/manager/src/core/epring.rs:166-208 | a split changes the route of exactly the keys under the parent: digit d goes to child d and owner (old + d) mod n |
| Ring.RingState.RouteIsUnique | crates/manager/src/core/epring.rs:231-256 | a leaf is where a key is routed if and only if its prefix is one of the key |
| Ring.RingState.RouteIsTheMatchingLeaf | crates/manager/src/core/epring.rs:148-157 | routing finds the one leaf that the prefix match accepts |
| Ring.RingState.FindInvertsPrefix | crates/manager/src/core/epring.rs:268-289 | looking up a prefix gives an entry if and only if that entry has the prefix, up to case and 32 digits |
| Ring.RingState.ApplySplitsAtMostTheNamedLeaf | crates/manager/src/core/epring.rs:333-349 | an operation splits nothing but the leaf its prefix names, and otherwise keeps all routes |
| RingEffects.NamedEntryChanges | crates/manager/src/core/epring.rs:291-389 | a call changes just the entry it names: the counter goes up or down by one without wrapping, the entry has the new summary, a change is reported with former and new summary if they differ, with the storager for a leaf, and an overfull leaf gets sixteen uncounted children |
| RingEffects.StoredSummaryIsSilent | crates/manager/src/core/epring.rs:291-327 | a summary that has been stored is not reported, nor changes anything, when it is set again |
| RingEffects.UnnamedCallDoesNothing | crates/manager/src/core/epring.rs:318-389 | a call for a prefix without an entry changes and reports nothing |
| RingEffects.FirstRingIsEven | crates/manager/src/core/epring.rs:48-79 | in the first ring no storager owns more than one root more than another |
| Hex.MatchIsStringPrefix | crates/manager/src/core/epring.rs:148-157 | the nibble-wise match is the string prefix relation on the 32-digit key |
| Hex.ValueOfFormat | crates/manager/src/core/epring.rs:91-97 | formatting a root index as digits is undone by reading it |
| Hex.FormatOfValue | crates/manager/src/core/epring.rs:121-136 | reading digits as an index is undone by formatting it |
| Hex.KeyIsDigest | crates/manager/src/core/epring.rs:138-146 | a key's 32 digits are those of its digest read as one number |
| EPRing.EPRing.constructor | crates/manager/src/core/epring.rs:48-79 | the new ring is the forest of roots, with owners assigned in turn |
| EPRing.EPRing.MinimalPrefixLen | crates/manager/src/core/epring.rs:81-89 | the least length with at least as many prefixes as nodes |
| EPRing.EPRing.SplitEntry | crates/manager/src/core/epring.rs:166-208 | the in-place split is the ring's split, and refuses split or full-length entries |
| EPRing.EPRing.MaybePresplitEmptyPrefix | crates/manager/src/core/epring.rs:210-224 | refines the ring's presplit |
| EPRing.EPRing.RouteKeyHex | crates/manager/src/core/epring.rs:231-256 | the loop ends in bounds at the leaf of the key |
| EPRing.EPRing.RouteKeyword | crates/manager/src/core/epring.rs:226-229 | every keyword has a route to its leaf unless there are no nodes |
| EPRing.EPRing.FindEntryIndex | crates/manager/src/core/epring.rs:268-289 | the loop finds the entry with the prefix, if any |
| EPRing.EPRing.UpdateRootSummaryWithChange | crates/manager/src/core/epring.rs:318-327 | new ring, and a change reported only if the summary differs |
| EPRing.EPRing.RecordInsertWithChange | crates/manager/src/core/epring.rs:333-349 | counts, updates the summary and splits a leaf over the threshold |
| EPRing.EPRing.RecordInsertWithoutSplitWithChange | crates/manager/src/core/epring.rs:359-369 | counts and updates without a split |
| EPRing.EPRing.RecordDeleteWithChange | crates/manager/src/core/epring.rs:375-385 | counts down, not below zero, and updates the summary |
| Routing.PlanAgreesWithRing | crates/manager/src/core/routing.rs:579-611 | the plan's sixteen children partition the parent's keywords, and each target is where the split ring routes them |
| Routing.SplitMovesKeywordIff | crates/manager/src/core/epring.rs:166-208 | a split changes a keyword's storager if and only if it is under the parent and its next digit is no multiple of the number of nodes |
| Routing.PlanShape | crates/manager/src/core/routing.rs:579-611 | child d has the parent's prefix and digit d, and owner (old + d) mod n |
| RouteCache.CacheIsCoherent | crates/manager/src/core/routing.rs:136-232 | under every interleaving of readers and mutators, overlapping ones included, whenever no guard is live each cached route of the current epoch is the uncached one |
| RouteCache.ReturnedRouteIsCurrent | crates/manager/src/core/routing.rs:136-232 | if at most one guard is live at a call's final epoch check, the route it returns, if it returns one, is the uncached one there |
| RouteCache.NothingIsReturnedOnlyWithoutRoute | crates/manager/src/core/routing.rs:136-232 | a call returns no route only if it looked for an override and found none, and the ring then has no route; with at most one guard live and no writer in between, that is what the uncached lookup finds |
| RouteCache.CallAloneReturnsLookup | crates/manager/src/core/routing.rs:136-232 | from any reachable state without a live guard, a call left alone returns within seven steps exactly what the uncached lookup finds, a missing route included, and leaves a route it finds in the cache |
| RouteCache.CachedCallIsShort | crates/manager/src/core/routing.rs:136-165 | a call whose keyword is cached in the current epoch returns that route after three steps |
| RouteCache.MutationEffect | crates/manager/src/core/routing.rs:269-519 | what each guarded call leaves from beginning to end: ring, routes and overrides; and a route it leaves in the cache is one it has not changed |
| RouteCache.OverlappingGuardsCanReturnStaleRoute | crates/manager/src/core/routing.rs:640-670 | from any ring there is a run with two live guards in which a call returns a stale route, because the epoch is even between two increments |
| RouteCache.RunKeepsInv | crates/manager/src/core/routing.rs:136-232 | the invariant of epoch, guards, readers and cache over all runs |
| RouteCache.MutationProgramsAreOk | crates/manager/src/core/routing.rs:269-474 | inserts, deletes, presplits and the override clearing write routes only while their guard is live |
| Router.Router.RouteKeyword | crates/manager/src/core/routing.rs:136-232 | the uncached lookup: an override, or else the ring |
| Router.Router.RecordInsert | crates/manager/src/core/routing.rs:269-312 | records the override and the ring operation, and reports a split as a plan the migration can use |
| Router.Router.RecordDelete | crates/manager/src/core/routing.rs:371-397 | drops the override and counts down |
| Router.Router.ClearKeywordOverridesForPrefix | crates/manager/src/core/routing.rs:507-519 | drops exactly the overrides of keywords under the prefix |
| Router.Router.PresplitEmptyPrefixes | crates/manager/src/core/routing.rs:443-474 | every eligible prefix is split, leaves only get deeper, counted leaves keep their keywords, and without a split nothing changes |
| Presplit.PresplitIff | crates/manager/src/core/epring.rs:210-224 | a presplit happens if and only if the prefix is an uncounted leaf with a free digit and more items are coming than the threshold; then all its keywords get deeper leaves |
| Presplit.SlackShrinksAt | crates/manager/src/api/service.rs:410-441 | the digits left below the items' leaves strictly decrease when some item's leaf is split |
| PresplitRecords.PresplitStrandsIff | crates/manager/src/api/service.rs:410-441 | in every run without aborts, after a presplit of an uncounted leaf, whatever it holds, reads of an idle keyword under it find what was accepted if and only if an override still names its storager, or nothing is stored, or its next digit is a multiple of the number of storagers |
| PresplitRecords.PresplitUnderMigration | crates/manager/src/api/service.rs:410-441 | a presplit of a child whose records are still moving changes no read yet, and the ring afterwards agrees with the migration about the keyword's storager if and only if its next digit is a multiple of the number of storagers |
| UnguardedRuns.PresplitInMigrationStrandsIff | crates/manager/src/api/service.rs:410-441 | a child presplit while the migration that fills it runs, with any client steps, buffered writes and steps of other migrations before its finish: afterwards reads of a keyword find what was accepted if and only if its digit below the presplit is a multiple of the number of storagers, or every identifier moved is named by an operation buffered for it |
| UnguardedRuns.IdlePresplitFindsIff | crates/manager/src/api/service.rs:410-441 | the same for a presplit of the leaf of a keyword that nothing covers, in every run of the code, aborts included: an override is left, or the digit is a multiple, or the storager it is sent to holds the same, which without aborts is nothing |
| UnguardedRuns.BufferedAddCanForget | crates/manager/src/api/service.rs:410-441 | a reachable cluster, without aborts, in which one child was presplit while its migration ran and one add was buffered: two identifiers were accepted and reads find the second alone |
| MigrationProgress.PresplitCanStrand | crates/manager/src/api/service.rs:410-441 | a reachable cluster, after one add, its split and the full migration, in which an eligible child holds the record and a presplit makes reads miss it |
| MigrationPresplit.PresplitKeeps | crates/manager/src/api/service.rs:410-441 | a presplit of a prefix that holds nothing, or only keywords that keep their storager, and that no migration or override touches, keeps the invariant and all contents |
| BooleanExpr.SelectsTheSatisfying | crates/common/src/boolean_expr.rs:68-101 | a query selects exactly the identifiers for which it is true of the keywords they are found under, a negation never being true |
| BooleanExpr.EvaluateReadsItsKeywords | crates/common/src/boolean_expr.rs:52-101 | evaluation depends on nothing but the results of the expression's keywords, and every identifier comes from one of them |
| Syntax.ParseIsDerivation | crates/common/src/boolean_expr.rs:264-363 | on every input the parser returns a tree if and only if the documented grammar (expressions are terms joined by OR, terms are factors joined by AND, factors are negations, keywords and groups) derives the input's tokens from that tree; so operators by name, precedence and left association are fixed |
| Syntax.DerivationIsUnique | crates/common/src/boolean_expr.rs:264-363 | the grammar derives an input from one tree at most |
| RoundTrip.RoundTripIff | crates/common/src/boolean_expr.rs:103-116 | for every expression, parsing its printed form gives back the identical tree if and only if each keyword is trimmed, not empty and holds no operator standing alone, and, unless the expression is a single keyword, none holds a parenthesis |
| RoundTrip.ParenthesesAreCut | crates/common/src/boolean_expr.rs:103-116 | a clean keyword with a parenthesis parses on its own but never comes back from a printed conjunction |
| RoundTrip.ParenthesisedKeywordIsCut | crates/common/src/boolean_expr.rs:103-116 | the keyword f(x) parses on its own, and its conjunction with y does not come back from print |
| Printer.HexRoundTrip | crates/common/src/boolean_expr.rs:103-116 | every expression over non-empty lowercase-hex keywords survives printing and parsing |
| Printer.ParsedIsClean | crates/common/src/boolean_expr.rs:264-363 | on arbitrary input, a successful parse holds only trimmed keywords without operators |
| Printer.GroupCloses | crates/common/src/boolean_expr.rs:187-207 | the search for the closing parenthesis of a printed group finds the group's own |
| Grammar.ParseExpression | crates/common/src/boolean_expr.rs:264-283 | a success consumes at least one character and stays in bounds; what it reads is said by `Syntax.ParseIsDerivation` |
| Grammar.ParseTerm | crates/common/src/boolean_expr.rs:285-303 | a success consumes at least one character and stays in bounds |
| Grammar.ParseFactor | crates/common/src/boolean_expr.rs:329-349 | a success consumes at least one character and stays in bounds |
| Grammar.ParseKeywordPhrase | crates/common/src/boolean_expr.rs:305-327 | a success consumes at least one character and stays in bounds |
| Parser.Parser.ParseExpression | crates/common/src/boolean_expr.rs:264-283 | the loop over OR, which moves the position, terminates and computes the grammar's result, by `Syntax.ParseIsDerivation` a disjunction for each OR |
| Parser.Parser.ParseTerm | crates/common/src/boolean_expr.rs:285-303 | the loop over AND terminates and computes the grammar's result |
| Parser.Parser.ParseFactor | crates/common/src/boolean_expr.rs:329-349 | NOT, groups and phrases compute the grammar's result |
| Parser.Parser.ParseKeywordPhrase | crates/common/src/boolean_expr.rs:305-327 | the loop over a phrase computes the grammar's result |
| Parser.Parser.ConsumeOperator | crates/common/src/boolean_expr.rs:158-185 | consumes an operator, upper-case only, exactly where one stands alone in the input |
| Parser.Parser.FindMatchingParen | crates/common/src/boolean_expr.rs:187-207 | the depth-counting loop computes the grammar's result |
| Parser.Parser.LooksLikeGroup | crates/common/src/boolean_expr.rs:209-261 | a parenthesis opens a group exactly when the grammar says so |
| Parser.Parser.Parse | crates/common/src/boolean_expr.rs:351-363 | the whole input is parsed or refused as the grammar does, whose result `Syntax.ParseIsDerivation` fixes |
| Polynomial.Multiply | crates/common/src/poly_set_proof.rs:313-329 | the nested loops over the coefficient array compute the product polynomial |
| Polynomial.AddRow | crates/common/src/poly_set_proof.rs:313-329 | the inner loop adds one term of the left factor times the right one, in place |
| Polynomial.EvalProduct | crates/common/src/poly_set_proof.rs:313-329 | evaluating the product at any point is the product of the evaluations |
| Polynomial.ScaleInPlace | crates/common/src/poly_set_proof.rs:121-155 | scaling in place multiplies every coefficient |
| Polynomial.EvalScaleTo | crates/common/src/poly_set_proof.rs:121-155 | a scaled polynomial evaluates to the scaled value |
| Polynomial.CharacteristicRoots | crates/common/src/poly_set_proof.rs:100-104 | the roots of a characteristic polynomial are exactly the given elements |
| SetProofs.NodeRoots | crates/common/src/verification.rs:168-296 | where a node's equations hold, its polynomial vanishes exactly where both children do, for an intersection, or one does, for a union, and its intersection polynomial where both do |
| SetProofs.RootsAreSelected | crates/common/src/verification.rs:149-296 | if the equations hold identically, leaf polynomials are characteristic and the hash into the field tells the tree's identifiers and the queried one apart, at any tree depth the root polynomial vanishes at an identifier if and only if the tree selects it |
| SetProofs.AcceptedResultIsSelected | crates/common/src/verification.rs:123-296 | an accepted result is exactly the set the tree selects, if at each node an equation that holds at its challenge holds everywhere, leaf polynomials are characteristic, and the hash into the field tells the identifiers of tree and result apart |
| SetProofs.AcceptedIdentities | crates/common/src/verification.rs:149-296 | acceptance makes the equations of every node identities, unless a challenge is a lucky point |
| SetProofs.AcceptedIff | crates/common/src/verification.rs:149-296 | a tree is accepted if and only if no node in it has a refused storager's proof, a wrong commitment, a challenge that is not the derived one, or one of its four equations false at the challenge |
| SetProofs.TranscriptBinds | crates/common/src/verification.rs:189-209 | accepted nodes with the same transcript claim the same polynomials at the same challenge, unless two of them collide under the commitment |
| SetProofs.ForeignPolynomialIsAccepted | crates/common/src/verification.rs:123-166 | a leaf that lists one identifier is accepted with the polynomial of another, for a result the query does not select; the two lemmas above need leaf polynomials to match their lists |
| SetProofBuilder.QuotientHolds | crates/common/src/poly_set_proof.rs:106-119 | a quotient returned without an error times the divisor is the dividend at every point |
| SetProofBuilder.BezoutNormalized | crates/common/src/poly_set_proof.rs:121-155 | the normalised cofactors combine to one at every point |
| SetProofBuilder.IntersectionNodeHolds | crates/common/src/poly_set_proof.rs:157-191 | every intersection node the builder returns meets the verifier's equations at every point, and carries the right commitments and challenge |
| SetProofBuilder.UnionNodeHolds | crates/common/src/poly_set_proof.rs:193-235 | every union node the builder returns meets the verifier's equations at every point, and carries the right commitments and challenge |
| SetProofBuilder.BuiltSetIsEvaluation | crates/manager/src/api/service.rs:88-138 | the set returned with a tree is the evaluation of the expression, which is then free of NOT, so the mismatch branch is unreachable |
| SetProofBuilder.BuiltTreeIsAccepted | crates/manager/src/api/service.rs:88-138 | every tree returned over valid leaves proves the evaluation and is accepted; for a single keyword exactly when its list has no duplicates |
| SetProofBuilder.LeafProofIff | crates/common/src/verification.rs:123-147 | the proof of a single keyword is accepted if and only if its list has no duplicates |
| DecompositionProofs.DecompositionIsForced | crates/common/src/aggregate_proof.rs:193-254 | three parts that compose both operands, with disjointness proofs that are no forgeries, are their intersection and differences |
| DecompositionProofs.AcceptedIsEvaluation | crates/common/src/aggregate_proof.rs:193-254 | whenever the verifier accepts a tree whose own disjointness proofs are no forgeries, the set it returns is the evaluation of the tree |
| DecompositionProofs.BinaryIsAcceptedIff | crates/common/src/aggregate_proof.rs:193-254 | over accepted children a node is accepted if and only if its parts are proved disjoint and are the intersection and the differences |
| DecompositionProofs.TreeIsAcceptedIff | crates/common/src/aggregate_proof.rs:193-254 | a tree is accepted if and only if every leaf's own proof is and its root hash is the one given for its storager, and every decomposition is true and shown disjoint, two lists of which one is empty by an empty proof |
| DecompositionProofs.ResultIsAcceptedIff | crates/common/src/aggregate_proof.rs:174-191 | a result is accepted if and only if its tree is and it lists the evaluation in order |
| AccumulatorProofs.BuiltTreeIsAccepted | crates/manager/src/api/service.rs:140-211 | every tree the builder returns proves the evaluation of the expression and is accepted |
| AccumulatorProofs.AcceptedIsEvaluation | crates/common/src/accumulator_set_proof.rs:121-167 | whenever the verifier accepts, for every tree, the set it returns is the evaluation of the tree, and each node lists it sorted |
| AccumulatorProofs.TreeIsAcceptedIff | crates/common/src/accumulator_set_proof.rs:121-167 | a tree is accepted if and only if each leaf's own proof is, and each node lists what it stands for and has an accepted proof of it |
| AccumulatorProofs.AcceptedResult | crates/common/src/accumulator_set_proof.rs:100-119 | a result is accepted if and only if its tree is and it lists the evaluation, each identifier once and in order |
| Outbox.EveryRunCanCatchUp | crates/manager/src/blockchain.rs:176-288 | every run with durable appends, wherever it stands, goes on by undisturbed restarts, rewrites and flushes to a state in which the chain holds exactly what was accepted |
| Outbox.FlushesDrain | crates/manager/src/blockchain.rs:261-288 | flushes that go through empty the queue, in no more flushes than it has entries |
| Outbox.FlushShrinks | crates/manager/src/blockchain.rs:261-288 | a confirmed flush moves a full batch from the front of the queue to the chain, or the whole queue if that is shorter |
| Outbox.FailedFlushKeeps | crates/manager/src/blockchain.rs:261-288 | a failed submission leaves queue and file as they are, and may have put the batch on the chain |
| Outbox.DrainedChainIsUpToDate | crates/manager/src/blockchain.rs:176-288 | over all runs with crashes and durable appends, once the queue is drained each prefix's summary on chain is the last accepted one |
| Outbox.NothingIsReordered | crates/manager/src/blockchain.rs:176-288 | over all runs, what the worker received is what was confirmed followed by what is pending |
| Outbox.RunConverges | crates/manager/src/blockchain.rs:394-461 | at every point of such a run, the chain after submitting the queue, or the file, is the chain of all accepted commits |
| Outbox.CleanStepIff | crates/manager/src/blockchain.rs:176-259 | a step keeps `a clean flag means the file is the queue` if and only if it is not a reset that cleared nothing or a restart on an unreadable file |
| Outbox.FailedAppendsRecover | crates/manager/src/blockchain.rs:188-259 | after failed appends the queue still converges, and the file again once it is rewritten |
| Outbox.UnreadableStays | crates/manager/src/blockchain.rs:394-461 | a file that does not parse stays so until it is rewritten or cleared, or an append goes wrong again |
| Outbox.Resubmit | contracts/EPRootProofRegistry.sol:37-55 | submitting a batch that is on chain already, in front of the rest, changes nothing |
| Outbox.ApplyIsLatest | contracts/EPRootProofRegistry.sol:37-55 | the chain holds for each prefix the last summary submitted |
| OutboxWorker.OutboxWorker.OnCommit | crates/manager/src/blockchain.rs:188-212 | a commit is accepted, durably or not, and a flush follows exactly when the file is clean, a batch is full and the retry time has come |
| OutboxWorker.OutboxWorker.OnTick | crates/manager/src/blockchain.rs:243-257 | a dirty file is rewritten first, and a flush follows exactly when the file is clean, something is queued and the retry time has come |
| OutboxWorker.OutboxWorker.OnReset | crates/manager/src/blockchain.rs:213-239 | queue, flag, file and chain after a reset, whichever parts fail |
| OutboxWorker.OutboxWorker.FlushPending | crates/manager/src/blockchain.rs:261-288 | a confirmed batch leaves the queue for the chain, a full one or the whole queue; a failed one leaves the queue as it is |
| OutboxWorker.OutboxWorker.TryFlush | crates/manager/src/blockchain.rs:194-211 | sets the next retry from the delay, which a success resets |
| OutboxWorker.RetryDelayIsCappedDoubling | crates/manager/src/blockchain.rs:343-350 | after n failures the delay is the base doubled n times, at most thirty seconds |
| HashRing.AddMovesMinimally | crates/manager/src/core/consistent_hash.rs:173-229 | with distinct hashes, adding a node leaves each key with its owner or gives it to the new node |
| HashRing.RemoveMovesMinimally | crates/manager/src/core/consistent_hash.rs:231-243 | with distinct hashes, removing a node moves only its own keys |
| HashRing.AddThenRemoveRestores | crates/manager/src/core/consistent_hash.rs:173-243 | adding a node and removing it again restores the ring and the node map exactly |
| HashRing.AddKeepsRing | crates/manager/src/core/consistent_hash.rs:173-229 | the ring stays sorted and holds exactly the virtual nodes of the registered nodes |
| HashRing.RemoveKeepsRing | crates/manager/src/core/consistent_hash.rs:231-243 | removing by key prefix removes exactly the virtual nodes of that node |
| HashRing.ConsistentHashRing.AddNode | crates/manager/src/core/consistent_hash.rs:173-229 | the errors, and the new ring as a sort of the old one and the new virtual nodes |
| HashRing.ConsistentHashRing.RemoveNode | crates/manager/src/core/consistent_hash.rs:231-243 | the new ring and node map, and whether the node was there |
| HashRing.ConsistentHashRing.GetNode | crates/manager/src/core/consistent_hash.rs:268-315 | the owner of the next virtual node clockwise, and none only on an empty ring |
| HashRing.ConsistentHashRing.GetNodes | crates/manager/src/core/consistent_hash.rs:317-349 | the first distinct owners clockwise, in order, as many as asked for or as there are, starting with that of `get_node` |
| ConsistentHash.OwnerOfKey | crates/manager/src/core/consistent_hash.rs:173-229 | the node name is recovered from a virtual node's key |
| ConsistentHash.PrefixOfKey | crates/manager/src/core/consistent_hash.rs:231-243 | a valid name with its separator starts exactly the keys of that node |
| ConsistentHash.NextIsUnique | crates/manager/src/core/consistent_hash.rs:268-315 | with distinct hashes the next virtual node clockwise is unique |
| PageCache.CacheStandsForRecords | crates/storager/src/ads/acctrie_ads.rs:837-891 | in every valid state, cached and otherwise disk pages below the manifest count concatenate to the records last stored for the prefix |
| PageCache.DiskStandsForRecords | crates/storager/src/ads/acctrie_ads.rs:1013-1024 | once a prefix has no dirty page and no dirty manifest, the disk alone does |
| PageCache.ReplacedKeeps | crates/storager/src/ads/acctrie_ads.rs:837-891 | replacing a prefix's pages stores the new records and leaves the other prefixes alone |
| PageCache.ReadIsStoredIff | crates/storager/src/ads/acctrie_ads.rs:1082-1101 | a read returns the records last stored for the prefix if and only if all its pages are cached, or the disk has every page it counts, each with the records that belong at its place and none missing at the end, or the disk has none and the trie has them |
| PageCache.WellCutReadIff | crates/storager/src/ads/acctrie_ads.rs:1082-1101 | if the pages on disk are cut by the page limit, a read that goes there returns the records last stored if and only if the disk counts the pages rightly and no dirty page differs from its page on disk |
| PageCache.CurrentDiskIsRead | crates/storager/src/ads/acctrie_ads.rs:1082-1101 | if the disk counts the pages rightly and no dirty page differs from its page on disk, every read returns the records last stored, whatever has been evicted |
| PageCache.FlushedIsCurrent | crates/storager/src/ads/acctrie_ads.rs:953-1011 | a flushed prefix with records meets that condition |
| PageCache.RefilledKeeps | crates/storager/src/ads/acctrie_ads.rs:837-891 | putting clean pages into the cache keeps the invariant when the disk has them |
| PageCacheAds.PartlyEvictedPrefixIsReadStale | crates/storager/src/ads/acctrie_ads.rs:1082-1101 | one record stored and flushed, two stored, the first page evicted: the read returns the one record, and cache and disk no longer stand for the other one |
| PageCacheAds.PageCacheAds.CacheRootPrefixRecords | crates/storager/src/ads/acctrie_ads.rs:837-891 | stores the records; of the prefix exactly the last pages stay cached, as many as the limit allows, so all of them if they fit, and the cache is as full as it can be; pages marked clean keep the invariant if the disk has them |
| PageCacheAds.PageCacheAds.FlushCachedPage | crates/storager/src/ads/acctrie_ads.rs:902-921 | the page is clean afterwards and no record is lost |
| PageCacheAds.PageCacheAds.EnforcePageCacheLimit | crates/storager/src/ads/acctrie_ads.rs:923-951 | evicts least recently used pages first, writing dirty ones, until the limit holds and no further: within it nothing changes; loses no record |
| PageCacheAds.LastPagesStay | crates/storager/src/ads/acctrie_ads.rs:923-951 | of pages used last, in order, evicting the least recently used leaves exactly the last ones up to the limit |
| PageCacheAds.StoreAndRead | crates/storager/src/ads/acctrie_ads.rs:837-891 | records whose pages fit into the cache are read back right after they are stored, whatever was cached before |
| PageCacheAds.PageCacheAds.FlushRootPrefixPages | crates/storager/src/ads/acctrie_ads.rs:953-1011 | afterwards the prefix is clean on disk, also one without an entry, for which no page is counted |
| PageCacheAds.PageCacheAds.FlushAllDirtyPages | crates/storager/src/ads/acctrie_ads.rs:1013-1024 | afterwards nothing is dirty and the disk alone holds the records of every prefix |
| PageCacheAds.PageCacheAds.LoadCachedRootPrefixRecords | crates/storager/src/ads/acctrie_ads.rs:1026-1049 | returns the stored records if and only if all pages below the manifest count are cached, and changes nothing but access ticks; what was read counts as used last |
| PageCacheAds.PageCacheAds.LoadShardRecords | crates/storager/src/ads/acctrie_ads.rs:1082-1101 | reads the cache if all pages are there, else the disk, else the trie; what it read from disk is from then on what is stored for the prefix, dirty pages included, and any other read changes nothing but access ticks |
| PageCacheAds.PageCacheAds.LoadDiskRecords | crates/storager/src/ads/acctrie_ads.rs:1093-1101 | the loop joins the pages below the manifest on disk, and fails exactly when one is missing |
| PageCacheAds.PageCacheAds.ClearRootPrefix | crates/storager/src/ads/acctrie_ads.rs:1316-1326 | forgets the prefix, in the cache and on disk, and no other |
| ProofCodec.WrittenInsertionVerdict | crates/common/src/verification.rs:979-1327 | a written insertion proof is accepted if and only if it has at least 100 bytes, the key has at most 1024, the accumulators are points or, for the leaf's, empty, each membership proof stands against its accumulator, and the snapshot hashes to the root or none is asked for; for any pairing check |
| ProofCodec.WrittenDeletionVerdict | crates/common/src/verification.rs:1329-1572 | the same for deletion proofs, of at least 50 bytes, where accumulators of the next leaf that are no points count as absent |
| ProofCodec.WrittenQueryVerdict | crates/common/src/verification.rs:1575-1852 | the same for both query answers; an existing key needs all of its proofs, a missing one those that are there |
| ProofCodec.InsertionEndRead | crates/common/src/verification.rs:979-1320 | reading the fields of a written insertion proof ends exactly at the snapshot |
| ProofCodec.DeletionEndRead | crates/common/src/verification.rs:1329-1560 | reading the fields of a written deletion proof ends exactly at the snapshot |
| ProofCodec.QueryEndRead | crates/common/src/verification.rs:1575-1838 | reading the fields of a written query answer ends exactly at the snapshot |
| ProofBytes.SnapshotRoundTrip | crates/storager/src/ads/acctrie_ads.rs:725-731 | the snapshot is read back unchanged, up to its last byte |
| ProofBytes.MembershipRoundTrip | crates/storager/src/ads/acctrie_ads.rs:1422-1446 | a written membership proof, or its absence, is read back, and reading goes on behind it |
| ProofBytes.UnreadableMembership | crates/common/src/verification.rs:794-844 | a membership proof whose opening or element does not decode is absent, and reading goes on behind the length of the part that does not |
| ProofBytes.U32RoundTrip | crates/storager/src/ads/acctrie_ads.rs:1416-1419 | a length below 2^32 is read back from its four little-endian bytes |
| ProofReader.VerifyInsertionProof | crates/common/src/verification.rs:979-1327 | on any bytes the verifier never leaves them, and computes the verdict that the layout defines |
| ProofReader.VerifyDeletionProof | crates/common/src/verification.rs:1329-1572 | on any bytes the verifier never leaves them, and computes the verdict that the layout defines |
| ProofReader.VerifyQueryProof | crates/common/src/verification.rs:1575-1852 | on any bytes the verifier never leaves them, and computes the verdict that the layout defines |
| ProofReader.DeserializeMembershipProof | crates/common/src/verification.rs:794-844 | reads a membership proof, and treats an unreadable one as absent and goes on where it stopped |
| ProofReader.DeserializeAccSnapshot | crates/common/src/verification.rs:912-945 | the loop reads the entries the layout defines, or fails |
| ProofReader.VerifySnapshot | crates/common/src/verification.rs:948-977 | the snapshot can be read, and the root is empty or 32 bytes equal to its hash |
| ProofWriter.SerializeInsertionProof | crates/storager/src/ads/acctrie_ads.rs:1449-1555 | appending field by field writes the layout, with or without the snapshot |
| ProofWriter.SerializeDeletionProof | crates/storager/src/ads/acctrie_ads.rs:1568-1664 | appending field by field writes the layout |
| ProofWriter.SerializeQueryResult | crates/storager/src/ads/acctrie_ads.rs:1667-1867 | appending field by field writes the layout of either answer |
| ProofWriter.AppendAccumulatorSnapshot | crates/storager/src/ads/acctrie_ads.rs:725-731 | the loop appends the count and every entry with its length |
| BucketRuns.BucketHoldsLists | crates/storager/ads_lib/src/mest/bucket.rs:134-258 | after any run of inserts of comma-free values and of deletes, each key reads the joined list of distinct values that the run left it, or nothing |
| ValueList.MergedIsAppend | crates/storager/ads_lib/src/mest/bucket.rs:147-169 | inserting a comma-free value appends it unless it is empty or already there |
| ValueList.DeletedIsWithout | crates/storager/ads_lib/src/mest/bucket.rs:214-257 | deleting a value removes every occurrence and nothing else, and the entry with the last of them |
| ValueList.WithoutKeepsOrder | crates/storager/ads_lib/src/mest/bucket.rs:214-257 | the values kept stay in order |
| Bucket.SameSegmentIff | crates/storager/ads_lib/src/mest/bucket.rs:45-51 | two keys share a segment if and only if both are longer than the segment number and agree that far, or neither is longer |
| Bucket.RemoveKeeps | crates/storager/ads_lib/src/mest/bucket.rs:231-245 | removing a pair and shifting the index keeps positions, pairs and leaves in step, and every other key's value |
| Bucket.InsertIntoKeeps | crates/storager/ads_lib/src/mest/bucket.rs:134-190 | inserting keeps positions, pairs and leaves in step and changes one key's value |
| Bucket.DeleteFromKeeps | crates/storager/ads_lib/src/mest/bucket.rs:193-258 | deleting keeps positions, pairs and leaves in step, changes one key's value, and reports a change exactly when there is one |
| MestBucket.MestBucket.Insert | crates/storager/ads_lib/src/mest/bucket.rs:134-190 | one step of such a run |
| MestBucket.MestBucket.DeleteValue | crates/storager/ads_lib/src/mest/bucket.rs:193-258 | one step of such a run, reporting whether the key's value changed |
| MestBucket.MestBucket.GetValue | crates/storager/ads_lib/src/mest/bucket.rs:86-97 | the value of the key |
| MestBucket.MestBucket.IsInBucket | crates/storager/ads_lib/src/mest/bucket.rs:74-84 | whether the key has a value |
| MestBucket.MestBucket.SplitBucket | crates/storager/ads_lib/src/mest/bucket.rs:261-297 | one child per digit; each key is found in the child of its digit exactly as in the parent, and in no other |
| Bucket.ShareGrows | crates/storager/ads_lib/src/mest/bucket.rs:291-295 | dealing a pair to the child of its digit adds that pair to the child and nothing else |

## Left out

- gRPC, connection pools, timeouts, environment and command line, metrics, reports, benchmarks and the client program: they keep no state that the properties depend on.
- Cryptography: that a challenge is no lucky point, and the soundness of accumulators and pairings, are assumptions of the lemmas that use them.
- Migration on the other storager backends, which match prefixes by another digest or move whole pages; only the AccTree record set is modelled.
- Remote calls whose outcome is unknown to the manager: a call of the model either takes effect and succeeds or does neither.
- A client add or delete is one step; what another client does between its check for a migration and its store is not modelled.
- The window between the source's deleting confirm and `confirmed = true`, in which queries still go to the source, and operations buffered after the replay has taken its list.
- Update operations and their rollback; no update is ever buffered, so that branch of the replay is not modelled.
- MigrationTheorems.ReadsAreComplete: says nothing for a keyword in that window, where the source has deleted and queries still go there.
- MigrationPlacement.EveryRecordInOnePlace: speaks of runs without aborts, since an aborted migration leaves copies behind; what those do to a later one is `MigrationAborts.HandOverIsCompleteIff`.
- MigrationTheorems.NoRecordIsLost: speaks of the guarded machine, whose presplits leave nothing behind and whose replays neither split a leaf nor stop; for the code as it is, `UnguardedKeywords.KeptKeyword` and the conditions beside it speak keyword by keyword.
- Manager.Manager.RunSplitMigration: after a nested split or a stopped replay it promises the exact state, which is a step of the unguarded machine, but not `Valid()`, which speaks of the guarded one.
- UnguardedRuns.NestedSplitStrandsIff: speaks of keywords whose buffered operations all land at the target; for the others `UnguardedRuns.FinishFindsIff` says it identifier by identifier.
- UnguardedRuns.PresplitInMigrationStrandsIff: speaks of a replay that does not itself move the keyword, for which `UnguardedRuns.FitIsSteady` gives the test by counters, and of one presplit of its leaf; otherwise `UnguardedRuns.SteadyFinishFindsIff` and `UnguardedRuns.FinishFindsIff` apply.
- Manager.Manager.PresplitForBatch: does not say how deep the batch's prefixes end up; the code stops refining once a round only splits below prefixes it has presplit before.
- RouteCache.ReturnedRouteIsCurrent: speaks of calls with at most one live guard at their last check; weak memory order, wake-ups and the wrap-around of the 64-bit epoch are not modelled.
- The storing half of `batch_add`, which sends each storager its items in one call and counts them afterwards, with splits on the AccTree backend only; its presplit loop is modelled.
- The router's mode over the consistent-hash ring, which has no prefixes and never migrates; the ring itself is modelled.
- Removing a storager, which renames the ones behind it, and adding one, which rebuilds the ring.
- Parser.Parser.Parse: error messages are kept apart only by place, and positions count characters where the code counts bytes.
- SetProofs.RootsAreSelected: takes leaf polynomials to be characteristic polynomials of their lists; the verifier does not compare a leaf's polynomial with its list, with the consequence in `SetProofs.ForeignPolynomialIsAccepted`.
- SetProofBuilder.BuiltTreeIsAccepted: speaks of trees the builder returns; that the library's division and gcd succeed on set polynomials is not modelled.
- Polynomial.Multiply: two empty coefficient lists, for which the code's length computation underflows, are excluded.
- Outbox.DrainedChainIsUpToDate: speaks of runs whose appends are durable and whose resets succeed and clear the file; failed appends are `Outbox.FailedAppendsRecover`.
- Page files, their names and old shard files; failed disk writes; the 32-bit truncation of page counts. The disk is keyed by prefix and page index.
- PageCacheAds.PageCacheAds.LoadShardRecords: promises the invariant after a read from disk only if the pages there are cut as the page limit cuts their records, as after any flush; stale pages of several versions need not be, and the clean pages put into the cache then differ from the disk.
- AccTrie batch insertion proofs (type 0x10), which no code of the repository writes, and the dispatch on the type byte.
- ProofCodec.WrittenInsertionVerdict: fields, snapshot entries and their number stay below 2^32, and the membership proofs decode, with points of 96 bytes and scalars of 32 (`ProofBytes.UnreadableMembership` for the others); longer fields are cut in their length by the writer.
- BucketRuns.BucketHoldsLists: values with commas are left out; the code would store them as several.
- The MEST and MPT proof verifiers, which check one hash path each.
