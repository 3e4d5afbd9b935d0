# Neuromem: a verified model

Neuromem stores records of conversations in Core nodes, reaches them through an MCP service that
federates several nodes, runs each node under a Node Manager, and governs access from a control
plane. This project models the parts of that system whose correctness is not visible in any one
function, and proves what they promise. `dafny verify dfyconfig.toml` checks everything.

## How it is built

| files | component |
|---|---|
| `Text`, `Json`, `Seqs`, `Sorting`, `Wrappers`, `Scopes` | JavaScript strings, JSON values with printer and reader, canonical JSON, stable sorting, shared types |
| `RetryQueue`, `RetryQueueProofs`, `Idempotency` | the MCP service's durable retry queue: spool, index, every crash between two writes; its registry of idempotency keys |
| `Ingest` | Core's idempotent batch ingest |
| `Delivery`, `DeliveryRuns` | delivery from the MCP service to any number of Cores over a network that loses and repeats; what it does not promise |
| `RuntimeEnv`, `Cutover`, `CutoverProofs`, `CutoverRuns` | generation cutover of a node with its journal and its recovery after restarts |
| `JobQueue`, `JobQueueProofs` | Core's leased job table with many workers |
| `Extraction`, `ExtractionProofs` | the claim extraction transaction and its re-runs |
| `Fusion`, `Ranking`, `Snippets`, `Batch`, `Federated`, `Chunking`, `Context`, `Base64`, `Pagination`, `Uuid7` | the algorithms with exact specifications |
| `ControlPlane`, `ControlPlaneProofs`, `ControlPlaneMoves`, `ControlService` | memberships, links, grants, shares and transfers: outcomes, invariants, who may change what, and the service |

Code that changes state is a class whose methods are tied to functions on values: each operation
of the retry queue and of the Node Manager is a function giving the list of durable states it
passes through, the class performs those writes one by one, and a crash is a prefix of the list.
What the system promises is then proved about the functions, for every reachable state and every run.

## Where the code does less than it says

Each of these is a result of the proofs: the exact condition, and an input or a run that shows it.

- **An acceptance can be lost.** A resolve names a pair of record and target and not an acceptance. A pair
  accepted by `memoryRecord` stays pending until a message of its body is answered that was not answered
  before, in every run, exactly if the process died in the call or no delivery of the pair in progress at
  the call had found the spool file gone, posted another body, or had its answer already
  (`AcceptanceKeptCondition`). An entry that a retry pass has only listed does no harm. A body the Core
  stored before needs no delivery; counting it, the condition is the same but for that
  (`AcceptanceServedCondition`). Two runs lose an acceptance for good: a retry that found the file gone and
  resolves after the record was accepted again (`MissingMarkLosesAcceptance`), and a stale delivery,
  refused before, that resolves after it (`StaleDeliveryLosesAcceptance`).
- **A retry can go astray.** It reads the record by its id alone. What it posts was spooled for its pair
  exactly if the envelope it reads still has a scope for its target (`StrayCondition`);
  `StrayDeliveryIsStored` is a run in which a body never spooled for a target is reported stored there.
  `EndToEnd` covers all other deliveries.
- **Stale recovery.** After an interrupted cutover whose recovery came up unhealthy, a later successful
  cutover is undone by the next restart, exactly if the environment file is still the journalled one up
  to its volume line (`SuccessSurvivesRestart`, `StaleRecoveryUndoesSuccess`). `CutoversAreAllOrNothing`
  therefore is for runs that recover an interrupted cutover before they start another.
- **The journalled hash** matches after a rollback exactly if the volume line was written the way the
  Node Manager writes it (`SwitchBackCondition`). With the value in quotes it does not, and a cutover
  that dies after its first write is left with the new file and the old registry row
  (`QuotedLineIsNotRestored`, `QuotedLineIsNotRolledBack`).
- **A job whose workers die** is taken over without end; its attempts pass `max_attempts` and it never
  fails (`DyingWorkersNeverFailAJob`); when attempts are past the budget is given by
  `AttemptsAreAccountedFor`.
- **A second extraction with other candidates** drops what it says at ordinals already used, and may make
  the record a source of a claim with other content (`RecordedCondition`, `MisattributionCondition`);
  `SecondAnswerBacksTheFirst` does both from an empty store.
- **A new idempotency key** is pruned by the request that claims it exactly if that request prunes and its
  namespace is over the limit by more files than go before the new one: those whose records are not
  spooled and that are older, or as old and listed earlier (`NewestForgotten`). `BusyNamespaceForgets` is
  a run from an empty registry in which the records of ten thousand keys wait to be delivered.
- **Deleting a workspace link** leaves the assignments of its grants active (`DeleteLinkOrphans`, and from
  an empty control plane `DeletedLinkLeavesAssignment`); and the unique pair of a revoked link means the
  pair can never be linked again (`RevokedPairIsNeverLinked`).
- **A federated reply** is bounded only as far as its items go. It is within the limit exactly if the rest
  of it leaves room for the marks, or is within the limit with them (`LimitCondition`); with 320,000
  configured nodes even the reply to a read that finds nothing is over it (`ManyNodesExceed`).

The queue's own guard on repeated targets is weaker than a caller might think, as it counts them
(`AcceptanceCondition`, `RepeatedTargetsLoseOne`); the router removes repetitions first, and then nothing
is lost (`EnqueueKeepsAgreement`).

## Model

| member | source | states |
|---|---|---|
| Json.ValueRoundTrip | apps/mcp/src/retry-queue.ts:35-40 | reading back a printed JSON value gives that value, whatever nests in it |
| Json.CanonicalEqualIffEquivalent | apps/mcp/src/router.ts:185-190 | two values have the same canonical tree exactly if they are equal up to member order and undefined members |
| Json.CanonicalJsonInjective | apps/mcp/src/retry-queue.ts:35-40 | two values print to the same canonical text exactly if they are equal up to member order and undefined members |
| RetryQueue.RetryKeyInjective | apps/mcp/src/retry-queue.ts:31-33 | the joined key tells pairs of record and target apart when the record ids are of the checked form, whatever the targets hold |
| RetryQueue.DurableRetryQueue.EnqueueRecord | apps/mcp/src/retry-queue.ts:137-188 | performs exactly the writes of its list, spool first, or fails and writes nothing; the envelope is rewritten for more targets or a record that prints differently; returns the spooled write |
| RetryQueue.DurableRetryQueue.Resolve | apps/mcp/src/retry-queue.ts:204-219 | takes the target out of the spool, then the entry out of the queue |
| RetryQueue.DurableRetryQueue.Initialize | apps/mcp/src/retry-queue.ts:255-290 | rebuilds the index from the spool with at most one write, or refuses a spool file named after another record |
| RetryQueueProofs.EnqueueKeepsAgreement | apps/mcp/src/retry-queue.ts:137-188 | from its first write on exactly the requested pairs have joined the spool; the index agrees when it returns |
| RetryQueueProofs.AcceptanceCondition | apps/mcp/src/retry-queue.ts:153-172 | whatever the targets, one is not pending afterwards exactly if the record was spooled, its scopes print the same, and as many targets are new as pending ones are repeated |
| RetryQueueProofs.RepeatedTargetsLoseOne | apps/mcp/src/retry-queue.ts:153-172 | a concrete pair of calls with a repeated target after which a new target is not spooled |
| RetryQueueProofs.CollisionExactly | apps/mcp/src/retry-queue.ts:146-156 | a record is refused as a collision exactly if its body differs as JSON from the spooled one |
| RetryQueueProofs.ResolveKeepsAgreement | apps/mcp/src/retry-queue.ts:204-219 | from its first write on exactly this pair has left the spool |
| RetryQueueProofs.MarkPendingKeepsAgreement | apps/mcp/src/retry-queue.ts:190-202 | no pair joins or leaves, in spool or index |
| RetryQueueProofs.ReconcileRestoresAgreement | apps/mcp/src/retry-queue.ts:255-290 | after start-up the index lists exactly the pending pairs; surviving entries come first, unchanged and in order |
| RetryQueueProofs.ReconcileIdle | apps/mcp/src/retry-queue.ts:287-290 | reconciling an index that agrees writes nothing |
| RetryQueueProofs.ReconcileIdempotent | apps/mcp/src/retry-queue.ts:255-290 | reconciling again writes nothing, for any listing order and clock |
| RetryQueueProofs.AgreementInEveryRun | apps/mcp/src/retry-queue.ts:74-290 | in every run with crashes the index agrees with the spool whenever the process is up |
| RetryQueueProofs.AcceptedUntilResolved | apps/mcp/src/retry-queue.ts:137-219 | an accepted pair keeps its body and origin scopes in the spool until the first write of a resolve for it; its attempts count its marks |
| Idempotency.PathInjective | apps/mcp/src/retry-queue.ts:97 | different keys, or namespaces, have different files, as a namespace holds no NUL |
| Idempotency.IdempotencyRegistry.Resolve | apps/mcp/src/retry-queue.ts:89-135 | answers from the file that binds, or claims the key, pruning after every 256 claims |
| Idempotency.IdempotencyRegistry.Prune | apps/mcp/src/retry-queue.ts:292-335 | removes exactly the expired files and, per namespace, the oldest of those too many |
| Idempotency.ActiveStays | apps/mcp/src/retry-queue.ts:293-335 | a file whose record is spooled is never pruned |
| Idempotency.OldestGoFirst | apps/mcp/src/retry-queue.ts:328-333 | only inactive files go, and none that is newer than an inactive one that stays |
| Idempotency.NamespaceBounded | apps/mcp/src/retry-queue.ts:328-333 | after pruning a namespace has at most 10,000 files, or only files whose records are spooled |
| Idempotency.NewestForgotten | apps/mcp/src/retry-queue.ts:121-133 | the request that claims a key also prunes it exactly if it is one that prunes and its namespace is over the limit by more files than go before the new one |
| Idempotency.BusyNamespaceForgets | apps/mcp/src/retry-queue.ts:121-133 | from an empty registry, a run of some ten thousand requests after which the next one forgets its own key, so that asked again it is new |
| Idempotency.KeyIsStable | apps/mcp/src/retry-queue.ts:116-120 | a key keeps its file through any requests, restarts and prunes cut short, while its record is spooled, or its time is not over and its namespace within the limit |
| Idempotency.StableAnswer | apps/mcp/src/retry-queue.ts:116-120 | after any such run a key that still binds gives the same identifier to an equal payload, and an error to any other |
| Ingest.CoreStore.Ingest | apps/core/neuromem_core/services.py:296-452 | one transaction: the batch's whole effect and its receipts, or an error and no effect |
| Ingest.BatchSpec | apps/core/neuromem_core/services.py:318-452 | only the new items are stored, in input order with the next sequences and two jobs each; replays return what is stored |
| Ingest.RefusalCondition | apps/core/neuromem_core/services.py:304-363 | a batch is refused exactly for an unknown session, a conflicting item, or a new item without author |
| Ingest.IngestKeepsValid | apps/core/neuromem_core/services.py:318-452 | the sequences of a session stay exactly 1 to next-1, each record with its two jobs |
| Ingest.EveryRunValid | apps/core/neuromem_core/services.py:296-452 | the same over every run of batches |
| Ingest.EveryRunExtends | apps/core/neuromem_core/services.py:318-363 | over every run a stored record keeps its first content, sequence and scope |
| Ingest.ReplayIsIdempotent | apps/core/neuromem_core/services.py:318-363 | a batch of known, equal items changes nothing and creates no job |
| Ingest.ReplayAfterAnyRun | apps/core/neuromem_core/services.py:318-363 | an accepted batch replayed after any further run gets the original receipts and has no effect |
| Delivery.NextKeepsInvariant | apps/mcp/src/router.ts:593-697 | every step of the system, crash and lost or repeated message included, keeps the delivery invariant |
| Delivery.EndToEnd | apps/mcp/src/router.ts:353-364 | whatever is reported stored is in that Core once, with the content sent up to newline form; body and scope are those spooled for that pair unless its retry went astray; every accepted pair is pending or answered |
| Delivery.FirstContentStays | apps/core/neuromem_core/services.py:318-363 | what a Core holds for a record never changes again, in any run of the whole system |
| Delivery.UnansweredIsQueued | apps/mcp/src/router.ts:607-697 | an accepted pair that was not answered is in the queue whenever the process is up |
| DeliveryRuns.AcceptanceKeptCondition | apps/mcp/src/router.ts:593-632 | an accepted pair stays pending until a message of its body is newly answered, in all runs, exactly if the process died in the call or no delivery of the pair had found the file gone, posted another body or been answered |
| DeliveryRuns.AcceptanceServedCondition | apps/mcp/src/router.ts:607-697 | an accepted body is pending, stored at some time or newly refused, in all runs, exactly if a Core had stored it for the pair before or the condition of `AcceptanceKeptCondition` holds |
| DeliveryRuns.MissingMarkLosesAcceptance | apps/mcp/src/router.ts:593-599 | from an empty system: a retry that found the file gone resolves a later acceptance, which is lost |
| DeliveryRuns.StaleDeliveryLosesAcceptance | apps/mcp/src/router.ts:607-632 | from an empty system: a stale delivery, refused, resolves a later acceptance, which is lost |
| DeliveryRuns.StrayCondition | apps/mcp/src/router.ts:593-605 | what a retry posts was spooled for its pair, in all runs, exactly if the envelope it read has a scope for its target |
| DeliveryRuns.StrayDeliveryIsStored | apps/mcp/src/router.ts:634-647 | from an empty system: a body never spooled for a target is posted there and reported stored |
| RuntimeEnv.VolumeNameInjective | apps/manager/src/node-manager.ts:1811-1817 | two generations of a node never share a volume |
| RuntimeEnv.SwitchBack | apps/manager/src/node-manager.ts:1838-1842 | switching the volume line and switching it back restores the file byte for byte |
| RuntimeEnv.SwitchBackCondition | apps/manager/src/node-manager.ts:1838-1842 | the file comes back byte for byte exactly if its volume line was canonical |
| RuntimeEnv.QuotedLineIsNotRestored | apps/manager/src/node-manager.ts:1838-1842 | a volume line in quotes is read like any other, but its hash does not survive a switch and a switch back |
| RuntimeEnv.NamedVolumeIsRead | apps/manager/src/compose.ts:219-226 | reading the environment returns the volume its line names |
| Cutover.NodeManager.NextUnusedGeneration | apps/manager/src/node-manager.ts:1506-1510 | the least later generation whose volume does not exist; the search ends |
| Cutover.NodeManager.CutOver | apps/manager/src/node-manager.ts:1647-1684 | environment, then registry, and both back if the candidate is unhealthy |
| Cutover.NodeManager.Apply | apps/manager/src/node-manager.ts:522-630 | the durable states of a restore or a migration into a new generation, in order |
| Cutover.NodeManager.RecoverInterruptedOperations | apps/manager/src/state.ts:116-139 | every running record is marked, one write each, whatever the directory order |
| Cutover.NodeManager.ReconcileInterruptedCutovers | apps/manager/src/node-manager.ts:1537-1588 | the latest interrupted cutover is rolled back unless the environment changed |
| CutoverProofs.JournalInFlight | apps/manager/src/node-manager.ts:1512-1536 | the journal entry names the generation the Node runs on, the one it goes to and the very file, so that from here on the cutover can be undone |
| CutoverProofs.ApplyAllOrNothing | apps/manager/src/node-manager.ts:1647-1684 | every durable state of an application but the last is within one cutover from the old generation; the last is exactly the new one or exactly the old one, file and registry |
| CutoverProofs.HashNeverRefuses | apps/manager/src/node-manager.ts:1559-1566 | in a run of crashes the rolled-back file has the journalled hash, and it is the original file |
| CutoverProofs.RestartRecovers | apps/manager/src/node-manager.ts:1538-1588 | a restart cut anywhere keeps the committed generation; one that comes up healthy is at rest on it |
| CutoverRuns.CutoversAreAllOrNothing | apps/manager/src/node-manager.ts:1506-1684 | over every run: file and registry are the committed ones whenever nothing is under way, and no volume is lost |
| CutoverRuns.DeadCutoverIsUndone | apps/manager/src/node-manager.ts:1538-1588 | a cutover dying after any write, then any dying restarts, then one that comes up: back on the original file and registry row |
| CutoverRuns.IdentityHolds | apps/manager/src/node-manager.ts:1011-1027 | the identity check on the volume passes for every node at rest |
| CutoverRuns.SuccessSurvivesRestart | apps/manager/src/node-manager.ts:1538-1566 | a success outlives the next healthy restart exactly if no interrupted record is left or its hash no longer matches |
| CutoverRuns.StaleRecoveryUndoesSuccess | apps/manager/src/node-manager.ts:1539-1546 | from any node at rest, a run in which a restart undoes a later success |
| CutoverRuns.QuotedLineIsNotRolledBack | apps/manager/src/node-manager.ts:1559-1566 | a cutover of a Node with a quoted volume line that dies after its first write is refused recovery: new file, old registry row |
| JobQueue.JobTable.ClaimJobs | apps/core/neuromem_core/worker.py:49-91 | every selected row is leased with one more attempt, the snapshots are those of the leased rows, and all attempts stay accounted for |
| JobQueueProofs.FailedUntilRetried | apps/core/neuromem_core/worker.py:94-139 | a failed job stays as it is, whatever stale workers send, until it is listed for a retry |
| JobQueueProofs.RetryStartsOver | apps/core/neuromem_core/app.py:529-545 | a retry of failed jobs gives each listed one its whole budget back, due at once, and touches no other |
| JobQueueProofs.Fencing | apps/core/neuromem_core/worker.py:94-139 | an update takes effect exactly under the lease the job was claimed with, and then the snapshot's attempts are the row's |
| JobQueueProofs.NextKeepsInvariant | apps/core/neuromem_core/worker.py:49-139 | every step of many workers keeps leases, accounts and batches consistent |
| JobQueueProofs.AttemptsAreAccountedFor | apps/core/neuromem_core/worker.py:70-138 | attempts are burned failures plus takeovers plus the current lease; failed means the budget is used; a job is past its budget exactly if it was taken over more often than the failures and the lease leave room for |
| JobQueueProofs.DoneIsForever | apps/core/neuromem_core/worker.py:94-139 | a done job never changes again |
| JobQueueProofs.DyingWorkersNeverFailAJob | apps/core/neuromem_core/worker.py:52-75 | for every number of dying workers, a run in which the attempts grow by it and the job is still running |
| Extraction.ClaimStore.ExtractClaims | apps/core/neuromem_core/worker.py:311-499 | the transaction commits the effect of all candidates in order, or nothing |
| ExtractionProofs.ExtractKeepsInvariant | apps/core/neuromem_core/worker.py:311-499 | with new identifiers the transaction always commits, keeps uniqueness and sources, and removes nothing |
| ExtractionProofs.EveryRunKeepsInvariant | apps/core/neuromem_core/models.py:325-333 | over every run: one claim per normalized content of a project and per job and ordinal, a source for every claim, one embedding job at most |
| ExtractionProofs.RerunChangesNothing | apps/core/neuromem_core/worker.py:311-401 | running a job again on the same candidates changes nothing, after any other extractions in between |
| ExtractionProofs.RecordedCondition | apps/core/neuromem_core/worker.py:321-364 | a candidate's content is on record afterwards exactly if it was before or the ordinal was free |
| ExtractionProofs.MisattributionCondition | apps/core/neuromem_core/worker.py:345-390 | the transaction adds a source row to a claim with other content exactly if such a claim has the ordinal and the record is not yet its source for that segment |
| ExtractionProofs.SecondAnswerBacksTheFirst | apps/core/neuromem_core/worker.py:321-390 | from an empty store, two runs of a job: the second answer is not on record, and its quote is stored as evidence for the first |
| ExtractionProofs.KeptQuoteIsVerbatim | apps/core/neuromem_core/worker.py:366-380 | a quote that is kept occurs word for word in the segment named as source |
| Fusion.Rrf | apps/mcp/src/router.ts:852-925 | one entry per key, each with the score, ranks and primary item of its group, sorted and cut to the limit |
| Fusion.OrderOfArrivalIrrelevant | apps/mcp/src/router.ts:865-907 | scores, ranks, place and primary node do not depend on the order or repetition of the ranked items |
| Fusion.SortSpec | apps/mcp/src/router.ts:909-911 | the result is sorted by score, best rank and node order, a permutation, and stable |
| Fusion.MoreNodesScoreMore | apps/mcp/src/router.ts:885-893 | a result found by more nodes, or ranked better, never scores less |
| Fusion.NothingBetterIsCut | apps/mcp/src/router.ts:909-912 | nothing the limit cuts off belongs before anything kept |
| Fusion.RecordsMeet | apps/mcp/src/router.ts:168-175 | two records share a key exactly if they have the same identifier, whichever node reports them |
| Ranking.ReciprocalRankFusion | apps/core/neuromem_core/ranking.py:14-36 | each key's score is the sum over the lists of the share of its first place; sorted and cut, empty for a limit below one |
| Ranking.RankingSpec | apps/core/neuromem_core/ranking.py:34-36 | in order of score, ties by first appearance, and nothing cut off scores more than anything kept |
| Uuid7.Generator.Next | apps/core/neuromem_core/ids.py:14-38 | one step of the clock and counter, and the packed value |
| Uuid7.PackFields | apps/core/neuromem_core/ids.py:30-45 | version 7, the RFC variant, and timestamp and counter can be read back |
| Uuid7.PackOrder | apps/core/neuromem_core/ids.py:30-37 | values are ordered by timestamp, then counter |
| Uuid7.ValuesIncrease | apps/mcp/src/ids.ts:19-39 | all values of a process increase strictly for any clock while the timestamp fits 48 bits |
| Uuid7.FinalIsLatest | apps/core/neuromem_core/ids.py:18-28 | the timestamp is never behind any clock reading so far |
| Uuid7.TextOrder | apps/mcp/src/ids.ts:37-38 | the printed strings sort as the numbers |
| Uuid7.OccurredAtInverts | apps/mcp/src/router.ts:217-220 | the milliseconds read from a printed identifier are the ones packed into it, within the range of a date |
| Base64.DecodeInvertsEncode | apps/core/neuromem_core/queries.py:548-562 | decoding inverts encoding for all byte strings |
| Base64.PaddingRestored | apps/core/neuromem_core/queries.py:553-558 | padding that was stripped is restored exactly from the length |
| Base64.StrippedIsUrlSafe | apps/core/neuromem_core/queries.py:553 | a stripped cursor needs no escaping in a URL |
| Pagination.CursorRoundTrip | apps/core/neuromem_core/queries.py:548-562 | decoding inverts encoding of cursors |
| Pagination.NextRest | apps/core/neuromem_core/queries.py:573-621 | the next page starts exactly where this one stopped |
| Pagination.PagesVisitEveryClaimOnce | apps/core/neuromem_core/queries.py:565-621 | following the cursors ends, gives full pages up to the last, and lists every claim once, newest first |
| Snippets.MergeWindows | apps/core/neuromem_core/queries.py:293-312 | the merged windows are sorted with gaps between, cover exactly what the windows cover, and hold each hit's window whole |
| Snippets.EachRecordOnce | apps/core/neuromem_core/queries.py:303-326 | a record is in one merged window at most, and in one only if it is near a hit |
| Snippets.EachHitOnce | apps/core/neuromem_core/queries.py:303-312 | every hit is reported exactly as often as it was found |
| Batch.BoundBatchReplies | apps/mcp/src/http.ts:183-202 | as many replies as requests, each the original or its replacement, within 1,048,576 bytes; a batch that fits is untouched |
| Batch.ReplacementSize | apps/mcp/src/http.ts:193-199 | a replacement and its comma fit in the 2,048 bytes reserved, whatever the id |
| Batch.ArraySize | apps/mcp/src/http.ts:187-188 | appending a reply adds its own bytes and a comma |
| Federated.BoundFederatedResult | apps/mcp/src/router.ts:803-838 | each result, then each snippet, that fits beside those kept before it; within 960,000 bytes exactly as `LimitCondition` says |
| Federated.LimitCondition | apps/mcp/src/router.ts:803-838 | the reply is within 960,000 bytes exactly if the rest of it leaves room for the marks, or is within them with the marks it carries |
| Federated.ManyNodesExceed | apps/mcp/src/router.ts:788-838 | a configuration of nodes for which the reply to a read that finds nothing is over the limit |
| Federated.NothingIsLost | apps/mcp/src/router.ts:811-830 | a reply that fits with all its items loses none |
| Federated.NothingIsKept | apps/mcp/src/router.ts:811-838 | a reply whose rest leaves no room for the marks drops every item and is sent with the marks alone |
| Chunking.ChunkText | apps/core/neuromem_core/chunking.py:29-57 | chunks in order, full up to the last, sharing exactly the overlap; the loop ends at the last token |
| Chunking.ChunksRebuildTokens | apps/core/neuromem_core/chunking.py:42-57 | the first chunk and the later ones past their overlap rebuild the tokens |
| Chunking.NoTripleOverlap | apps/core/neuromem_core/chunking.py:34-35 | no token is in three chunks |
| Context.Fit | apps/control/neuromem_control/memory_gateway.py:847-859 | the text, or its longest prefix within the budget, trimmed |
| Context.LongestSpec | apps/control/neuromem_control/memory_gateway.py:850-857 | no longer prefix fits |
| Context.ContextBuilder.Add | apps/control/neuromem_control/memory_gateway.py:898-931 | the whole new state, and whether all of the content went in |
| Context.SecondCheckNeverFires | apps/control/neuromem_control/memory_gateway.py:910-919 | what was fitted always leaves room for what is already there |
| Context.ContextWithinBudget | apps/control/neuromem_control/memory_gateway.py:891-931 | after any calls the text is exactly the joined sections, within the budget, and so are the sections' own estimates together |
| Context.AddedWholly | apps/control/neuromem_control/memory_gateway.py:907-931 | true is returned exactly if there was nothing to add or all of it is the last section |
| ControlService.Service.DeleteLink | apps/control/neuromem_control/app.py:1460-1487 | the link and its live grants are revoked |
| ControlService.Service.RevokeGrant | apps/control/neuromem_control/services.py:956-984 | the grant and its assignments are revoked by either side |
| ControlPlaneProofs.NextKeepsInvariant | apps/control/neuromem_control/services.py:352-1183 | every transaction keeps owners, links, grants, assignments, shares and transfers consistent |
| ControlPlaneProofs.EveryRunKeepsInvariant | apps/control/neuromem_control/services.py:153-1183 | in every reachable state: an active owner everywhere, grants on active links, both approvals, unique links and live shares |
| ControlPlaneMoves.MemberMoves | apps/control/neuromem_control/services.py:352-540 | over all transactions: a membership is made with its workspace or by an invitation to someone not active, and changed only by an active member with the capability; an owner only by an owner, and never the last |
| ControlPlaneMoves.ShareMoves | apps/control/neuromem_control/services.py:691-821 | over all transactions: an owner proposes, one live share per ordered pair; an owner of the recipient accepts or rejects a proposal; an owner of either side revokes a live share; nothing else changes one |
| ControlPlaneMoves.LinkMoves | apps/control/neuromem_control/services.py:823-894 | over all transactions: an admin of either side proposes and so approves, the other side completes it, either revokes; nothing else changes a link |
| ControlPlaneMoves.GrantMoves | apps/control/neuromem_control/services.py:896-984 | over all transactions: the source grants its project on an active link, the target accepts, either side revokes, also with the link |
| ControlPlaneMoves.AssignmentMoves | apps/control/neuromem_control/services.py:956-1028 | over all transactions: the target assigns active grants only, and only revoking the grant itself ends an assignment |
| ControlPlaneMoves.TransferMoves | apps/control/neuromem_control/services.py:1031-1183 | over all transactions: on an active link, source approves, then target, then target completes; only the side whose turn it is rejects |
| ControlPlaneMoves.EndedIsFinal | apps/control/neuromem_control/services.py:752-1183 | over every run: what is revoked, rejected, completed or ended never changes again |
| ControlPlaneMoves.ApprovalsAreAuthorized | apps/control/neuromem_control/services.py:320-349 | for every approval of a reachable state there is the transaction of the run that gave it, by someone who in the state before it was an active owner (shares) or admin (the rest) of the side it speaks for |
| ControlPlaneMoves.RevokedPairIsNeverLinked | apps/control/neuromem_control/models.py:402-405 | once a link is revoked its ordered pair is never linked again |
| ControlPlaneMoves.DeleteLinkOrphans | apps/control/neuromem_control/app.py:1469-1478 | deleting a link leaves active exactly the assignments of its live grants |
| ControlPlaneMoves.DeletedLinkLeavesAssignment | apps/control/neuromem_control/app.py:1460-1487 | from an empty control plane: a run in which deleting a link leaves an assignment active |
| ControlPlaneMoves.OnlyDeleteLinkOrphans | apps/control/neuromem_control/services.py:956-985 | no other transaction leaves an active assignment on a revoked grant |

## Left out

- HTTP servers and clients, Docker and Compose, process spawning, model providers, the command line, the supervisor and the web interface: input and output around the core.
- SQL planning, vector and trigram search, tokenisation and model calls: the rows a query returns, the tokens and the candidates are inputs.
- Hashes and signatures: SHA-256 is an injective function; no claim about cryptography.
- File locks and their takeover by age or process id: operations of one queue and of one node run one at a time.
- Backoff delays, role tables, settings and single-field checks; capabilities of a credential are an input.
- `phase` and `desired_state` of a node, snapshot copies of its record, and backups: they do not decide which generation is live.
- Environment values with `$` patterns or with line terminators other than a line feed: only the volume line is rewritten here, and its values have neither.
- Unicode normalisation (NFC) of ingested content, record segments, and chunk embedding.
- Lone surrogates in Python strings, and JavaScript numbers that are not integers.
- Floating-point rounding of the scores of `#rrf`.
- Characters outside the alphabet that a base64 decoder skips, and white space a JSON reader allows: cursors are read as they are written.
- What `compactItem` keeps of an oversized item of a federated reply.
- Target ids that are plain numbers, which JavaScript lists before the other keys of an object.
- Registry files that are not JSON, have no readable date or no namespace.
- Agent peers, projects' own grants, wiki pages, credentials, workspaces being disabled, and which projects a share shows.
- EndToEnd: an answer counts for the pair and not for one acceptance, for which `AcceptanceKeptCondition` gives the condition; the scope a retry computes anew when none was spooled for its target is any scope, as the configuration may differ between starts; an accepted pair is answered when some delivery of it was stored or refused by a Core; that the refusal was also reported is not stated, since a crash can come between the two.
- CutoversAreAllOrNothing: for runs in which nothing starts while an interrupted cutover is open; without that it is false, as `StaleRecoveryUndoesSuccess` shows.
- Fusion.Rrf: the snippet and context collections each group carries along are not modelled; keys are computed for all items before the loop, not at each turn, and the order in which a Map lists its keys is the order in which they were first set.
- Extraction.ClaimStore.ExtractClaims: the tables are one value rebuilt statement by statement; the rows locked on the way are not modelled.
