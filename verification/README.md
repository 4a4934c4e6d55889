# OpenClaw pairing: proofs about its protocols

A phone and a desktop pair through a small server, then chat. Three parts of that system carry the promises the rest
relies on, and are modelled here.

**The operation graph.** Messages travel as operations that name their parents and arrive duplicated, out of order,
with parents missing and possibly with cycles. Each replica sorts them by Kahn's algorithm, reports leaves, missing
parents and two version vectors, and answers another replica's vector with a batch. `Orders`, `Kahn`, `KahnLoop` and
`KahnExtend` hold the algorithm once, over abstract ids and an abstract strict total order; `CrdtOps`,
`CrdtAnalysis`, `CrdtVectors`, `CrdtMessages` and the `CrdtSync` modules apply it to operations and to
synchronisation; `ChatGraph` applies it to chat messages, and `ChatSession`, `ChatSort`, `ChatRuns`, `ChatTheorems`,
`ChatAsk`, `ChatSend` and `ChatResend` follow the phone: reconciling a session, folding in messages one by one,
asking for missing ones, choosing what to send after what, and sending again. `CrdtReadings`, `CrdtRequests` and
`ChatReadings` say of the results what they mean in terms of the operations and messages alone.

**The control planes.** `PairingState` says what each operation of the second control plane does to the whole store,
errors included, and `PairingOutcomes` when each succeeds and what it leaves, told from the fields alone.
`PairingInvariant`, `PairingFrames` and `PairingSteps` show what the maps owe each other and what one
operation may do. `PairingRestart` compares writing out and reading back with pruning. `PairingRuns` follows whole
runs, in which the store is written some time after a change or never, and a restart reads the last write or nothing;
`PairingHistory`, `PairingKeys`, `PairingLogins` and `PairingOrigins` say what such a run's past settles about its
present: approvals, keys, logins, and whose keys a binding carries. `PairingLoss` works one run out in which an
approval is lost. `PairingStore` and `PairingPersist` hold the imperative code, maps updated in
place and loops over maps in unspecified order, each method proved to do what its specification says. `Signals` does
the same for channels and queues; `DeviceState`, `DeviceIndexes` and `DeviceRegistry` for the first control plane,
whose four indexes are kept up to date by hand, and `DeviceOutcomes` and `DeviceHistory` say what its operations and
runs settle. `Helpers` has what the two control planes share.

**Inline Markdown.** `Markdown` has the parser as a loop with recursion, its meaning as a function, and a printer.

## Reading the model

- `localeCompare` is any strict total order `col` (`StrictTotal`): zero only for equal strings. Strings are sequences
  of characters. The default `sort()` is the code-unit order, proved total in `Orders`.
- JavaScript numbers that reach a counter are reals, truncated as the source truncates them; `NaN` and the infinities
  are not in the model. `Map` and `Set` are maps, sets or repetition-free lists in insertion order. `Array.sort` is a
  stable insertion sort; with an inconsistent comparator the language leaves the result open.
- Every operation of a control plane is one step under its lock. Time is an argument of each step and need not be
  monotone; where a theorem needs two times in order it says so.
- A store follows an earlier one (`Follows`) when every restart between them read a write of a store that did.
- Ids and tokens drawn at random are arguments of the step. `issued` records those drawn so far, and a step that
  stores one requires it new. The v1 pair codes, drawn from a million, may come again.
- Keys and signatures enter as the outcome of decoding and checking them: malformed, or the canonical key, or whether
  the signature verifies (`LoginRequest`).
- A loop over a Go map visits the keys in any order (`:|`). Where that leaves the result of a search open, the result
  is an argument constrained by `Found` or `Search`, and the invariant shows that only one value fits.

## Where the code does less than one might expect

- Arrival order is irrelevant only if equal ids mean equal operations, because the first copy wins
  (`CrdtAnalysis.ConvergenceExactly`).
- A bounded exchange stalls on any gap in an author's numbers (`CrdtSyncTheorems.ProgressExactly`, `GapStalls`).
- The session comparator is cyclic exactly when a system message is timed between two chat messages that the graph
  orders against their times (`ChatSort.ComparatorExactly`, `ChatTheorems.SkewUnsettles`).
- A restart within a second of the last write can bring back an entity that has lapsed (`PairingRestart.FloorRevives`);
  from one second on it cannot (`RestartBeyondFloor`).
- No operation of the second control plane takes an approval back (`PairingHistory.AuthorizedForever`), but a restart
  does if nothing was written since: writes wait 200 ms after the last change, a failed one is only logged, and the
  memory backend never writes (`PairingHistory.UnwrittenApprovalLost`, `PairingLoss.LostApproval`). Exactly the
  approvals that every restart since has read back are in force (`PairingHistory.ActiveExactly`).

## Model

| member | source | states |
|---|---|---|
| Kahn.EmitCausal | packages/protocol/src/crdt-graph.ts:147-167 | Every node the loop emits comes after all its known parents. |
| Kahn.OrderFacts | packages/protocol/src/crdt-graph.ts:147-173 | Loop output and sorted tail together list every node exactly once: nothing is lost, nothing queued twice. |
| Kahn.OrderGreedy | packages/protocol/src/crdt-graph.ts:147-173 | At every position the order has the least of the nodes that are ready there, as long as nodes that reach no cycle are left, and after them the others in ascending order: this alone determines it. |
| Kahn.StuckExactly | packages/protocol/src/crdt-graph.ts:168-173 | A node lands in the sorted tail exactly when a chain of known parents from it (itself included) reaches a cycle. |
| Kahn.CausalIffAcyclic | packages/protocol/src/crdt-graph.ts:147-173 | The whole order puts parents first exactly when the graph has no cycle. |
| Kahn.AncestorsFirst | packages/protocol/src/crdt-graph.ts:147-173 | On an acyclic graph every ancestor, however far, stands before its descendant. |
| Kahn.OrderIsPlainSort | packages/protocol/src/crdt-graph.ts:147-173 | When every known parent compares below its child, the order is the plain sort of all nodes. |
| Kahn.LeavesExactly | packages/protocol/src/crdt-graph.ts:175-193 | A node is reported as a leaf exactly when it exists and no stored node names it as a known parent. |
| Kahn.LeavesInOrder | packages/protocol/src/crdt-graph.ts:193-193 | Leaves come in the order of the nodes. |
| Kahn.EveryNodeBelowALeaf | packages/message-sdk/src/openclaw-chat.ts:116-178 | On an acyclic graph every node is an ancestor-or-self of some leaf. |
| KahnLoop.DegreeDrops | packages/protocol/src/crdt-graph.ts:156-166 | Emitting a parent lowers the number of not yet emitted parents by one, so clamping an in-degree at zero never takes effect. |
| KahnLoop.ReleaseOne | packages/protocol/src/crdt-graph.ts:156-166 | One pass of the inner loop keeps each in-degree equal to the parents still to come, and queues a child at its last parent only. |
| KahnLoop.Release | packages/protocol/src/crdt-graph.ts:156-166 | The inner loop lowers the degrees of the children of the emitted node and re-sorts exactly the freed ones into the ready list. |
| KahnLoop.Drain | packages/protocol/src/crdt-graph.ts:152-173 | The while loop emits, in order, exactly what always choosing the least ready node emits. |
| KahnLoop.IndexParents | packages/protocol/src/crdt-graph.ts:130-146 | In-degrees count distinct known parents; the child table is the inverse relation; the missing set is every named parent that is not stored. |
| KahnLoop.Analyze | packages/protocol/src/crdt-graph.ts:123-199 | The imperative analysis computes the abstract order, leaves, sorted missing ids and sorted child lists, for any ids and any strict total order. |
| Ids.TrimExactly | packages/protocol/src/crdt.ts:193-195 | A trimmed string is the string without the white space at its two ends, and nothing else is. |
| Ids.NormalizeIdsOrder | packages/protocol/src/crdt.ts:197-200 | Normalized ids stand in the order in which they first came. |
| Ids.CounterExactly | packages/protocol/src/crdt.ts:207-211 | A counter is the whole part of a positive number, and zero of any other. |
| Orders.CodeUnitExactly | packages/protocol/src/crdt-graph.ts:186-194 | The default sort puts a before b exactly when a is a proper prefix or has the smaller character where the two first differ. |
| CrdtOps.NormalizeIdempotent | packages/protocol/src/crdt-graph.ts:59-80 | Normalizing an operation twice is normalizing it once. |
| CrdtOps.OpLessTransitive | packages/protocol/src/crdt-graph.ts:37-57 | The comparison by clock, author, number and id is transitive. |
| CrdtOps.OpLessConnected | packages/protocol/src/crdt-graph.ts:37-57 | Two operations are incomparable exactly when clock, author, number and id all agree. |
| CrdtOps.FirstWins | packages/protocol/src/crdt-graph.ts:59-80 | The copy kept for an id is the normalized first one that arrived. |
| CrdtOps.SameSetSameMap | packages/protocol/src/crdt-graph.ts:59-80 | Two deliveries of the same consistent set of operations deduplicate to the same map, whatever their order and repetitions. |
| CrdtOps.Dedupe | packages/protocol/src/crdt-graph.ts:59-80 | The loop keeps the first copy of each non-blank id and drops the rest. |
| CrdtAnalysis.AnalyzeCrdtOps | packages/protocol/src/crdt-graph.ts:123-199 | The analysis of a bag of operations: order, leaves, missing parents, child lists and both vectors, each as specified. |
| CrdtReadings.OrderedInTurn | packages/protocol/src/crdt-graph.ts:37-57 | When clocks rise from every known parent to its child, the ordered operations come by clock, then author, then number, then id: of any two the later never compares below the earlier. |
| CrdtReadings.KeptExactly | packages/protocol/src/crdt-graph.ts:59-80 | An id is stored exactly when some operation arrived with it, trimmed and not blank; the first such arrival is stored, its fields tidied. |
| CrdtReadings.ArrivalOrder | packages/protocol/src/crdt-graph.ts:59-80 | Kept operations are listed in the order of their first arrival. |
| CrdtReadings.LeavesAndMissing | packages/protocol/src/crdt-graph.ts:123-199 | A leaf is an operation that no stored one names as parent; a missing parent is named by a stored operation and not stored itself. |
| CrdtReadings.MissingAscend | packages/protocol/src/crdt-graph.ts:123-199 | The missing parents come in ascending code-unit order. |
| CrdtReadings.ChildrenExactly | packages/protocol/src/crdt-graph.ts:123-199 | The children listed under a parent are exactly the stored operations that name it. |
| CrdtReadings.VectorsRead | packages/protocol/src/crdt-graph.ts:82-121 | Both version vectors read off the stored operations themselves: the greatest number held of an author, and the greatest n with 1..n all held. |
| CrdtAnalysis.OrderedOpsPermute | packages/protocol/src/crdt-graph.ts:152-173 | The ordered operations are the deduplicated ones, each exactly once. |
| CrdtAnalysis.OrderIsCausal | packages/protocol/src/crdt-graph.ts:152-173 | The order of operations is causal exactly when their graph is acyclic. |
| CrdtAnalysis.Convergence | packages/protocol/src/crdt-graph.ts:123-199 | Replicas holding the same consistent set analyze it alike. |
| CrdtAnalysis.ConvergenceExactly | packages/protocol/src/crdt-graph.ts:59-80 | Arrival order is irrelevant if and only if equal ids mean equal operations. |
| CrdtVectors.ObservedAt | packages/protocol/src/crdt-graph.ts:82-93 | The observed entry of an author is the maximum of its numbers, zero if it has none. |
| CrdtVectors.ContiguousLargest | packages/protocol/src/crdt-graph.ts:95-121 | The contiguous entry is the largest n with 1..n all present, and never exceeds the observed one. |
| CrdtVectors.ObservedUnion | packages/protocol/src/crdt-graph.ts:82-93 | The observed vector of a union is the merge of the observed vectors. |
| CrdtVectors.ContiguousUnion | packages/protocol/src/crdt-graph.ts:95-121 | The contiguous entry of a union is at least the merged one, and equal exactly when neither side holds the next number. |
| CrdtVectors.MergeCommutes | packages/protocol/src/crdt.ts:218-227 | Merging is commutative. |
| CrdtVectors.MergeAssociates | packages/protocol/src/crdt.ts:218-227 | Merging is associative. |
| CrdtVectors.MergeIdempotent | packages/protocol/src/crdt.ts:218-227 | Merging a vector with itself changes nothing. |
| CrdtVectors.MergeLeast | packages/protocol/src/crdt.ts:218-227 | The merge is the least vector above both. |
| CrdtVectors.DiffSuffices | packages/protocol/src/crdt.ts:229-242 | Merging in the difference gives, read with default zero, what merging the whole remote vector gives. |
| CrdtVectors.BuildObservedVersionVector | packages/protocol/src/crdt-graph.ts:82-93 | The loop computes the observed vector. |
| CrdtVectors.BuildContiguousVersionVector | packages/protocol/src/crdt-graph.ts:95-121 | The loops compute the contiguous vector. |
| CrdtVectors.MergeVersionVectors | packages/protocol/src/crdt.ts:218-227 | The loop computes the merge of two normalized records. |
| CrdtVectors.DiffVersionVectors | packages/protocol/src/crdt.ts:229-242 | The loop computes the entries in which the remote record is ahead. |
| CrdtRequests.VectorReads | packages/protocol/src/crdt.ts:202-216 | A record says of an author the whole, non-negative part of the last number filed under its trimmed key, and zero if there is none; the normalized vector reads exactly that. |
| CrdtRequests.MergeReads | packages/protocol/src/crdt.ts:218-227 | The merge of two records reads, for every author, the greater of what the two say. |
| CrdtRequests.DiffReads | packages/protocol/src/crdt.ts:229-242 | The difference has exactly the authors of which the remote record says more, each with the number it says. |
| CrdtSync.SelectCrdtOpsForSync | packages/protocol/src/crdt-graph.ts:218-234 | The batch is the sender's order filtered by the requested vector and cut to the limit. |
| CrdtRequests.RequestedBatch | packages/protocol/src/crdt-graph.ts:218-234 | Asked with any listing of the receiver's own vector, the selection is the batch that the synchronisation theorems speak of. |
| CrdtRequests.NewerReads | packages/protocol/src/crdt-graph.ts:224-229 | An operation qualifies exactly when its number exceeds what the vector has for its trimmed author. |
| CrdtRequests.BatchReads | packages/protocol/src/crdt-graph.ts:230-233 | The batch is a prefix of the qualifying operations: all of them without a limit, otherwise the whole part of the limit, at least one and at most all. |
| CrdtRequests.NewerInOrder | packages/protocol/src/crdt-graph.ts:224-229 | Qualifying operations keep the order of the sender. |
| CrdtSync.ReceiveIsAppend | packages/protocol/src/crdt-graph.ts:59-80 | Receiving a batch is deduplicating the held operations followed by the batch. |
| CrdtSyncTheorems.Progress | packages/protocol/src/crdt-graph.ts:218-234 | A nonempty batch strictly raises the receiver's contiguous vector, at the author of its first operation. |
| CrdtSyncTheorems.NeverLowers | packages/protocol/src/crdt-graph.ts:218-234 | No batch ever lowers an entry. |
| CrdtSyncTheorems.ProgressExactly | packages/protocol/src/crdt-graph.ts:218-234 | Progress is guaranteed for every sub-replica if and only if the sender's order lists each author by number from 1 without gaps and every numbered operation has an author. |
| CrdtSyncTheorems.GapStalls | packages/protocol/src/crdt-graph.ts:218-234 | Over a gap a batch of one raises no entry, is cut again unchanged, and ingesting it again changes nothing. |
| CrdtSyncTheorems.GapStallsForever | packages/protocol/src/crdt-graph.ts:218-234 | However many rounds are made over the gap, each sends that same operation and nothing moves after the first. |
| CrdtSyncTheorems.EmptyBatchIsComplete | packages/protocol/src/crdt-graph.ts:218-234 | An empty batch means the receiver holds every operation of the sender. |
| CrdtSyncTheorems.OneBatchSuffices | packages/protocol/src/crdt-graph.ts:218-234 | Without a limit one batch leaves the receiver with the union. |
| CrdtSyncRuns.BoundedSyncCompletes | packages/protocol/src/crdt-graph.ts:218-234 | Bounded rounds end, and end with the union of both replicas. |
| CrdtSyncRuns.ExchangeAgrees | packages/protocol/src/crdt-graph.ts:218-234 | After each side answered the other, both hold the same operations. |
| CrdtSyncRuns.CausalClosure | packages/protocol/src/crdt-graph.ts:152-173 | Any prefix of a batch, delivered to a receiver that misses no parents, leaves it missing none. |
| CrdtMessages.MaterializeCrdtMessages | packages/protocol/src/crdt-graph.ts:236-283 | The loop yields the winners of the causal order, re-sorted. |
| CrdtReadings.MessagesInTurn | packages/protocol/src/crdt-graph.ts:275-283 | The operations behind the message list come by clock, then author, then number, then id, whatever their parents. |
| CrdtReadings.MessageRead | packages/protocol/src/crdt-graph.ts:236-274 | Each message tells, field by field, what some stored create says, and no create of that message id stands before that one. |
| CrdtReadings.MessageForEach | packages/protocol/src/crdt-graph.ts:236-274 | Every message id that a stored operation creates has exactly one message. |
| CrdtMessages.MessagesExactly | packages/protocol/src/crdt-graph.ts:236-283 | Each message id appears once, with the content of its first creating operation in causal order, and no other message appears. |
| CrdtMessages.MessagesConverge | packages/protocol/src/crdt-graph.ts:236-283 | Replicas with the same consistent operations show the same messages. |
| CrdtMessages.DescendantNeverWins | packages/protocol/src/crdt-graph.ts:236-283 | On an acyclic graph a create that descends from another create of the same id never wins. |
| CrdtMessages.ResortIsCausal | packages/protocol/src/crdt-graph.ts:236-283 | When parents compare below children, the final re-sort leaves the winners in causal order as they were. |
| CrdtMessages.ResortExactly | packages/protocol/src/crdt-graph.ts:275-283 | The final re-sort lists the winners causally if and only if each winner's winning ancestors compare below it. |
| ChatGraph.AnalyzeOpenClawPairChatGraph | packages/message-sdk/src/openclaw-chat.ts:101-185 | The chat analysis is the same algorithm on the last copy of each message. |
| ChatGraph.SameLatest | packages/message-sdk/src/openclaw-chat.ts:101-114 | Immutable messages are analyzed alike in whatever order they come. |
| ChatSession.StripIdempotent | mobile/src/utils/chatGraph.ts:29-51 | Normalizing a stored message again changes nothing. |
| ChatSession.ReconcileSessionMessages | mobile/src/utils/chatGraph.ts:108-157 | The loops compute the reconciled session: the messages, the leaves and the missing ids. |
| ChatReadings.ReconciledReads | mobile/src/utils/chatGraph.ts:108-157 | Each reconciled message is the last one given with its id and kind, and lists as missing exactly those of its parents of which there is no chat message. |
| ChatReadings.ReconciledByTime | mobile/src/utils/chatGraph.ts:20-27 | When times rise from parent to child the reconciled list is in order of time and then id, system messages included. |
| ChatReadings.LeavesAndMissing | packages/message-sdk/src/openclaw-chat.ts:101-185 | A leaf is a stored message that no stored one names; a missing id is named by a stored message and not stored. |
| ChatReadings.MissingAscend | packages/message-sdk/src/openclaw-chat.ts:180-184 | Missing ids come in ascending code-unit order. |
| ChatSort.ComparatorExactly | mobile/src/utils/chatGraph.ts:142-150 | The sort comparator is a total order exactly when no system message is timed between two chat messages the graph orders the other way. |
| ChatSort.ReconcileKeepsTables | mobile/src/utils/chatGraph.ts:108-157 | Reconciling loses no message and invents none. |
| ChatSort.ReconcileSettles | mobile/src/utils/chatGraph.ts:108-157 | In a settled session the result depends only on which messages are stored. |
| ChatSort.ReconcileIdempotent | mobile/src/utils/chatGraph.ts:108-157 | Reconciling a settled session again changes nothing. |
| ChatTheorems.SettledCausal | mobile/src/utils/chatGraph.ts:142-150 | In a settled session every chat message stands after its known parents. |
| ChatTheorems.AgreeingSettles | mobile/src/utils/chatGraph.ts:20-27 | When the graph order is ascending in time and id, the session settles and is listed by time and id, system messages included. |
| ChatTheorems.AgreesExactly | mobile/src/utils/chatGraph.ts:120-150 | On an acyclic chat the graph order is ascending in time and id if and only if every known parent compares below its child. |
| ChatTheorems.ParentsBelowSettles | mobile/src/utils/chatGraph.ts:142-150 | When every known parent compares below its child, the session settles and is listed by time and id. |
| ChatTheorems.ChatOnlySettles | mobile/src/utils/chatGraph.ts:142-150 | Without system messages every session settles. |
| ChatTheorems.SkewUnsettles | mobile/src/utils/chatGraph.ts:142-150 | A child stamped earlier than its parent, with any system message timed in between, makes the comparator cyclic. |
| ChatTheorems.SkewedSession | mobile/src/utils/chatGraph.ts:142-150 | A concrete session: chat a at 10, chat b after it at 5, system message s at 7, and the comparator puts b before s, s before a, a before b. |
| ChatRuns.UpsertSessionMessage | mobile/src/utils/chatGraph.ts:159-175 | One upsert replaces the message of that id, reconciles, and reports the missing ids that were not missing before. |
| ChatRuns.UpsertViews | mobile/src/utils/chatGraph.ts:159-175 | Over any run, the leaves and the missing ids of an upsert are those of the messages received so far. |
| ChatReadings.InsertedExactly | mobile/src/utils/chatGraph.ts:159-165 | An upsert counts as an insertion exactly when no message of the session has the incoming id. |
| ChatReadings.TableReads | mobile/src/utils/chatGraph.ts:159-175 | A run leaves of each id its last message, in the table of that message's kind. |
| ChatRuns.SessionTables | mobile/src/utils/chatGraph.ts:159-175 | A run leaves the last copy of each message, exactly. |
| ChatRuns.SessionSettles | mobile/src/utils/chatGraph.ts:159-175 | While a run stays settled its session is a function of the messages received. |
| ChatRuns.ConfluenceExactly | mobile/src/utils/chatGraph.ts:159-175 | Two settled runs end in the same session if and only if they leave the same messages. |
| ChatRuns.PermutedRunsAgree | mobile/src/utils/chatGraph.ts:159-175 | Runs of the same immutable messages, in any order and with repetitions, leave the same messages. |
| ChatAsk.PendingExactly | mobile/src/utils/chatGraph.ts:159-175 | An id is pending after a run exactly when some received message names it and it was not received. |
| ChatAsk.NewlyMissingIs | mobile/src/utils/chatGraph.ts:166-175 | For any run, the newly missing ids of an upsert are those pending after it and not before, once each. |
| ChatAsk.NewlyMissingExactly | mobile/src/utils/chatGraph.ts:166-175 | For immutable chat messages, these are exactly the parents the message names that were not received by now and not pending before. |
| ChatAsk.AskedExactly | mobile/src/utils/chatGraph.ts:159-175 | An id is asked for in a run exactly when it was missing at some moment of it. |
| ChatAsk.AskedOnce | mobile/src/utils/chatGraph.ts:159-175 | Over a run no id is reported newly missing twice. |
| ChatAsk.AskedBalance | mobile/src/utils/chatGraph.ts:159-175 | The ids asked for are exactly those still pending plus those received since. |
| ChatAsk.AsksForOwnParents | mobile/src/utils/chatGraph.ts:166-175 | What an upsert asks for is among the parents of the message it received. |
| ChatSend.SendingDominates | mobile/src/state/SessionsContext.tsx:1990-2010 | A fresh message sent after the current leaves keeps the graph acyclic, is its only leaf and comes last. |
| ChatSend.NextSeqExceeds | mobile/src/state/SessionsContext.tsx:122-128 | The next number exceeds every stored number of the origin and is the least such positive one. |
| ChatReadings.NextPhoneSeq | mobile/src/state/SessionsContext.tsx:122-128 | The phone's next number is the least above the whole parts of all numbers on its own messages, labelled or sent from here, and at least one. |
| ChatResend.DescribeSessionChatState | mobile/src/utils/chatGraph.ts:69-106 | The loops report, per origin, the largest n with 1..n all held, and the leaves. |
| ChatReadings.HeldReads | mobile/src/utils/chatGraph.ts:69-106 | A number counts as held exactly when a stored chat message of that origin carries it. |
| ChatResend.ResendExactly | mobile/src/state/SessionsContext.tsx:1236-1239 | What is sent again is exactly the phone's own messages numbered above the reported count. |
| ChatReadings.ResendReads | mobile/src/state/SessionsContext.tsx:1236-1239 | Sent again are exactly the phone's chat messages whose whole number is above the whole part of the reported one. |
| ChatResend.ResendCompletes | mobile/src/state/SessionsContext.tsx:1236-1239 | A desktop that reports its contiguous count is sent everything of the phone it lacks. |
| ChatResend.PartialResendAdvances | mobile/src/state/SessionsContext.tsx:1236-1265 | If the phone kept its messages 1..n and the first k of the resend arrive, the desktop's count rises by at least k. |
| ChatResend.AnyResendAdvances | mobile/src/state/SessionsContext.tsx:1241-1265 | Whatever part of the resend arrives, the count reaches at least one below the first number that failed, and exactly that unless the desktop held this number. |
| PairingStore.V2Store.PruneExpired | server/v2_store.go:254-321 | The loops compute the pruned state, and report a change exactly when there is one. |
| PairingOutcomes.PrunedEntities | server/v2_store.go:49-58 | A prune drops exactly the entities neither seen nor updated in the last 15 minutes, and changes no other. |
| PairingOutcomes.PrunedLogins | server/v2_store.go:257-269 | It drops exactly the expired challenges, and the auth sessions that are expired or whose entity it drops. |
| PairingOutcomes.PrunedSessions | server/v2_store.go:271-282 | It closes exactly the pending and claimed sessions past their time, and takes exactly their tokens out of the index. |
| PairingOutcomes.PrunedQueues | server/v2_store.go:304-319 | It drops exactly the queues of the entities it drops. |
| PairingOutcomes.EntityKeyIs | server/main.go:168-170 | The key of an entity is its type, a colon and its id. |
| Helpers.TrimSpaceExactly | server/main.go:227-233 | Trimming cuts off the white space at both ends, all of it and nothing else. |
| PairingStore.V2Store.CreateChallenge | server/v2_store.go:337-376 | A malformed request changes nothing; otherwise the challenge is stored after a prune. |
| PairingOutcomes.ChallengeExactly | server/v2_store.go:337-376 | Exactly a request with a known type, an id and a well-formed key gets a challenge, for that entity and key and for five minutes. |
| PairingStore.V2Store.Login | server/v2_store.go:378-489 | Login in place: every refusal, the entity created or refreshed, the challenge used up, the session opened. |
| PairingOutcomes.LoginExactly | server/v2_store.go:405-489 | A login succeeds if and only if its signature verifies over a stored, unexpired challenge made for its own entity and key, and the entity is not stored with another key; it spends the challenge and opens one session for 15 minutes. |
| PairingOutcomes.LoginRefused | server/v2_store.go:405-427 | Unauthorized is the answer exactly to a signature that does not verify over such a challenge, and every refusal leaves the pruned store, or for a malformed request the very same store. |
| PairingOutcomes.LoginEntities | server/v2_store.go:421-465 | The entity a login leaves, created or refreshed, with all its fields. |
| PairingLogins.OpenedByVerifiedLogin | server/v2_store.go:337-489 | Over runs: every stored auth session was opened by a login whose signature verified; its challenge was handed out less than five minutes before to the same entity and key, with no restart between, and is never stored again. |
| PairingLogins.ChallengeUsedOnce | server/v2_store.go:467-489 | Over runs: no two logins that open sessions use the same challenge. |
| PairingLogins.AuthenticatedLoggedIn | server/v2_store.go:491-513 | Over runs: whoever is let in with a token has logged in for it, verified, at an earlier step. |
| PairingStore.V2Store.StoreEntity | server/v2_store.go:421-465 | The entity is created or refreshed, unless it is stored with another key. |
| PairingStore.V2Store.Authenticate | server/v2_store.go:491-551 | Authentication in place, including the branches that would create a missing entity again. |
| PairingOutcomes.AuthenticateExactly | server/v2_store.go:491-513 | A token is good if and only if the prune leaves its session stored; using it renews that session for 15 minutes and changes nothing else. |
| PairingStore.V2Store.Presence | server/v2_store.go:553-653 | Announcing and heartbeating presence in place. |
| PairingOutcomes.PresenceExactly | server/v2_store.go:553-653 | Presence reaches exactly a stored entity, seen now and online; a blank platform or version is written only by a desktop's announcement. |
| PairingStore.V2Store.CreatePairSession | server/v2_store.go:655-703 | A pending session and its claim token are stored for the calling desktop. |
| PairingOutcomes.CreateExactly | server/v2_store.go:655-703 | Exactly a stored desktop opens a session, pending, under its own key, for 60 to 600 seconds and 180 unless it asks. |
| PairingOrigins.SessionOrigin | server/v2_store.go:655-703 | Over runs: every stored session carries the token, nonce and times its own desktop's create step gave it, and the key that desktop was stored with then. |
| PairingStore.V2Store.DeletePairSession | server/v2_store.go:705-734 | Only an unclaimed pending session of the calling desktop is deleted, with its token. |
| PairingOutcomes.DeleteExactly | server/v2_store.go:705-734 | A desktop deletes exactly its own pending sessions; the session and its token are gone and nothing else changes. |
| PairingStore.V2Store.FindBinding | server/v2_store.go:736-743 | The search returns some live binding of the pair, or none if there is none. |
| PairingStore.V2Store.ClaimPair | server/v2_store.go:745-835 | Claiming in place, with whatever binding the unordered search met. |
| PairingOutcomes.ClaimExactly | server/v2_store.go:745-793 | A mobile claims the session that carries its token if and only if the session is pending, or claimed by this very mobile, the mobile is stored, and the two have no active binding; a session claimed by another mobile is refused as such. |
| PairingOutcomes.ClaimWrites | server/v2_store.go:785-832 | Field by field what a claim writes: keys and names are the claiming mobile's and the session's, the session names the mobile and the binding, nothing else changes but the display name. |
| PairingOutcomes.ClaimRenews | server/v2_store.go:795-826 | A claim keeps the id, the creation time and the approval of the binding its two parties have, and makes a new one only if they have none. |
| PairingOutcomes.ClaimRefused | server/v2_store.go:755-798 | A refused claim leaves the pruned store, except that an already paired phone still gets the display name it came with. |
| PairingOrigins.PartiesOfLastClaim | server/v2_store.go:795-832 | Over runs: the session, the keys and the display name in a binding are those of its last claim that the store still follows. |
| PairingOrigins.BindingOrigin | server/v2_store.go:655-832 | Over runs: the keys in a binding are the desktop's own when it created the session and the mobile's own when it claimed it. |
| PairingStore.V2Store.ApproveBinding | server/v2_store.go:837-877 | Approving in place: the binding active, its session closed and off the index. |
| PairingOutcomes.ApproveExactly | server/v2_store.go:837-877 | A desktop approves exactly its own pending bindings: active from now on, the session approved while stored, its token leading nowhere. |
| PairingStore.V2Store.AuthorizeSignalSend | server/v2_store.go:994-1032 | A signal is authorized as oneself, to the other kind, along an active binding. |
| PairingInvariant.FindIsDeterministic | server/v2_store.go:736-743 | In a consistent store every order of the search gives the same answer. |
| PairingInvariant.ClaimedBinding | server/v2_store.go:775-832 | The binding a claim writes is of the session's device and the mobile, the only live one of that pair, and the session's own if it had one. |
| PairingInvariant.ClaimPairKeeps | server/v2_store.go:745-835 | A claim keeps index, sessions and bindings in agreement and never redirects a session to another binding. |
| PairingInvariant.ApproveKeeps | server/v2_store.go:837-877 | An approval keeps all the maps in agreement. |
| PairingInvariant.PruneKeeps | server/v2_store.go:254-321 | A prune keeps all the maps in agreement. |
| PairingInvariant.AuthenticateFindsEntity | server/v2_store.go:508-546 | Authentication always finds a live entity with the session's key: the expired and re-creation branches are dead. |
| PairingSteps.NextKeeps | server/v2_store.go:254-877 | Every operation keeps the invariant: auth sessions agree with entities, the token index is exact, claimed sessions name the binding of their device and mobile, one live binding per pair. |
| PairingRuns.RunInv | server/v2_store.go:59-72 | Every state reachable from the empty store satisfies the invariant, through any operations, writes at any time or never, and restarts at any moment that read the last write or nothing. |
| PairingRuns.SavedIs | server/main.go:1793-1823 | What a restart can read is the store as it was at the last write, filtered then. |
| PairingRuns.RebootSalvages | server/main.go:1452-1544 | A restart goes back to the store of the last write, or to an empty one: all its bindings, some of its sessions and entities, unchanged. |
| PairingRuns.FollowsExactly | server/main.go:1797-1823 | A store follows an earlier one if every restart since came after a write since; and, when every restart found something to read, only then. |
| PairingSteps.NextSessions | server/v2_store.go:655-877 | In one operation a session makes only the allowed moves, keeps its claimer and binding once set, appears only by creation under an unused id, and is deleted only pending and by its own device. |
| PairingSteps.NextBindings | server/v2_store.go:745-877 | In one operation bindings never vanish or change hands; only a claim by its own mobile makes one; only an approval by its own device activates one. |
| PairingHistory.SessionLife | server/v2_store.go:655-877 | Between two stores of which the later follows the earlier: claimer and binding are write-once, approval is final, and a session approved after expiry had been claimed before. |
| PairingHistory.BindingLife | server/v2_store.go:745-877 | In every store that follows, a binding keeps its device and mobile, and an active one never changes again. |
| PairingHistory.SessionCreated | server/v2_store.go:655-703 | Every stored session was created by its own device. |
| PairingHistory.BindingClaimed | server/v2_store.go:745-835 | Every binding was claimed by its mobile through a session of its device. |
| PairingHistory.ActiveExactly | server/v2_store.go:837-877 | After any run a binding is active if and only if its device approved it at some position that the store still follows. |
| PairingHistory.ActiveProvenance | server/v2_store.go:745-877 | Behind every active binding lie, in this order, a session created by its device, a claim of it by its mobile, and an approval by its device that the store still follows. |
| PairingHistory.UnwrittenApprovalLost | server/main.go:1793-1823 | An approval is lost in a restart if nothing was written in between: the binding is pending again or gone. |
| PairingLoss.LostApproval | server/main.go:1793-1823 | One run, worked out: the desktop approves, a signal may be sent, the process restarts before a write, the binding is pending and the signal refused. |
| PairingHistory.AuthorizedWasPaired | server/v2_store.go:985-1032 | An authorized signal runs between a desktop and a mobile with that whole history. |
| PairingHistory.AuthorizedExactly | server/v2_store.go:985-1032 | After any run a send is authorized if and only if it is well addressed and the desktop approved a binding with the mobile at some position that the store still follows. |
| PairingHistory.AuthorizedForever | server/v2_store.go:985-1032 | No operation takes an authorization back: what may be sent once may be sent in every store that follows. |
| PairingKeys.KeyConstant | server/v2_store.go:421-465 | In one operation a stored public key stays or goes; only a login of an entity not stored, or lapsed, leaves another. |
| PairingKeys.KeyLife | server/v2_store.go:421-465 | Between two stores of which the later follows the earlier a key changes only by such a login in between. |
| PairingRestart.PruneComposes | server/v2_store.go:254-321 | Pruning at two times is pruning at the later one, up to the stamp of sessions that lapsed by the earlier. |
| PairingRestart.SecondPruneIdle | server/v2_store.go:254-321 | A second prune at the same time changes nothing. |
| PairingRestart.PersistExactly | server/main.go:1596-1639 | Written are exactly the entities active at that time, the unexpired auth sessions and pair sessions of those, and all bindings. |
| PairingRestart.RestartKeeps | server/main.go:1452-1544 | Whatever leases are found and in whatever order sessions are indexed, the state read back is consistent. |
| PairingRestart.LeaseExactly | server/main.go:1738-1764 | A lease is readable exactly when its entity was active at the write, and is at the read or less than a second has passed. |
| PairingRestart.EntityRestarted | server/main.go:1458-1506 | An entity comes back exactly when it was active at the write, and is at the read or its lease was found. |
| PairingRestart.RestartRefinesPrune | server/main.go:1452-1544 | Writing out and reading back refines one prune at the time of reading: all bindings, the same live entities and auth sessions, a subset of the pair sessions, the index cut down to it. |
| PairingRestart.RestartBeyondFloor | server/main.go:1738-1764 | From one second after the write on, entities and auth sessions are exactly those of the prune. |
| PairingRestart.FloorRevives | server/main.go:1738-1764 | Within that second a lapsed entity does come back: a concrete case. |
| PairingPersist.WriteOut | server/main.go:1596-1639 | The filtering loops of the writer compute the snapshot. |
| PairingPersist.ReadBack | server/main.go:1452-1544 | The filtering and indexing loops of the reader compute the state read back. |
| PairingPersist.IndexSessions | server/v2_store.go:144-153 | The fallback loop indexes every open session with a token. |
| Signals.SignalHub.DeliverEvent | server/v2_store.go:1130-1150 | The event is appended to every subscribed channel with room and to no other; delivered means there was one. |
| Signals.SignalHub.SendEvent | server/v2_store.go:1152-1166 | Delivered to channels, or else appended to the queue. |
| Signals.SignalHub.PullInbox | server/v2_store.go:1069-1096 | A pull takes the first min(clamp(limit, 1, 500), length) events and leaves the rest. |
| Signals.PullExactly | server/v2_store.go:1069-1096 | A pull hands out the whole queue if it is within the bound of max(1, min(limit, 500)), and otherwise exactly that many, from the front. |
| Signals.PullsEmpty | server/v2_store.go:1069-1096 | Over runs: n pulls in a row empty a queue if and only if n is at least its length divided by the bound, rounded up. |
| Signals.SendExactly | server/v2_store.go:1130-1166 | A subscribed channel that holds fewer than 64 events gets the next event of its key, at its end; with no such channel it goes to the end of the queue and no channel changes. |
| Signals.SubscribeExactly | server/v2_store.go:1098-1112 | Subscribing adds an empty channel to its key and changes nothing else. |
| Signals.SignalHub.RemoveSubscriber | server/v2_store.go:1114-1128 | Unsubscribing removes the channel, and the key with the last one. |
| Signals.UnsubscribeExactly | server/v2_store.go:1114-1128 | Unsubscribing takes the channel off its key, and only there. |
| Signals.NothingAfterUnsubscribe | server/v2_store.go:1114-1150 | Over runs: once unsubscribed a channel receives nothing more, whatever follows. |
| Signals.QueueConservation | server/v2_store.go:1069-1096 | In every run and for every key, what was queued is, in order, what was pulled or pruned followed by what is still queued. |
| Signals.ChannelConservation | server/v2_store.go:1130-1150 | In every run and for every channel, what was put in is, in order, what was received followed by what is buffered. |
| Signals.SendsPartition | server/v2_store.go:1130-1166 | The events sent to a key are the order-preserving merge of those that made a channel of the key grow and those that made its queue grow: never both, never neither. |
| Signals.DeliveredLanded | server/v2_store.go:1130-1150 | In every run each delivered event landed at the end of a channel subscribed at that send, and that send left every queue as it was. |
| Signals.LandedWithin | server/v2_store.go:1130-1150 | In every run what landed in a channel is a subsequence of what was delivered to the key it was opened for. |
| Signals.DeliveredLands | server/v2_store.go:1130-1150 | A delivered event is at the end of at least one channel of its key, and no queue changed. |
| Signals.RunBounded | server/v2_store.go:1098-1128 | No channel ever holds more than 64 events, and every subscribed channel is open. |
| DeviceRegistry.Store.RebuildAuthIndexes | server/main.go:343-364 | The loops compute a rebuild of both token indexes; on a consistent store it changes nothing. |
| DeviceRegistry.Store.PruneInactive | server/main.go:375-425 | The loops remove inactive devices with their sessions, bindings and index entries, and return how many. |
| DeviceOutcomes.PrunedExactly | server/main.go:375-425 | Removed are exactly the devices not seen for 30 days, with their sessions and bindings; what stays is unchanged. |
| DeviceOutcomes.PrunedIndexes | server/main.go:366-425 | An index after the prune is the one before, less the entries of the removed records. |
| DeviceRegistry.Store.RegisterDevice | server/main.go:534-588 | Registering in place: an existing device only with its own token, a new one with a fresh token. |
| DeviceOutcomes.RegisterExactly | server/main.go:534-588 | A device that the prune leaves stored is registered again if and only if the trimmed credential is not empty and equals its trimmed token, which it keeps; a refusal leaves exactly the pruned store. |
| DeviceHistory.DeviceLife | server/main.go:534-616 | Over runs: a stored device keeps its token, and its platform and version change only by a registration that presented that token, unless it lapsed or was gone and was registered afresh. |
| DeviceRegistry.Store.HeartbeatDevice | server/main.go:594-616 | A heartbeat refreshes a stored device. |
| DeviceOutcomes.HeartbeatExactly | server/main.go:594-616 | A heartbeat reaches exactly the stored devices and changes only the times and the status. |
| DeviceRegistry.Store.CreatePairSession | server/main.go:661-724 | A session with a fresh token and the first drawn code not in use; an error if all ten are. |
| DeviceOutcomes.OpenExactly | server/main.go:661-724 | A stored device opens a waiting session with the first drawn code that is free, for 60 to 600 seconds; with every code in use nothing is stored. |
| DeviceRegistry.Store.ClaimSession | server/main.go:735-775 | One binding per user and device: made, or renewed with a new mobile and a new token. |
| DeviceRegistry.Store.ClaimPair | server/main.go:790-900 | Claiming by token or by code in place, every refusal included. |
| DeviceOutcomes.ClaimExactly | server/main.go:790-900 | By token or by code, a session is taken again only by its own user, or while it waits and is not past its time; another user is refused, an expired session is closed and stays closed. |
| DeviceOutcomes.ClaimUnknown | server/main.go:815-822 | A token or code that no session carries is not found, and a blank one is invalid. |
| DeviceOutcomes.ClaimWrites | server/main.go:735-775 | What a claim writes: the session names user and phone; the binding joins user, device and phone under the new token, and is the active one the two had, if any. |
| DeviceOutcomes.ClaimTokens | server/main.go:735-775 | After a claim the new mobile token leads to the binding and the one it replaces leads nowhere. |
| DeviceHistory.SessionLife | server/main.go:661-900 | Over runs: a session keeps its token, code and device; once taken it belongs to its user for good, and once over it stays over. |
| DeviceHistory.TakenRefused | server/main.go:823-831 | Over runs: whoever else claims a taken session, by token or code, at any later time, is refused and changes nothing. |
| DeviceRegistry.Store.RevokePair | server/main.go:908-940 | Revoking by id, or by user and device, in place. |
| DeviceOutcomes.RevokeExactly | server/main.go:908-940 | A revocation succeeds exactly when it names a binding, by id or as the active one of user and device; that binding is inactive then and its token leads nowhere. |
| DeviceHistory.RevokedForever | server/main.go:726-940 | Over runs: a revoked binding is never active again and its mobile token never back in the index. |
| DeviceHistory.RevokedRefused | server/main.go:470-488 | Over runs: the token of a revoked binding never lets a mobile in again. |
| DeviceRegistry.Store.AuthenticateRequest | server/main.go:2134-2151 | The device token is tried first, then the mobile token. |
| DeviceOutcomes.IdentifyExactly | server/main.go:450-488 | A bearer token lets in exactly the stored device that carries it, or else exactly the active binding that does, or no one. |
| DeviceIndexes.RebuiltExactly | server/main.go:343-364 | An index is a possible result of a rebuild exactly when it is the inverse of the tokens. |
| DeviceIndexes.IncrementalIsRebuilt | server/main.go:343-364 | On a consistent store the incremental token indexes are what a rebuild gives, and the only thing it can give. |
| DeviceIndexes.SearchIsDeterministic | server/main.go:726-733 | On a consistent store every order of the search for an active binding gives the same answer. |
| DeviceIndexes.PruneKeeps | server/main.go:375-425 | Pruning keeps all four indexes exact, although it drops the tokens of revoked bindings as well. |
| DeviceIndexes.TakeBindings | server/main.go:735-775 | A claim keeps the mobile-token index exact and at most one active binding per user and device. |
| DeviceIndexes.RevokeBinding | server/main.go:931-939 | Revoking, even twice, keeps the mobile-token index exact. |
| DeviceIndexes.NextKeeps | server/main.go:375-940 | Every operation keeps the invariant of the store. |
| DeviceIndexes.RunIndexes | server/main.go:150-162 | After any run from an empty store both token indexes equal their rebuilds, the pair token and code indexes are exact, no session or binding is without its device, and no user has two active bindings of one device. |
| Markdown.RoundTrip | mobile/src/components/MarkdownText.tsx:25-98 | Printing the parsed tree with its markers gives the source back, for every string. |
| Markdown.KindExactly | mobile/src/components/MarkdownText.tsx:29-76 | At every cursor a node is a strong, code or emphasised span exactly when it can be closed and is not empty, strong before emphasis. |
| Markdown.ParsedWellFormed | mobile/src/components/MarkdownText.tsx:25-98 | No node is empty, no span contains its own marker, and special characters in a text only open it. |
| Markdown.FilterIdle | mobile/src/components/MarkdownText.tsx:92-97 | The final filter removes nothing from well-formed nodes. |
| Markdown.ParseInlineMarkdown | mobile/src/components/MarkdownText.tsx:25-98 | The loops and the recursion on strictly shorter slices compute the parse, filter included. |

## Left out

- HTTP routes, event streams, WebSockets, Redis commands, timers, JSON and CORS: input and output.
- Ed25519, base64, random number generation and safety codes: foreign calls; their outcomes are arguments.
- The branches that answer INTERNAL_ERROR because the random source failed, and the v1 fallback token built from the
  clock in that case.
- Several server instances that share one Redis store and overwrite each other's writes: one instance is modelled.
- Capability maps, revocation times and the other record fields that no branch of the modelled code reads.
- `normalizeV2DisplayName`: `mobileName` of a claim is the display name already normalized.
- Presence queries and statistics of the second control plane: read-only views.
- Publishing signals to other server instances, and the gap between delivering and enqueueing: a send is one step.
- The v1 queues dropped with their devices, and v1 stores read back from Redis: their code index covers only pending
  sessions, so the v1 theorems are about runs from a new store.
- The pub/sub between instances and the shared Redis queue script.
- The truncation of a session to 1000 messages: sessions in the model keep everything.
- The desktop's side of chat synchronisation, and the delivery attempts of the phone: only the choice of what to send.
- `summarizeCrdtConversation`, payload parsing and building: field copies.
- Field names that JavaScript objects inherit (`constructor` and the like) as version-vector authors.
- WebRTC negotiation in `packages/pair-sdk/src/peer.ts`: callbacks that interleave at every await.
- Splitting a text into lines and rendering the Markdown nodes: plain maps.
- ChatSort.ReconcileIdempotent: holds for settled sessions; in an unsettled one the comparator is cyclic and the
  language leaves the result of the sort open.
- Signals.SignalHub.AddSubscriber: channels are numbers with a buffer, not references; a channel is never closed.
