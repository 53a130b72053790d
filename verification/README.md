# Verification of the LiveShare Lite core

LiveShare Lite is a collaborative text editor extension. Every client holds a replica of one text: a
tree of characters in which each character names its left neighbour, siblings are ordered by
descending identifier, and a deletion leaves a tombstone. Operations travel through a relay server
that keeps a log for each room, or through a peer-to-peer mesh whose peers adopt a snapshot and pass
on what they see first. This project models these parts and proves that they do what the repository
promises them for: replicas converge under offline, duplicated, out-of-order and concurrent delivery.

How the modules follow the program:

- `Ids`, `Keys`, `Operations`, `LocalEdits`, `Snapshots`, `TextCrdt` model `crates/crdt-core`. The class
  `TextCrdt` has the program's fields, loops and branches. Hash maps are walked in an arbitrary order.
- `Paths`, `Tree`, `Preorder`, `Denotation` say, without any reference to that class, what the document
  of a *set* of operations is; `Settling`, `StackWalk`, `Splice`, `EditEffects` and `StrikeEffects`
  connect the two. A replica's ghost field `received` is the set of operations it has received; the
  class invariant `Valid` says that all its maps are what `received` denotes.
- `SiblingOrder`, `DocumentOrder`, `Cluster` and `ClusterRuns` state the consequences for all replicas
  and whole histories, and `ClusterReplicas` shows that the class carries out the cluster's steps.
- `OperationLog`, `RelayState` and `Relay` model the relay, `RelayReplies` says what it tells whom;
  `RelayRuns` and `RelayNews` are its runs with clients, `RelayQuiets` shows that they come to rest
  and `RelayLineage` that identifiers are new.
- `MeshState` and `MeshSystem` are the mesh as a step system with its invariant, `MeshDelivery`, `MeshSpread`
  and `MeshEntry` show that the steps keep it, `MeshRuns` draws the conclusions for whole runs,
  `MeshQuiets` shows that the mesh comes to rest and `MeshLineage` that identifiers are new;
  `Session` is the class of the session manager and `SessionSteps` shows that it takes the mesh's steps.
- `PeerQueue` and `SnapshotChunks` model the transport's queue and its chunking, `Batches` and
  `DocumentAdapter` the translation of editor changes, with `Issuing` and `Placements` for what a batch
  issues and where its text goes.
- `Sequences`, `Sorting`, `Sums` and `Wrappers` are shared.

Where the code and its comments differ, the model follows the code: a local insert does not look at
the buffered operations, counters are kept per replica and are not raised by other replicas'
operations, and a queued operation does not raise the counter. What this costs is stated exactly,
with inputs that show it: `DrainNotNeededIff` and `LocalInsertLeavesReady` for the first,
`LandsAtIndexIff` and `BehindMisplaces` for the second, `NextIsSeenIff` and
`QueuedIdentifierComesAgain` for the third.

## Model

| member | source | states |
|---|---|---|
| Keys.KeyRoundTrip | crates/crdt-core/src/text_crdt.rs:478-496 | splitting a key at its last colon and parsing the decimal gives back replica and counter, whatever the replica string |
| Keys.KeyInjective | crates/crdt-core/src/id.rs:28-31 | different identifiers have different keys, so maps keyed by strings are maps keyed by identifiers |
| Keys.ParentKeyInjective | crates/crdt-core/src/id.rs:64-70 | no identifier's key is the root key; anchors and their keys correspond one to one |
| Keys.KeyForm | crates/crdt-core/src/id.rs:28-31 | a key is the replica id, a colon and the decimal digits of the counter, each at its position and without leading zeros |
| Ids.LexIsFirstDifference | crates/crdt-core/src/id.rs:40-46 | replica ids compare by the first position where they differ; one that ends there is the smaller |
| Sorting.AboveTotal | crates/crdt-core/src/id.rs:144-146 | the sibling order is a strict total order on identifiers |
| Sorting.SortIsListing | crates/crdt-core/src/text_crdt.rs:413-415 | sorting distinct siblings gives the one descending list of their set, whatever their order before |
| Sorting.PushAndSort | crates/crdt-core/src/text_crdt.rs:325-328 | pushing a new child onto a sorted list and sorting again gives the sorted list of the larger set |
| Tree.LiveLeast | crates/crdt-core/src/text_crdt.rs:382-387 | the characters with a path to the root are the least set closed under "anchor is the root or in the set" |
| Preorder.WalkMembers | crates/crdt-core/src/text_crdt.rs:418-436 | the recursive preorder from a node holds exactly the live characters at or below it |
| Preorder.TraversalSorted | crates/crdt-core/src/text_crdt.rs:418-436 | the preorder holds exactly the live characters and is strictly sorted by root path, so none occurs twice |
| Preorder.TraversalUnique | crates/crdt-core/src/text_crdt.rs:418-436 | it is the only such list |
| Settling.InsertTakesEffect | crates/crdt-core/src/text_crdt.rs:309-334 | taking a ready insert out of its buffer into the element map keeps the state a partial picture of the received set |
| Settling.DeleteTakesEffect | crates/crdt-core/src/text_crdt.rs:336-343 | the same for a ready delete and its target's tombstone |
| Settling.SettledIsDenotation | crates/crdt-core/src/text_crdt.rs:345-380 | when no buffered operation is ready, elements, tombstones and buffers are the functions of the received set: elements are the inserts reachable from the root, struck if and only if a received delete names them, the rest is pending |
| Settling.DenotationIsSettled | crates/crdt-core/src/text_crdt.rs:345-380 | conversely, what the received set denotes is a state in which nothing buffered is ready |
| Settling.IndexWithChild | crates/crdt-core/src/text_crdt.rs:325-329 | the incrementally maintained child index is the sorted index of the larger element map |
| StackWalk.PopAndPush | crates/crdt-core/src/text_crdt.rs:423-433 | popping a node and pushing its children in reverse leaves, after that node, the rest of the preorder on the stack |
| TextCrdts.TextCrdt.constructor | crates/crdt-core/src/text_crdt.rs:51-64 | a new replica is the replica of no operations |
| TextCrdts.TextCrdt.ApplyInsertInner | crates/crdt-core/src/text_crdt.rs:309-334 | adds the element once, keeps the child index exact, raises the counter only for an own identifier |
| TextCrdts.TextCrdt.ApplyDeleteInner | crates/crdt-core/src/text_crdt.rs:336-343 | strikes the target and nothing else |
| TextCrdts.TextCrdt.DrainPending | crates/crdt-core/src/text_crdt.rs:345-380 | terminates with no ready operation left, in every order of iteration, and returns the drop in the number of pending operations; with SettledIsDenotation the fixpoint is the same for every order |
| TextCrdts.TextCrdt.DrainInserts | crates/crdt-core/src/text_crdt.rs:351-363 | one round of inserts; if none was ready, none is |
| TextCrdts.TextCrdt.DrainDeletes | crates/crdt-core/src/text_crdt.rs:365-377 | one round of deletes; if none was ready, none is |
| TextCrdts.TextCrdt.Insert | crates/crdt-core/src/text_crdt.rs:88-117 | out of range is an error that changes nothing; otherwise text T becomes T[..j] + s + T[j..] with j the landing position, and the operations are a chain of consecutively numbered inserts from the anchor |
| TextCrdts.TextCrdt.Delete | crates/crdt-core/src/text_crdt.rs:122-142 | out of range is an error that changes nothing; otherwise text T becomes T[..i] + T[i + n..] by deletes of exactly those characters |
| TextCrdts.TextCrdt.ApplyOperation | crates/crdt-core/src/text_crdt.rs:153-182 | the state becomes that of one more received operation; duplicate, queued and applied are told apart exactly; the drained count is the drop in pending operations; the counter moves only to an own received identifier |
| TextCrdts.TextCrdt.HasSeen | crates/crdt-core/src/text_crdt.rs:185-187 | true if and only if the operation has been received |
| TextCrdts.TextCrdt.VisibleElements | crates/crdt-core/src/text_crdt.rs:418-436 | the stack walk terminates and gives the preorder of the received set without the tombstones |
| TextCrdts.TextCrdt.ToText | crates/crdt-core/src/text_crdt.rs:198-203 | the text of the received set |
| TextCrdts.TextCrdt.IdAtVisibleIndex | crates/crdt-core/src/text_crdt.rs:209-211 | the visible character at the index, or none past the end |
| TextCrdts.TextCrdt.TakeSnapshot | crates/crdt-core/src/text_crdt.rs:232-262 | the four lists describe the received set and each is sorted |
| TextCrdts.TextCrdt.FromSnapshot | crates/crdt-core/src/text_crdt.rs:268-299 | from a snapshot that describes a set of operations, under any replica id, comes the replica that received them one by one, its counter covering every own identifier in it |
| TextCrdts.TextCrdt.RebuildChildren | crates/crdt-core/src/text_crdt.rs:389-416 | the rebuilt index is the sorted index of the elements, in whatever order they are visited |
| TextCrdts.StateIsDenotation | crates/crdt-core/src/text_crdt.rs:40-47 | all five structures of a replica are one function of the set of operations received |
| TextCrdts.Convergence | crates/crdt-core/src/text_crdt.rs:19-29 | replicas with the same seen set are in the same state and show the same text |
| TextCrdts.DrainNotNeededIff | crates/crdt-core/src/text_crdt.rs:104-115 | a local insert, which does not drain, leaves nothing ready if and only if nothing buffered refers to the new identifier |
| TextCrdts.LocalInsertLeavesReady | crates/crdt-core/src/text_crdt.rs:104-115 | with a delete of the next identifier buffered, a local insert leaves that delete buffered and ready |
| TextCrdts.NextIsSeenIff | crates/crdt-core/src/text_crdt.rs:163-178 | the next identifier has been seen before if and only if an operation that carries it is queued |
| TextCrdts.QueuedIdentifierComesAgain | crates/crdt-core/src/text_crdt.rs:163-167 | a new replica to which its own first operation comes back too early issues that identifier again |
| TextCrdts.NothingUnlocked | crates/crdt-core/src/text_crdt.rs:104-140 | an operation nobody refers to makes nothing buffered ready |
| Snapshots.MaxCounterForReplica | crates/crdt-core/src/text_crdt.rs:454-491 | at least every counter the snapshot mentions for the replica, and attained by one of them or by the snapshot's own counter |
| Snapshots.SeenKeysBoundOwnIds | crates/crdt-core/src/text_crdt.rs:478-488 | the seen keys alone bound every identifier the adopted replica id has used |
| Snapshots.RestoredIsSettled | crates/crdt-core/src/text_crdt.rs:268-299 | the restored maps satisfy everything a replica that received the operations one by one satisfies |
| Splice.InsertSplices | crates/crdt-core/src/text_crdt.rs:309-334 | a received insert that nothing refers to puts one character into the visible list and moves nothing |
| Splice.InsertPosition | crates/crdt-core/src/text_crdt.rs:325-328 | its position is the anchor's plus the visible characters below higher siblings |
| EditEffects.RunText | crates/crdt-core/src/text_crdt.rs:88-117 | the exact text after a run of inserts |
| EditEffects.LandsAtIndexIff | crates/crdt-core/src/text_crdt.rs:325-328 | a run lands at the index asked for if and only if no visible character lies under a child of the anchor that is higher than the first new identifier |
| EditEffects.DominantLandsAtIndex | crates/crdt-core/src/text_crdt.rs:75-78 | it does whenever the counter is at least those of the anchor's children |
| StrikeEffects.StrikeText | crates/crdt-core/src/text_crdt.rs:122-142 | the exact text after a run of deletes |
| DocumentOrder.OrderIsTotalAndFixed | crates/crdt-core/src/text_crdt.rs:418-436 | of two characters one comes first, and no later operation swaps them |
| DocumentOrder.EarlierIsSubsequence | crates/crdt-core/src/text_crdt.rs:418-436 | every earlier full traversal is a subsequence of every later one |
| SiblingOrder.StandsBefore | crates/crdt-core/src/text_crdt.rs:418-436 | what comes before by root paths stands at an earlier position of the document, and conversely |
| SiblingOrder.AnchorFirst | crates/crdt-core/src/text_crdt.rs:418-436 | a character stands after the one it is anchored to |
| SiblingOrder.HigherCounterFirst | crates/crdt-core/src/id.rs:40-46 | of two characters at one anchor the one with the higher counter stands first |
| SiblingOrder.GreaterReplicaFirst | crates/crdt-core/src/id.rs:144-146 | with equal counters, the one stands first whose replica id is greater at the first difference, or continues the other |
| SiblingOrder.SubtreesFollowSiblings | crates/crdt-core/src/text_crdt.rs:418-436 | everything at or below a sibling stands before everything at or below a later one |
| SiblingOrder.ConcurrentCharacters | crates/crdt-core/src/id.rs:173-187 | "a" typed by A and "b" typed by B at the start of an empty document read "ba" |
| DocumentOrder.BetweenIsBelow | crates/crdt-core/src/text_crdt.rs:97-115 | whatever stands between two characters of a typed run descends from the run's first character |
| DocumentOrder.RunsStayApart | crates/crdt-core/src/text_crdt.rs:97-115 | two runs typed concurrently at one anchor never mix |
| DocumentOrder.IssuedRun | crates/crdt-core/src/text_crdt.rs:97-115 | what one insert call issues is such a run wherever and whenever it has been received |
| Cluster.StepKeepsInv | crates/crdt-core/src/text_crdt.rs:75-182 | deliveries, starts and joins, under new and used names, and the local edits of every replica whose counter covers what was issued under its name, keep: issued operations are keyed and grounded, every replica's operations are issued ones, and its counter covers what it adopted under its name and what of it has taken effect |
| ClusterRuns.StrongEventualConsistency | crates/crdt-core/src/text_crdt.rs:148-182 | over every history, replicas that have received operations with the same identifiers, even at different moments, have the same operations and the same text |
| ClusterRuns.NothingStaysPending | crates/crdt-core/src/text_crdt.rs:345-380 | a replica that has received everything issued has empty buffers |
| ClusterRuns.NextIdentifierIsNew | crates/crdt-core/src/text_crdt.rs:75-78 | at every moment of every history: all later identifiers of a replica are new if and only if its counter covers what was issued under its name, by it or by an earlier holder; then local edits are possible; having caught up is enough |
| ClusterRuns.AheadForGood | crates/crdt-core/src/text_crdt.rs:331-342 | over whole histories the counter covers it for as long as the replica keeps its name |
| ClusterRuns.CaughtUpForGood | crates/crdt-core/src/text_crdt.rs:331-342 | over whole histories a replica stays caught up for as long as it keeps its name |
| ClusterRuns.AdoptedNamesStayFresh | crates/crdt-core/src/text_crdt.rs:454-491 | if every replica that begins takes over what was issued under its name, then all replicas, also those under used names, come up with new identifiers at all times |
| ClusterRuns.OneOrderForAll | crates/crdt-core/src/text_crdt.rs:418-436 | what any replica holds at any moment, tombstones included, is a subsequence of the document of everything issued then or later |
| Cluster.OwnLineage | crates/crdt-core/src/text_crdt.rs:331-342 | what the local edits require of a replica holds while its counter covers what was issued under its name |
| Cluster.AheadIff | crates/crdt-core/src/text_crdt.rs:75-78 | all identifiers a replica would come up with from now on are new if and only if its counter covers what was issued under its name |
| Cluster.AheadLineage | crates/crdt-core/src/text_crdt.rs:331-342 | then nothing issued refers, under its name, beyond its counter |
| Cluster.CaughtUpIsAhead | crates/crdt-core/src/text_crdt.rs:331-342 | it does once everything issued under the name was in the adopted snapshot or has taken effect |
| Cluster.StaysAhead | crates/crdt-core/src/text_crdt.rs:331-342 | it does from then on until another takes the name |
| Cluster.CaughtUpAtOnce | crates/crdt-core/src/text_crdt.rs:454-491 | a snapshot that holds everything issued under the adopted name, queued operations included, is enough |
| Cluster.CaughtUpByReceiving | crates/crdt-core/src/text_crdt.rs:331-342 | so is having received everything, for a replica that began empty under a used name |
| Cluster.StaysCaughtUp | crates/crdt-core/src/text_crdt.rs:331-342 | a replica that has caught up stays so until another takes its name |
| Cluster.RestartRepeats | crates/crdt-core/src/text_crdt.rs:51-64 | a reachable state in which it does not: the holder of a name issued its operation 1, another begins empty under the name, and comes up with 1 again |
| ClusterReplicas.ReplicaCounts | crates/crdt-core/src/text_crdt.rs:331-342 | the counter of a replica covers what it adopted and what has taken effect, by the two counter raises |
| ClusterReplicas.Start | crates/crdt-core/src/text_crdt.rs:51-64 | a new replica, under any name, is the cluster's start step |
| ClusterReplicas.Join | crates/crdt-core/src/text_crdt.rs:268-299 | snapshot and restore between two objects, under any name, carry out the cluster's join step |
| ClusterReplicas.Deliver | crates/crdt-core/src/text_crdt.rs:153-182 | applying an issued operation is a delivery step |
| ClusterReplicas.InsertCharacter | crates/crdt-core/src/text_crdt.rs:104-115 | one iteration of a local insert is an issue step |
| ClusterReplicas.DeleteCharacter | crates/crdt-core/src/text_crdt.rs:131-140 | one iteration of a local delete is an issue step |
| OperationLogs.OperationLog.Append | crates/crdt-core/src/operation_log.rs:21-30 | appends an operation if and only if its identifier is not logged, and says so |
| OperationLogs.OperationLog.Contains | crates/crdt-core/src/operation_log.rs:32-34 | whether the identifier is logged |
| OperationLogs.LogAsReceived | crates/crdt-core/src/operation_log.rs:40-42 | applying a whole log in order to nothing gives exactly the logged operations |
| Relay.Room.RemovePeer | crates/relay-server/src/room.rs:55-71 | removes the peer if and only if its sender is still this connection |
| Relay.Room.AppendOperation | crates/relay-server/src/room.rs:73-75 | appends to the room's log exactly when the identifier is new, and says whether it was |
| Relay.Room.BroadcastAll | crates/relay-server/src/room.rs:99-103 | every registered peer gets the message once for each name, in whatever order the map is walked |
| Relay.RelayServer.HandleJoin | crates/relay-server/src/server.rs:201-227 | creates or finds the room and registers the connection; the joiner gets the room, its name, the registered names, each once and ascending, and the whole log; then every open registered connection gets a presence with the same names |
| Relay.RelayServer.HandleOperation | crates/relay-server/src/server.rs:144-176 | before the join and after a replacement the sender alone gets the error that says so; a new operation is logged and goes to everybody registered, under the room and name its sender joined with; a known one goes to nobody |
| Relay.RelayServer.HandleClose | crates/relay-server/src/server.rs:180-198 | the registered connection is unregistered, everybody left in the room gets a presence with exactly the names left, and a room without any is dropped; a replaced connection changes no outbox |
| RelayReplies.JoinTells | crates/relay-server/src/server.rs:213-226 | what a join adds to each outbox, message by message |
| RelayReplies.OperationTells | crates/relay-server/src/server.rs:149-175 | what an operation adds to each outbox in each of its five cases |
| RelayReplies.ClosingTells | crates/relay-server/src/server.rs:180-194 | what a close adds to each outbox |
| RelayState.PeerNames | crates/relay-server/src/room.rs:81-92 | every registered name once, in ascending order |
| RelayNews.OperationReaches | crates/relay-server/src/server.rs:166-174 | in every run a new operation reaches everybody registered in the room as exactly one message |
| RelayNews.ClosingReaches | crates/relay-server/src/server.rs:183-189 | in every run a closing registered connection reaches everybody else in the room as exactly one presence |
| RelayNews.JoiningReaches | crates/relay-server/src/server.rs:224-226 | in every run a join reaches everybody already in the room as exactly one presence |
| RelayState.BroadcastOneMore | crates/relay-server/src/room.rs:99-103 | sending to one more registered name is one more part of the broadcast, so the order of the map does not matter |
| RelayRuns.StepKeepsInv | crates/relay-server/src/server.rs:133-194 | every step keeps: rooms are not empty, logs are distinct, a registered peer is a live connection joined under that name whose outbox holds the log, clients know what they have read and what is theirs |
| RelayRuns.StreamIsTheLog | crates/relay-server/src/server.rs:156-175 | in every run, the joined log and the later operation messages of a registered connection's outbox are the room's log, without gap or repetition |
| RelayRuns.RelayConverges | crates/relay-server/src/server.rs:201-227 | clients of a room with nothing left to send or read have the same operations and text |
| RelayQuiets.ReadingDescends | crates/relay-server/src/server.rs:106-178 | every message read by the server or by a client lowers the measure (requests on their way, messages on their way) |
| RelayQuiets.InTheEndAllAgree | crates/relay-server/src/server.rs:156-175 | from every reachable state readings lead to one where all registered clients are drained and those of a room show the same text |
| RelayLineage.CountedRun | crates/crdt-core/src/text_crdt.rs:75-78 | when no two connections share a name and every client counts, each identifier is new to the relay: such runs are runs of RelayRuns |
| RelayLineage.LocalEditsArePossible | crates/crdt-core/src/text_crdt.rs:75-78 | in every such run each client meets what local edits require, and all its later identifiers are new |
| RelayRuns.LogsGrowBySenders | crates/relay-server/src/server.rs:156-175 | rooms are never empty, logs only grow, and only by the registered connection's own operation |
| RelayRuns.ClosingReplacedConnection | crates/relay-server/src/room.rs:50-71 | closing a connection whose name was taken over leaves every room as it is |
| MeshDelivery.DeliverKeepsInv | src/extension/sessionManager.ts:422-480 | handling an operation, a request or a snapshot keeps the mesh invariant |
| MeshSpread.ReplayKeepsInv | src/extension/sessionManager.ts:473-477 | replaying one buffered operation keeps it |
| MeshSpread.EditKeepsInv | src/extension/sessionManager.ts:604-609 | a local operation sent to everybody keeps it |
| MeshEntry.EnterKeepsInv | crates/signaling-server/src/server.rs:205-232 | an entering peer that asks one of the others keeps it |
| MeshRuns.NothingIsLost | src/extension/sessionManager.ts:460-480 | in every run, what a peer or the one whose snapshot it adopted has seen, the other has seen, or it is on its way, or buffered there |
| MeshRuns.SentWhenFirstSeen | src/extension/sessionManager.ts:432-439 | a peer passes an operation on in the one step in which it sees it first |
| MeshRuns.SentOnce | src/extension/sessionManager.ts:432-439 | over a whole run no peer passes an operation on in two different steps |
| MeshRuns.QuietAgreement | src/extension/sessionManager.ts:422-480 | with nothing on its way or buffered, all peers are synchronised and have the same operations |
| MeshRuns.MeshConverges | src/transport/p2pMeshTransport.ts:139-148 | in every run, whenever nothing is on its way or buffered, all peers show the same text |
| MeshQuiets.DeliveryDescends | src/extension/sessionManager.ts:427-439 | every delivery and replay lowers the measure (unsynchronised peers, unseen operations, weighted load) |
| MeshQuiets.InTheEndAllAgree | src/extension/sessionManager.ts:473-477 | from every reachable state deliveries lead to one where all peers show the same text |
| MeshLineage.LocalEditsArePossible | crates/crdt-core/src/text_crdt.rs:75-78 | in every run in which peers issue under their names and count, each peer meets what local edits require, and what it issues next is new to the mesh |
| MeshLineage.CountedRun | src/extension/sessionManager.ts:604-609 | such runs are runs of the mesh, whose guards they meet |
| Sessions.SessionManager.HandleTransportJoined | src/extension/sessionManager.ts:356-378 | the first peer ends with the seed as its text, any other knows all peers and has asked the first |
| Sessions.SessionManager.PeerJoined | src/transport/p2pMeshTransport.ts:239-273 | a peer not known yet is, with nothing sent to it; one that is known keeps its queue |
| Sessions.SessionManager.HandleTransportOperation | src/extension/sessionManager.ts:422-444 | put at the end of the buffer before synchronisation; otherwise, if new, applied and sent once to all but its source, and if known, nothing |
| Sessions.SessionManager.HandleSnapshotRequest | src/extension/sessionManager.ts:446-458 | kept before synchronisation, otherwise answered with one snapshot of everything received, to the asker alone |
| Sessions.SessionManager.HandleSnapshot | src/extension/sessionManager.ts:460-471 | a peer not yet synchronised takes over the described operations and answers all who asked meanwhile; any other ignores it |
| Sessions.SessionManager.ReplayNext | src/extension/sessionManager.ts:473-477 | one round of the replay |
| Sessions.SessionManager.FlushPendingSnapshotRequests | src/extension/sessionManager.ts:629-639 | everybody who asked gets one snapshot, nobody else does |
| Sessions.SessionManager.HandleDataMessage | src/transport/p2pMeshTransport.ts:391-412 | each message has the effect the mesh gives to what it stands for |
| Sessions.SessionManager.HandOver | src/transport/p2pMeshTransport.ts:559-598 | messages leave in the order in which they were handed to the transport |
| Sessions.SessionManager.HandleLocalDocumentChange | src/extension/sessionManager.ts:498-546 | an edit is taken over exactly when the shadow showed the replica's text and the changes explain the document; then all its operations are sent and, if the counter is not behind, the replica has the document's text |
| Sessions.EditedAllReceives | src/extension/sessionManager.ts:531-536 | consecutively numbered operations are all new to the peer that issues them |
| SessionSteps.Deliver | src/extension/sessionManager.ts:422-480 | for the receiver, handling the head of a queue is the mesh's delivery step |
| SessionSteps.HandOver | src/transport/p2pMeshTransport.ts:553-598 | for the sender, the same step is the message leaving the head of its queue, as the receiver gets it |
| SessionSteps.OthersUnmoved | src/extension/sessionManager.ts:422-480 | for every other session the delivery, replay and edit steps of others change nothing |
| SessionSteps.Replay | src/extension/sessionManager.ts:473-477 | a round of the replay is the mesh's replay step |
| SessionSteps.Enter | src/extension/sessionManager.ts:373-378 | joining others is the mesh's enter step |
| SessionSteps.LearnOf | src/transport/p2pMeshTransport.ts:239-244 | for everybody else, a peer that enters is the rest of the enter step |
| SessionSteps.EditsAreSteps | src/extension/sessionManager.ts:531-536 | sending a batch is a run of the mesh's edit steps, with nothing assumed about what others issued |
| SessionSteps.ChangeDocument | src/extension/sessionManager.ts:498-536 | in every reachable state of the mesh, an edit of the document is a run of the peer's edit steps |
| SessionSteps.Found | src/extension/sessionManager.ts:363-371 | the first peer founds the mesh and then issues its seed |
| PeerQueue.MeshPeer.SendDataMessage | src/transport/p2pMeshTransport.ts:522-551 | the message is taken on, unless it is next in line for an open channel that cannot carry it; an open channel is offered it at once, or the queue before it; order is kept and waiting messages will be looked at again |
| PeerQueue.MeshPeer.FlushQueue | src/transport/p2pMeshTransport.ts:553-581 | an open channel is offered the queue from the front, in order, without the oversized messages; something is left only if the channel refused the next message, is closed, or held 262144 bytes after the last one it took; whatever waits has a timer or a closed channel |
| PeerQueue.MeshPeer.TrySend | src/transport/p2pMeshTransport.ts:583-598 | an open channel is offered a message that fits, once, and the answer is what it said; fails exactly for an oversized message on an open channel |
| PeerQueue.MeshPeer.MarkOpen | src/transport/p2pMeshTransport.ts:336-344 | an opened channel is greeted and the queue flushed; nothing that waits is forgotten |
| PeerQueue.FirstInFirstOut | src/transport/p2pMeshTransport.ts:522-598 | what was sent followed by what still can be is what was taken on, in order, without exactly the oversized messages |
| PeerQueue.FittingKeeps | src/transport/p2pMeshTransport.ts:588-595 | only oversized messages are ever lost |
| PeerQueue.MeshTransport.BroadcastDataMessage | src/transport/p2pMeshTransport.ts:512-520 | every peer but the excepted one is offered the message once; the result says whether anyone took it |
| SnapshotChunks.Cut | src/transport/p2pMeshTransport.ts:177-193 | the chunks are numbered; each but the last has 16384 characters and the last has at least one |
| SnapshotChunks.JoinAll | src/transport/p2pMeshTransport.ts:177-193 | all chunks in order make up the string |
| SnapshotChunks.SnapshotReceiver.HandleSnapshotChunk | src/transport/p2pMeshTransport.ts:415-439 | a chunk fills its slot, `received` counts the filled slots, and the snapshot completes exactly when none is open |
| SnapshotChunks.OnlyTheString | src/transport/p2pMeshTransport.ts:430-443 | for every order of arrival, with repetitions and other snapshots in between, a completion happens exactly at the last missing chunk and yields the original string |
| SnapshotChunks.EveryChunkSuffices | src/transport/p2pMeshTransport.ts:430-443 | once every chunk has arrived, the snapshot has been completed |
| SnapshotChunks.KeysDiffer | src/transport/p2pMeshTransport.ts:178-178 | snapshots of different senders, or of different times, never share a buffer, whatever the client names |
| Batches.DescendingFold | src/extension/documentAdapter.ts:43-58 | disjoint changes made from the last range to the first do not disturb one another |
| Batches.SimultaneousReplacement | src/extension/documentAdapter.ts:43-58 | sorted and made one by one, they replace all ranges of the original text at once |
| DocumentAdapter.ApplyTextChanges | src/extension/documentAdapter.ts:43-58 | the fold over the sorted changes; an error names the first range that reaches outside the text left by those before it; for disjoint changes inside the text, the simultaneous replacement |
| Batches.SortIsStable | src/extension/documentAdapter.ts:45-45 | whatever the changes, later ranges come first and changes at one offset keep their order |
| DocumentAdapter.ChangesToOperations | src/extension/documentAdapter.ts:17-35 | fails exactly where the string would fail, and then exactly the changes before that one have been made; the text is exactly the old one with each range removed and each text put where it lands; if the counter is not behind, that is what the changes make of the string, and the counter stays ahead |
| Placements.PutIsExact | crates/crdt-core/src/text_crdt.rs:88-117 | one insertion of a batch puts its text at the landing position |
| Placements.CutIsExact | crates/crdt-core/src/text_crdt.rs:122-142 | one deletion of a batch removes its range |
| Issuing.EditKeepsDominance | src/extension/documentAdapter.ts:24-32 | every local edit keeps the counter at least as high as every character's |
| DocumentAdapter.EffectiveSuffices | src/extension/documentAdapter.ts:25-31 | skipping changes that do nothing gives the same text as making them |
| DocumentAdapter.BehindMisplaces | crates/crdt-core/src/text_crdt.rs:325-333 | a replica whose counter is behind, told to insert "y" in front of "x", makes "xy" |

## Left out

- TextCrdts.TextCrdt.Insert: requires that nothing received refers to an identifier still to be issued (`OneLineage`), because the code does not drain after a local insert; DrainNotNeededIff says when that matters, and Cluster.OwnLineage proves it for every replica whose counter covers what was issued under its name.
- TextCrdts.TextCrdt.Delete: requires the same, and like Insert and NextOperationId room below the largest 64-bit counter; the overflow of the counter is not modelled.
- TextCrdts.TextCrdt.NextOperationId: does not model the overflow of the 64-bit counter.
- TextCrdts.Convergence: takes one identifier to name one operation everywhere; ClusterRuns.StrongEventualConsistency proves that for every history.
- Sessions.SessionManager.HandleLocalDocumentChange: requires one lineage like Insert; SessionSteps.ChangeDocument shows that it holds in every reachable state of the mesh.
- DocumentAdapter.ChangesToOperations: requires one lineage like Insert, and offsets from zero on, as the string version ensures before it is called; what WebAssembly makes of a negative index is not modelled.
- PeerQueue.MeshPeer.MarkOpen: leaves out the callback that may repeat the request for a snapshot; the mesh has the request sent on entering.
- SnapshotChunks.SnapshotReceiver.HandleSnapshotChunk: leaves out the expiry of old buffers.
- RelayLineage.CountedRun: a name used by a second connection is left out; what a client must have read before it may reuse its name is Cluster.CaughtUpByReceiving.
- Sessions.SessionManager.HandleSnapshot: covers the handler up to its replay loop; each round of that loop is ReplayNext, since other messages may be handled in between.
- Sessions.SessionManager.HandleTransportJoined: covers the mesh; the relay's join is applied by the clients of RelayRuns, and the offline queue and reconnects are not modelled.
- PeerQueue.FirstInFirstOut: one channel for each peer, whose message size limit does not change; closing a peer is not modelled.
- RelayRuns.RelayConverges: within one lifetime of the room, reliable channels, one join for each connection, clients that start empty. The log is lost when the room empties, and clients do not send old operations again.
- MeshRuns.MeshConverges: nobody leaves, messages are not lost, the entering peer asks a peer that is there (any of them; the locale-dependent choice of the first is not modelled), and the signaling server is one atomic step.
- Strings as map keys: elements, child lists and buffers are keyed by identifier; Keys proves the two agree. The seen set keeps the strings.
- Characters: one value holds one character; surrogate pairs are a documented limitation of the program.
- Sorting: the library sort is written as insertion sort.
- Queued snapshots: sessions hand over whole snapshots; that cutting them into chunks changes nothing is SnapshotChunks, and serialisation, base64 and the expiry of chunk buffers are not modelled.
- Rendering the replica into the document, status bar, commands, prompts, local server processes.
- WebSocket, WebRTC, ICE, SDP and tokio tasks: channels are sequences, regions under a lock are atomic steps.
- Connection times in presence lists, parse errors of relay messages, `send_to`, `debug_state`, version vectors and message type guards: they would only add easy members.
