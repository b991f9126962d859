# Binder driver and caches: a verified model

This project models the parts of the repository whose state is hardest to keep
straight, and proves what holds in every state that they can reach. `dafny verify
dfyconfig.toml` checks all of it.

The binder driver (`driver/binder.c`):

* **Buffers** (`Rounding`, `BufferLayout`, `BufferIndex`, `BufferInvariant`,
  `BufferSpace`). One mapped region is divided into headers and data areas; sizes are
  computed from the next header, and pages come and go on demand. Header size, page size,
  region size and the two word widths (8 and 4 bytes, or equal) are parameters. A tree is
  the sequence of its nodes in order, and a descent may compare with any node of the
  interval that is left, so the results hold of every shape of tree.
* **Nodes, references and objects** (`NodeRefs`, `Handles`, `Persistence`,
  `Translation`, `Release`, `Undo`, `ProcExit`, `OwnerProtocol`, `RefTable`, `Ledger`,
  `Driver`). `RefTable` is the driver's tables, updated in place; the other modules say
  what each operation does to the whole state and what follows for transactions,
  forwarding chains, process exit and the owner. `Driver` adds the live buffers: a ledger
  of what they hold makes the conditions under which a release is exact, and the protocol
  of counts with every owner, facts of every run.
* **Call stacks** (`CallChains`, `CallSteps`, `CallEffects`, `FailedReply`,
  `CallStacks`, `SelfDirected`). Ghost chains of nested calls explain the stacks of all threads at once;
  sending, receiving, replying, failing, and the exit of threads in mid-chain and of
  processes are shown to keep them.
* **Transactions and their buffers** (`BackLinks`). The two point at each other or at
  nothing, in whichever order they go.
* **One-way calls** (`OneWay`) and **death notifications** (`Deaths`, `DeathNotices`).

`Options` and `Sequences` are helpers.

The caches (`RecencyList`, `CacheTable`, `LruCache`, `GenerationCache`): a linked list of
entries by age agrees with a lookup table, and both caches refine one least recently used
sequence of items.

Where a property that one would expect is false of the code, there is a lemma with the
exact condition: the refund of one-way budget (`RefundExactIff`), watchers of a dying node
(`AllToldIff`), calls directed to their sender (`SelfDirectedIff` for replies,
`SelfDirectedExitIff` for exit), and a put that evicts for nothing (`LostForNothing`).

## Model

| member | source | states |
|---|---|---|
| `Rounding.WrapAddIsModular` | driver/binder.c:663-671 | the addition of the model is that of size_t, which wraps |
| `Rounding.OverflowGuardExact` | driver/binder.c:663-671 | with wrapping size_t arithmetic the check rejects exactly the size pairs whose true rounded sum does not fit, and otherwise the computed size is the true one |
| `BufferLayout.TilingCovers` | driver/binder.c:450-458 | every address of the region lies in exactly one buffer, header and data area together |
| `BufferLayout.UnmappedPageIsUnused` | driver/binder.c:542-643 | an unmapped page lies in the data area of one free buffer, so no header and no allocated byte is on it |
| `BufferLayout.TakenResidencyOf` | driver/binder.c:709-723 | which pages an allocation of a whole buffer makes resident |
| `BufferLayout.CarvedResidency` | driver/binder.c:709-733 | which pages an allocation that leaves a remainder makes resident, the remainder's header included |
| `BufferLayout.MarkedFreeResidency` | driver/binder.c:833-836 | which pages a free unmaps: the whole pages of the data area |
| `BufferLayout.DeletedResidency` | driver/binder.c:760-803 | deleting a header unmaps exactly the pages that only it kept, by either of the two page tests |
| `BufferIndex.InsertedFreeIndex` | driver/binder.c:460-491 | a new header shrinks the size of the one before it, and the size tree is still ordered by current sizes |
| `BufferIndex.DeletedFreeIndex` | driver/binder.c:760-803 | a deleted header enlarges the one before it, and the rest of the size tree is still ordered |
| `BufferIndex.ReinsertedFreeIndex` | driver/binder.c:837-856 | the merged buffer goes back to its place and the size tree holds every free buffer once, by size |
| `BufferInvariant.AllocateKeepsList` | driver/binder.c:725-747 | allocation keeps the tiling, word alignment and coalescing of the list |
| `BufferInvariant.FreedKeepsList` | driver/binder.c:833-857 | freeing keeps them too, and merges so that no two neighbours are free |
| `BufferInvariant.AllocateCharges` | driver/binder.c:740-745 | an allocation adds its charge, and nothing else, to the charges of the live one-way buffers |
| `BufferInvariant.AllocateIsOneTaken` | driver/binder.c:725-739 | the header taken records the data size and the offsets size where they belong and keeps its address; every other header keeps all it records; a new header is there just when the remainder is worth one, free and right behind the data |
| `BufferInvariant.FreedIsOneFreed` | driver/binder.c:833-857 | after a free and its merges the other allocated buffers are all there with all they record and the size they had, and no others |
| `BufferInvariant.FreedCharges` | driver/binder.c:824-831 | a free takes away just the charge of the buffer freed |
| `BufferInvariant.NothingAllocatedIsFresh` | driver/binder.c:2877-2887 | a list with nothing allocated is one free buffer over the whole region, with only the first page resident |
| `BufferInvariant.RefundExactIff` | driver/binder.c:812-831 | freeing refunds the charge just when both sizes rounded to the smaller word are multiples of the larger; always when the widths are equal |
| `BufferInvariant.RefundFallsShort` | driver/binder.c:812-831 | a concrete buffer whose free refunds four bytes too few |
| `BufferSpace.BestFit` | driver/binder.c:680-694 | the descent finds a buffer of the smallest sufficient size, and none just when none is large enough |
| `BufferSpace.PlaceBySize` | driver/binder.c:477-488 | the descent finds a place that keeps the order of sizes |
| `BufferSpace.FindAddress` | driver/binder.c:502-538 | the descent finds an address in the tree exactly when it is there, and else its place |
| `BufferSpace.BufferSpace.constructor` | driver/binder.c:2866-2891 | the mmap state satisfies every invariant |
| `BufferSpace.BufferSpace.UpdatePageRange` | driver/binder.c:542-643 | all pages of the range are mapped, or none is and the page array is as before; no page is mapped twice or unmapped when absent |
| `BufferSpace.BufferSpace.Lookup` | driver/binder.c:518-540 | finds exactly the allocated buffers |
| `BufferSpace.BufferSpace.AllocBuf` | driver/binder.c:645-748 | each outcome but the failures of page mapping exactly under its condition, the wrapped one-way charge included; the best fit is taken, "no address space" just when nothing fits, a failure changes nothing, and a success records both sizes in the header and leaves every other header as it was |
| `BufferSpace.BufferSpace.DeleteFreeBuffer` | driver/binder.c:760-803 | removes the header and leaves exactly the resident pages mapped |
| `BufferSpace.BufferSpace.FreeBuf` | driver/binder.c:805-857 | the list after merging both neighbours, in which all other allocated buffers are as they were, the refund, and every invariant kept |
| `BufferSpace.BufferSpace.ReleaseAll` | driver/binder.c:3084-3101 | freeing whatever is allocated, in any order, ends with nothing allocated |
| `BufferSpace.BufferSpace.DrainedIsFresh` | driver/binder.c:2877-2887 | whatever happened before, when nothing is allocated the allocator is back in its mmap state, its one-way budget short of the refunds lost and full when the widths are equal |
| `BufferSpace.ChargeDoesNotWrap` | driver/binder.c:672-703 | when the sum in the one-way check wraps, no buffer is large enough, so the search fails |
| `CallChains.Agreement` | driver/binder.c:1161-1176 | in every reachable state: an incoming stack top whose caller is alive is the caller's stack top too, so the assertions of binder_pop_transaction and the mismatch branch of replies are unreachable |
| `CallChains.BelowOutgoing` | driver/binder.c:1398-1415 | below a call that a thread made lies, one place down its chain, the incoming call that it was serving |
| `CallChains.BelowIncoming` | driver/binder.c:2431-2434 | below a call that a thread received lies, further down, one that it made: walks alternate and end |
| `CallChains.StackIsTop` | driver/binder.c:2546-2585 | a thread's stack is the one that its chain gives it |
| `CallSteps.PushInv` | driver/binder.c:1679-1686 | a new call keeps the invariant |
| `CallSteps.ReceiveInv` | driver/binder.c:2429-2439 | receiving a call keeps it |
| `CallSteps.LeaveInv` | driver/binder.c:1332-1369 | a thread that answers leaves its call, and the invariant holds of the rest |
| `CallSteps.PopInv` | driver/binder.c:1161-1176 | popping the answered call from its caller keeps it |
| `CallSteps.DropInv` | driver/binder.c:1178-1227 | passing over an exited caller keeps it |
| `CallSteps.KillInv` | driver/binder.c:2546-2585 | the exit of a thread anywhere in a chain keeps it, with at most one chain left without a receiver |
| `CallSteps.ListedCallsAreOwn` | driver/binder.c:2462-2489 | a thread's todo list has only calls of its own chain |
| `CallEffects.SentIs` | driver/binder.c:1462-1468 | what a call changes: the new transaction is the sender's stack top and the last item of the target's list, the notice of completion is the last of its own |
| `CallEffects.ReceivedIs` | driver/binder.c:2429-2434 | what receiving a call changes: it leaves the front of its list and is the stack top, on what lay there |
| `CallEffects.AnsweredIs` | driver/binder.c:1679-1699 | what a reply changes: the call is freed, both threads are back at what lay below it, the reply is the last item of the caller's list and the notice that of the other's |
| `CallEffects.LeftIs` | driver/binder.c:1740-1744 | what a failed reply changes for the thread that made it |
| `FailedReply.FailInv` | driver/binder.c:1178-1227 | propagating a failure keeps the invariant |
| `FailedReply.FailReaches` | driver/binder.c:1178-1227 | the propagation ends; it frees exactly the orphaned calls; the nearest living caller, if there is one, has the code as its error and its older error, if any, as the other, and no other thread changes |
| `FailedReply.FailAddsCode` | driver/binder.c:1188-1205 | the caller that is reached has one more code to read, after those that it had, and no other thread has |
| `FailedReply.ReachedHasRoom` | driver/binder.c:1188-1210 | the thread that gets the error has no second error pending, so the branch for one is not taken |
| `CallStacks.CallStacks.SendFailedReply` | driver/binder.c:1178-1227 | the loop does just what the propagation says |
| `CallStacks.CallStacks.PopTransaction` | driver/binder.c:1161-1176 | its assertions hold, and it does just what the step says |
| `CallStacks.CallStacks.FindTarget` | driver/binder.c:1398-1415 | the walk finds the thread of the target process that made the earliest call of the chain |
| `CallStacks.TargetIsEarliest` | driver/binder.c:1410-1414 | that thread's call is the earliest among those whose callers live in the process, and there is none just when no caller does |
| `CallStacks.CallStacks.SendCall` | driver/binder.c:1308-1686 | a call without a process to go to, refused on a busy stack, failed, or pushed and queued; the invariant is kept |
| `CallStacks.CallStacks.SendReply` | driver/binder.c:1332-1369 | a reply, to a living or exited caller, delivered or failed; the mismatch branch is unreachable and the invariant kept |
| `CallStacks.CallStacks.SendOneWay` | driver/binder.c:1308-1699 | a one-way call, with or without a process to go to, touches no stack |
| `CallStacks.CallStacks.ReadErrors` | driver/binder.c:2161-2176 | the pending codes are reported, the propagated one first, and cleared; the one that finds no room stays |
| `CallStacks.CallStacks.ReadWork` | driver/binder.c:2219-2439 | the first item of the right list is taken, and a call is put on the stack |
| `CallStacks.CallStacks.UnlinkStack` | driver/binder.c:2557-2578 | the walk ends, does not reach the BUG, and clears exactly the thread's ends of its calls |
| `CallStacks.CallStacks.FreeThread` | driver/binder.c:2546-2585 | after the exit the chain that lost its receiver has failed to its nearest living caller, and the invariant is kept |
| `CallStacks.CallStacks.ReleaseProc` | driver/binder.c:3081-3081 | every undelivered call of a process without threads is freed with the calls orphaned by it, and its nearest living caller, if there is one, is told that the reply is dead |
| `CallStacks.CallerState` | driver/binder.c:1332-1369 | a thread is idle, waits for a call that it made, or serves the last call of its chain |
| `SelfDirected.RepliesMatch` | driver/binder.c:1341-1362 | in every reachable state a reply does not find its caller's stack in disagreement |
| `SelfDirected.SelfDirectedIff` | driver/binder.c:1398-1468 | after a call, a reply by its sender takes the branch for a bad target stack, and the call once received lies below itself, just when the search for the target thread ended at the sender |
| `SelfDirected.ReachSelfDirected` | driver/binder.c:1398-1415 | a run of two processes after which the search for the target thread does end at the sender |
| `SelfDirected.WalkIsKill` | driver/binder.c:2557-2578 | in every reachable state the walk of an exiting thread ends, and has passed every call that starts or ends at the thread |
| `SelfDirected.SelfDirectedExitIff` | driver/binder.c:2555-2581 | when a sender exits before its call is received, its walk ends; transactions still point to it just when the call was directed to the sender itself, and then the call is failed for that sender while it is on the list that is released next |
| `CallStacks.WalkedIsReceived` | driver/binder.c:2566-2571 | a call that the walk takes from its receiver is on no list, so its buffer was handed out |
| `CallStacks.KillCuts` | driver/binder.c:2557-2578 | what an exit changes in a transaction: an end at the thread is cleared, but for that of a call still on its list, and nothing else |
| `BackLinks.LinksAgree` | driver/binder.c:1475-1483 | a transaction points to a buffer just when the buffer points to it, and no two share one |
| `BackLinks.UnreadHasBuffer` | driver/binder.c:2371-2371 | a transaction on a list, or waiting at a node whose owner is there, has its buffer |
| `BackLinks.GoneInv` | driver/binder.c:1171-1174 | freeing a transaction keeps that, whether its buffer is there or not |
| `BackLinks.PartedInv` | driver/binder.c:1913-1916 | parting a buffer from its transaction keeps it, once the process knows of the buffer or is gone |
| `BackLinks.BackLinks.FreeBuf` | driver/binder.c:805-823 | no caller frees a buffer that points to a transaction |
| `BackLinks.BackLinks.SendFails` | driver/binder.c:1713-1721 | a transaction that fails after its buffer was allocated leaves nothing behind |
| `BackLinks.BackLinks.Read` | driver/binder.c:2371-2438 | the transaction at the head of a list has a buffer, which the process may free from then on; only a call stays |
| `BackLinks.BackLinks.ReleaseWork` | driver/binder.c:2469-2485 | an undelivered transaction has a buffer |
| `BackLinks.BackLinks.ExitReceiver` | driver/binder.c:2566-2571 | a receiver that exits leaves its call without a buffer and its buffer without a call |
| `BackLinks.BackLinks.FreeBuffer` | driver/binder.c:1905-1927 | freed just when the process knows of it; the next waiting one-way call still has its own |
| `BackLinks.BackLinks.ReleaseProc` | driver/binder.c:3084-3098 | a process goes with all its buffers, and no transaction points to one of them |
| `NodeRefs.IndexesAgree` | driver/binder.c:998-1081 | the two indexes of a process hold the same references, one for each node |
| `NodeRefs.IncNodeIs` | driver/binder.c:919-952 | an increment is refused just when no list was given and a reference's strong count is the first, other than for the manager's node, or a weak one finds the owner untold and the node in no list; else just the count named goes up; the node is queued just when a list was given and the owner is untold |
| `NodeRefs.DecNodeIs` | driver/binder.c:954-995 | just the count named goes down; the node is queued when none of the kind is left and its owner was told of a count, and freed just when its owner was told of none and nothing counts or refers to it |
| `NodeRefs.DeleteRefIs` | driver/binder.c:1083-1106 | when a deleted reference takes its node along, and when the node is queued for its owner, each exactly |
| `NodeRefs.DecRefIs` | driver/binder.c:1131-1158 | a count that is zero stays, and nothing changes; else it goes down by one, and the reference goes just when neither count is left |
| `NodeRefs.IncRefInv` | driver/binder.c:1108-1129 | conservation across increments: a node counts exactly its references with strong counts |
| `NodeRefs.DecRefInv` | driver/binder.c:1131-1158 | conservation across decrements, with the deletion of references and nodes |
| `NodeRefs.DeleteRefInv` | driver/binder.c:1083-1106 | conservation across deletion; the node is freed only with its last reference |
| `NodeRefs.DecLocalInv` | driver/binder.c:954-995 | conservation across the owner's decrements; the node is freed only without references |
| `Handles.ChooseDesc` | driver/binder.c:1046-1052 | the walk gives the smallest unused handle at or above its base |
| `Handles.LowestFreeIsLowest` | driver/binder.c:1046-1052 | there is just one such handle |
| `Handles.NewRefInv` | driver/binder.c:1030-1081 | a new reference keeps both indexes and all counts |
| `Handles.NewRefHandle` | driver/binder.c:1046-1052 | a new reference has the lowest unused handle above 0, and handle 0 when it is the context manager's and 0 is unused |
| `Handles.HandleZeroIsManager` | driver/binder.c:1046-1046 | handle 0 only denotes nodes that have been the context manager |
| `Translation.TranslateKeepsIdentity` | driver/binder.c:1528-1620 | what arrives denotes to the target the node that was sent, as strongly; it is the owner's own pointer and cookie just when a handle was sent to the node's owner |
| `Translation.SendsIff` | driver/binder.c:1528-1612 | an object can be sent just when: an owner's, with its node or memory for one and the node's cookie; a handle, when the sender has it; and, unless it goes home, with a reference of the target or memory for one |
| `Translation.ChainKeepsIdentity` | driver/binder.c:1528-1620 | along forwarding chains of any length, whatever happens in between while each holder keeps its reference, or the owner its node: the object denotes the node first sent, as strongly, the owner is the same all along or gone, and what arrives is the owner's own pointer and cookie just when the hop took a handle to the owner |
| `Translation.ReturnsToOwner` | driver/binder.c:1528-1620 | the round trip: an object that its owner sent comes back to the owner, after any number of hops, as just what was sent, unless the last hop was from the owner to itself with the object in its own hands |
| `Translation.HeldMeansTheSame` | driver/binder.c:998-1015 | an object denotes the same node, with the owner's pointer and cookie, for as long as its holder has the reference, the owner's death included |
| `Persistence.RunPersists` | driver/binder.c:1030-1106 | between any two states of a run: a reference keeps its process, node and handle, a node its pointer and cookie, and its owner until that is gone |
| `Persistence.NeverBack` | driver/binder.c:1083-1106 | a reference or node that is gone never comes back under its identity |
| `Release.TranslateCounts` | driver/binder.c:1528-1620 | an object that arrived adds one to just one count; only for one sent as a handle, and exactly when the count was zero and the node refuses a first count, it adds none; a failure changes no count |
| `Release.SentIsQueued` | driver/binder.c:1564-1565 | when an owner's object is the target's first of its kind, the owner has been told of a count or its node is on a list |
| `Release.DecRefCounts` | driver/binder.c:1131-1158 | one count less, not below zero, and no other count changes |
| `Release.DecLocalCounts` | driver/binder.c:954-995 | one local count less, and no other count changes |
| `Undo.SendCounts` | driver/binder.c:1516-1678 | after any number of objects each count has grown by the number of objects that stand for it, up to refused increments |
| `Undo.OwnAreCounted` | driver/binder.c:1516-1678 | when all objects are the sender's own each count has grown by exactly the number of objects that stand for it |
| `Undo.SendStops` | driver/binder.c:1516-1678 | translation is given up just at an object that cannot be sent, all before it having been |
| `Undo.SendKeepsMeaning` | driver/binder.c:1516-1678 | every object of a transaction means to the target what it means to the sender, whatever came after it |
| `Undo.ReleaseCounts` | driver/binder.c:1253-1305 | releasing a buffer takes one from a count for each object that stands for it, wherever the owner's local counts cover those objects; a reference's count stops at zero |
| `Undo.ReleaseUndoesTranslation` | driver/binder.c:1229-1306 | releasing all the objects, or those before the one that failed, returns every local and every reference count to its value before the transaction |
| `ProcExit.Survives` | driver/binder.c:2986-3005 | a node without an owner survives the exit of a process just when another process refers to it |
| `RefTable.RefTable.IncNode` | driver/binder.c:919-952 | when the increment is refused, which count goes up and when the node is queued, each exactly |
| `RefTable.RefTable.DecNode` | driver/binder.c:954-995 | the counts after the decrement; a node is freed once, and only without references |
| `RefTable.RefTable.NewNode` | driver/binder.c:878-917 | a new node with no counts, under an identity that was never used |
| `RefTable.RefTable.NewRef` | driver/binder.c:1037-1077 | the new reference has the smallest unused handle, so the BUG for a handle in use is unreachable |
| `RefTable.RefTable.GetRefForNode` | driver/binder.c:1017-1081 | the reference there is, or a new one with the smallest unused handle; the BUG is unreachable |
| `RefTable.RefTable.DeleteRef` | driver/binder.c:1083-1106 | the reference leaves both indexes and its node, with its share of the strong count |
| `RefTable.RefTable.IncRef` | driver/binder.c:1108-1129 | refused just when no list was given, the count is the first and the node refuses it; then nothing changes |
| `RefTable.RefTable.DecRef` | driver/binder.c:1131-1158 | the counts after the decrement, and deletion at zero |
| `RefTable.RefTable.SendObjects` | driver/binder.c:1516-1678 | the loop does just what translating the objects in turn says, and stops at the first failure |
| `RefTable.RefTable.ReleaseBuffer` | driver/binder.c:1229-1306 | the loop does just what releasing the target node and the objects says |
| `RefTable.RefTable.Transact` | driver/binder.c:1486-1716 | all objects arrive, meaning the same and each counted; or one fails and every count is as before |
| `RefTable.RefTable.CountCommand` | driver/binder.c:1768-1815 | the count that the command names, and no other, goes up by one, unless it is the first and the node refuses it, or down by one, unless it is zero; the exact condition under which the code uses a null reference |
| `RefTable.RefTable.Done` | driver/binder.c:1816-1869 | an answer is accepted just when it was asked for, and gives back one local count |
| `RefTable.RefTable.ReadNodeWork` | driver/binder.c:2263-2328 | the next command for the owner, or the node leaves the list; freed only when nothing refers to it |
| `RefTable.RefTable.SetContextMgr` | driver/binder.c:2722-2751 | the manager is set once, with one count of each kind |
| `RefTable.RefTable.ReleaseProc` | driver/binder.c:3046-3080 | every other process keeps its references and counts, and a node without an owner survives just when one of them refers to it |
| `OwnerProtocol.NextInv` | driver/binder.c:954-994 | every step keeps the owner's local counts accounted for, and a node whose owner is owed a command on a list |
| `OwnerProtocol.AskIff` | driver/binder.c:2263-2328 | the automaton of the four commands accepts exactly the prefixes of (INCREFS (ACQUIRE RELEASE)* DECREFS)* |
| `OwnerProtocol.OwnerSees` | driver/binder.c:2263-2330 | in every run of one node's steps: a strong count only with a weak one, the commands form such a prefix, and nothing is taken back before its answer |
| `OwnerProtocol.NoEarlyRelease` | driver/binder.c:1852-1869 | no BR_RELEASE or BR_DECREFS while the matching answer is outstanding |
| `OwnerProtocol.WorkSettles` | driver/binder.c:2263-2328 | two commands at most bring the owner up to date with the node, which then leaves the list, and not before |
| `OwnerProtocol.DecRefQuiet` | driver/binder.c:1131-1158 | decrementing a reference is a step that the owner's run allows |
| `OwnerProtocol.IncRefQuiet` | driver/binder.c:1108-1129 | so is incrementing one |
| `OwnerProtocol.DeleteRefOwners` | driver/binder.c:1083-1106 | deleting a reference is such a step for every owner, and frees only a node without local counts |
| `Ledger.NodeStep` | driver/binder.c:919-995 | a step of a node and its owner keeps local counts equal to what buffers hold, one more for a pending answer and one for the context manager's own, and the log equal to what the owner was told |
| `Ledger.TakeStep` | driver/binder.c:1596-1602 | a buffer that takes a local count is such a step |
| `Ledger.ReturnMatched` | driver/binder.c:1260-1274 | a buffer that gives one back is such a step, or frees a node that nothing holds |
| `Ledger.AnswerMatched` | driver/binder.c:1852-1864 | an accepted answer is such a step, and never frees the node |
| `Ledger.WorkMatched` | driver/binder.c:2263-2328 | reading a node's work is such a step, or frees a node that nothing holds |
| `Ledger.QuietMatched` | driver/binder.c:1017-1158 | what happens to references alone leaves every ledger and every log as they were |
| `Ledger.SendMatched` | driver/binder.c:1516-1678 | translating objects adds what they stand for to the ledger |
| `Ledger.ReleaseMatched` | driver/binder.c:1253-1305 | releasing objects takes what they stand for off the ledger |
| `Ledger.TransactMatched` | driver/binder.c:1486-1716 | a transaction adds what its buffer stands for, and leaves the ledger as it was when it fails |
| `Ledger.LedgerCovers` | driver/binder.c:1253-1305 | the owner's local counts cover the objects of every live buffer |
| `Ledger.ExitMatched` | driver/binder.c:3046-3101 | the exit of a process takes its buffers off the ledger, and no other owner notices |
| `Ledger.MatchedCounts` | driver/binder.c:954-995 | no local count is ever below zero |
| `Ledger.MatchedOwnerSees` | driver/binder.c:2263-2330 | the commands sent to any owner are well formed, and the context manager is never sent any |
| `Driver.SumWithout` | driver/binder.c:1884-1926 | what the buffers stand for without one of them |
| `Driver.FreedCounts` | driver/binder.c:1229-1306 | releasing any live buffer takes one from a count for each object that stands for it |
| `Driver.Driver.Counts` | driver/binder.c:954-995 | in every state of the driver local counts are not negative and the context manager's node is there |
| `Driver.Driver.OwnerSees` | driver/binder.c:2263-2330 | in every state of the driver every owner has been sent a well-formed sequence of commands |
| `Driver.Driver.Transact` | driver/binder.c:1486-1716 | the objects arrive in a buffer, or no count has changed; every invariant is kept with no assumption about earlier counts |
| `Driver.Driver.FreeBuffer` | driver/binder.c:1884-1926 | a live buffer is released once, and takes with it just the counts that its objects stand for |
| `Driver.Driver.CountCommand` | driver/binder.c:1768-1815 | a command about a reference touches no buffer and no owner's log; a null reference is used just when there is no memory for the context manager's |
| `Driver.Driver.Done` | driver/binder.c:1816-1869 | an accepted answer is logged, and its node stays |
| `Driver.Driver.ReadNodeWork` | driver/binder.c:2263-2328 | the command that the owner is sent is logged |
| `Driver.Driver.SetContextMgr` | driver/binder.c:2722-2751 | the new manager's node, with one count of each kind for itself |
| `Driver.Driver.ReleaseProc` | driver/binder.c:3046-3101 | the process goes with its buffers, and the rest stays consistent |
| `OneWay.Serialised` | driver/binder.c:1687-1697 | has_async_transaction holds just when one call to the node is in flight, calls wait only behind one, and what arrived is a prefix of what was sent |
| `OneWay.DeliveredIsCurrent` | driver/binder.c:1917-1918 | the BUG_ON of BC_FREE_BUFFER is unreachable |
| `OneWay.SendIsLast` | driver/binder.c:1687-1699 | a call goes to the end of the process's list, or waits behind all others for its node |
| `OneWay.TakeIsFirst` | driver/binder.c:2219-2226 | reading takes the front of one list, and no list changes otherwise |
| `OneWay.FreeStartsNext` | driver/binder.c:1917-1922 | the call that waited longest goes to the end of the freeing thread's list |
| `OneWay.SendInv` | driver/binder.c:1687-1699 | sending keeps the serialisation |
| `OneWay.TakeInv` | driver/binder.c:2370-2439 | delivery keeps it |
| `OneWay.FreeInv` | driver/binder.c:1900-1926 | freeing a buffer, which starts the next call, keeps it |
| `OneWay.OneWayQueues.SendOneWay` | driver/binder.c:1687-1699 | the call goes on the process's list or waits at its node |
| `OneWay.OneWayQueues.Read` | driver/binder.c:2219-2439 | a call that arrives is the next of those sent to its node |
| `OneWay.OneWayQueues.FreeBuffer` | driver/binder.c:1884-1927 | only a delivered buffer is freed; the next waiting call goes to the freeing thread's own list |
| `Deaths.ToldOnce` | driver/binder.c:2012-2104 | each record is told of at most once each way, of the death only when the node that was asked about has died, of the clear only after a clear was accepted, and is there or freed, not both |
| `Deaths.RequestIs` | driver/binder.c:2028-2037 | the new record is in no list while the node lives, and else says that it is dead, at the end of the list |
| `Deaths.ClearIs` | driver/binder.c:2051-2065 | a record in no list becomes the answer to the clear, at the end of the list; one in a list stays in its place |
| `Deaths.AcknowledgeIs` | driver/binder.c:2094-2103 | the record leaves the delivered list and, just when a clear is due, is put at the end of a todo list to answer it |
| `Deaths.TakeIs` | driver/binder.c:2331-2364 | the record at the front of the list is freed when it answers a clear, and is else the last of the delivered ones |
| `Deaths.VisitIs` | driver/binder.c:3010-3021 | the record of a reference to a node that died says so, at the end of its process's list |
| `Deaths.RemoveRefIs` | driver/binder.c:1083-1106 | a deleted reference leaves its place in its node's list; a dead node goes with its last |
| `Deaths.RequestInv` | driver/binder.c:2012-2038 | an accepted request keeps the life cycle |
| `Deaths.ClearInv` | driver/binder.c:2039-2066 | an accepted clear keeps it, and a record in a list is of type DEAD_BINDER then |
| `Deaths.AcknowledgeInv` | driver/binder.c:2069-2104 | BC_DEAD_BINDER_DONE keeps it |
| `Deaths.TakeInv` | driver/binder.c:2331-2365 | telling a process keeps it |
| `Deaths.VisitInv` | driver/binder.c:3007-3022 | the death of a node keeps it |
| `Deaths.DropInv` | driver/binder.c:2462-2508 | binder_release_work keeps it |
| `DeathNotices.DeathNotices.RequestDeath` | driver/binder.c:2012-2038 | accepted just when the reference has no record |
| `DeathNotices.DeathNotices.ClearDeath` | driver/binder.c:2039-2066 | accepted just when the reference has a record with that cookie; a record in no list answers the clear, a listed one stays in its place; the BUG_ON is unreachable |
| `DeathNotices.DeathNotices.FindDelivered` | driver/binder.c:2076-2082 | finds the first delivered record with the cookie, if there is one |
| `DeathNotices.DeathNotices.DeadBinderDone` | driver/binder.c:2069-2104 | the record found leaves the delivered list, for a todo list if a clear is due |
| `DeathNotices.DeathNotices.Read` | driver/binder.c:2331-2365 | what the process is told, at most once each, and of a death only for a node that died |
| `DeathNotices.DeathNotices.DeleteRef` | driver/binder.c:1083-1106 | the record of a deleted reference is freed |
| `DeathNotices.DeathNotices.VisitRefs` | driver/binder.c:3007-3022 | the BUG is unreachable, and the loop tells exactly the references before the first without a record |
| `DeathNotices.DeathNotices.AllToldIff` | driver/binder.c:3007-3022 | when exactly the references before the first gap were told, every watcher was told just when none comes after a reference without a record |
| `DeathNotices.UntoldWatcher` | driver/binder.c:3010-3011 | a run in which a node dies and a process that asked to be told is not |
| `DeathNotices.DeathNotices.ReleaseNode` | driver/binder.c:2986-3030 | those references are told and no other record changes; every watcher is told just when none comes after a reference without a record |
| `DeathNotices.DeathNotices.ReleaseWork` | driver/binder.c:2462-2508 | detached records are freed, attached ones stay with their references |
| `DeathNotices.DeathNotices.ReleaseProc` | driver/binder.c:3053-3082 | every record that the process ever asked for has been freed |
| `RecencyList.RecencyList.Attach` | include/utils/LruCache.h:187-196 | the entry becomes the youngest of the list |
| `RecencyList.RecencyList.Detach` | include/utils/LruCache.h:198-213 | just that entry leaves the list, and its own links are cleared |
| `RecencyList.RecencyList.WalksAgree` | include/utils/LruCache.h:187-213 | the walk from the oldest by child lists the entries, and is the reverse of the walk from the youngest by parent |
| `RecencyList.InsertedKeeps` | include/utils/LruCache.h:127-148 | put keeps keys distinct and a limit respected |
| `RecencyList.InsertedIs` | include/utils/LruCache.h:127-148 | put succeeds just when no item that stays has the key; the first item goes just when the limit is reached, the others stay, and the new one comes last |
| `RecencyList.GetAfterPut` | include/utils/LruCache.h:114-148 | a get right after a put that succeeded gives what was put, and any other key that was not evicted what it gave |
| `RecencyList.LostForNothing` | include/utils/LruCache.h:127-136 | put refuses and still loses an item just when the cache is full and has the key, but not as its oldest |
| `RecencyList.LostForNothingExample` | include/utils/LruCache.h:127-136 | a concrete cache that loses an item so |
| `RecencyList.TouchedKeeps` | include/utils/LruCache.h:114-125 | a hit keeps every item and the order of the others |
| `CacheTable.AgreeKeys` | include/utils/LruCache.h:114-125 | the table finds a key just when the list has an item with it |
| `LruCache.LruCache.Get` | include/utils/LruCache.h:114-125 | refines a hit or a miss of the sequence of items |
| `LruCache.LruCache.Put` | include/utils/LruCache.h:127-148 | refines insertion, with eviction before the test for the key: the items that stay, the new one last, and a lookup of its key gives it; the listener is told of the evicted item |
| `LruCache.LruCache.Remove` | include/utils/LruCache.h:150-164 | refines removal |
| `LruCache.LruCache.RemoveOldest` | include/utils/LruCache.h:166-173 | removes the oldest item |
| `LruCache.LruCache.Clear` | include/utils/LruCache.h:175-185 | the listener is told of every item, oldest first |
| `LruCache.LruCache.Rehash` | include/utils/LruCache.h:215-226 | at whatever size the table reports no room: same items in the same order, none evicted, and only new entries in the list |
| `GenerationCache.PositionSplits` | include/utils/GenerationCache.h:161-177 | where a key is, or belongs, in the sorted vector |
| `GenerationCache.InKeyOrderAt` | include/utils/GenerationCache.h:119-132 | the items in key order are those of the list |
| `GenerationCache.GenerationCache.Get` | include/utils/GenerationCache.h:149-160 | refines a hit or a miss of the sequence of items |
| `GenerationCache.GenerationCache.Put` | include/utils/GenerationCache.h:162-177 | refines insertion, with eviction before the test for the key: the items that stay, the new one last, and a lookup of its key gives it |
| `GenerationCache.GenerationCache.RemoveAt` | include/utils/GenerationCache.h:190-198 | removes the item whose key has that index |
| `GenerationCache.GenerationCache.RemoveOldest` | include/utils/GenerationCache.h:200-214 | removes the oldest item; the complaint about a missing key is never made |
| `GenerationCache.GenerationCache.Clear` | include/utils/GenerationCache.h:119-132 | the listener is told of every item, in key order |

## Left out

- CallStacks.CallStacks.SendCall: a call that would be sent to a target thread that is the sender itself is excluded, because just then a reply before it is received takes the mismatch branch (`SelfDirectedIff`), and an exit before it is received leaves transactions that point to the thread (`SelfDirectedExitIff`); `ReachSelfDirected` leads to such a call. Other calls into the sender's own process are covered.
- CallStacks.CallStacks.ReadWork: node and death work on the lists, and the one-way call that BC_FREE_BUFFER moves to a thread's list, are not among the items here; none of them is a synchronous call.
- RefTable.RefTable.CountCommand: that the context manager's node exists is a fact of `Driver`.
- RefTable.RefTable.Transact: that local counts are not negative is a fact of `Driver`; objects do not overlap, so that translating one leaves the others as they were.
- Driver.Driver.ReadNodeWork: the exit of a single thread, which drops the node work on its list, is not modelled with the ledger.
- OneWay.OneWayQueues.Read: threads do not exit and processes are not released, because both drop calls; work other than one-way calls is one anonymous kind.
- DeathNotices.DeathNotices.Read: lists hold death records only; other work in between does not affect them.
- GenerationCache.GenerationCache.Put: keys are integers, of which only the order is used; reference counting of entries is not modelled.
- LruCache.LruCache.Rehash: the hash table is a map, and whether it has room is any answer between its size and its capacity; where entries lie is BasicHashtable, which is not part of this model.
- The parts are separate models: the address of a transaction's buffer and its objects are not carried from one to the other.
- User copies and their error exits, and offsets that are not aligned or out of range.
- The rebalancing of trees, and the kernel side of mapping pages beyond success or failure for each page.
- Wait queues, priorities, user ids, debugging output, statistics, thread pool requests and file descriptors.
- A cookie mismatch fails the transaction without setting an error code; which error the sender then sees is not modelled.
- The hash table, vectors, blob cache and reference counting under src/lib/utils, the other headers under include, and the runtime, service and application sources.
