# A verified model of the Leviathan native runtime

This project models the state-heavy engines of the Leviathan native runtime in Dafny 4.11 and
proves what holds over all of their runs. `dafny verify dfyconfig.toml` checks the whole project.

| files | engine |
|---|---|
| `Values`, `FlatBuffer`, `Flatten`, `Rebuild`, `Transfer` | copying an arbitrary shared, cyclic value graph into another heap through a relocatable buffer |
| `SeenTable` | the open-addressing tables that both walks use |
| `Arc`, `ArcStores` | reference counting, recursive free, weak proxies; stores the counting does not cover |
| `Allocator` | size classes, free lists, live-bytes meter |
| `Arrays` | boxed, dense and columnar arrays, copy on write |
| `Maps` | map-key equality and insertion-ordered maps |
| `Utf8` | strict UTF-8 |
| `TaskQueues`, `Sched`, `SchedParks`, `SchedLoop` | the stackful task scheduler, its intrusive queues, its parks and its carrier loop |
| `Channel`, `ChannelCalls`, `Workers` | the cross-thread channel, what its calls return, and the worker handoff, as interleaved atomic steps |
| `EventLoop` | one batch of timers and watches |
| `Reach` | the reachability walk of the C++ emitter |
| `CmdLine` | the Windows command-line quoter |
| `Util` | shared definitions |

How the engines are represented:

- Code that updates state in place is a class whose methods are proved against functions of the
  old state or against an invariant; ghost fields record histories (owners, logs of frees and
  firings, the abstract map of a hash table). Protocols between threads, and the scheduler with
  its context switch abstracted to one step, are state machines; a run is any list of steps.
- Addresses, offsets and counters are unbounded integers except where width matters: hashes and
  probe sums wrap at 64 bits, UTF-8 arguments are taken modulo 2^64, float keys are 64-bit
  vectors. A heap has at most 2^60 nodes, sixteen bytes each of a 64-bit address space, so the
  hash tables of a transfer cannot outgrow their 64-bit sizes. Buffer bytes are modelled as typed
  8-byte words.
- The environment appears as parameters: the address or descriptor a fresh allocation gets, what
  poll reports, the current time, what callbacks and tasks do, and which system calls
  fail.

What the proofs show about the code where its comments or a natural reading promise more. Each
entry has an input or a run that fails and the exact condition:

- `runtime/lv_thread.c:374-395`: a receive loads the tail cursor before the closed flag, so None
  does not always mean drained. `Channel.RaceIff` says exactly when that can happen and
  `Channel.NoneOverQueuedMessage` is a run.
- `runtime/lv_runtime.c:303-323`: reclaiming a value struct does not look at the weak table.
  `Arc.Heap.Drop` and `Arc.StaleIff` give the condition, `ArcStores.WeakStructDangles` a run. The
  front end refuses weak fields of value-struct type (`src/sema/Checker.cpp:1101-1123`), so the
  run needs a struct that reaches the slot behind an interface type. `Arc.Heap.WeakLoad` says when
  a read is in order; once the address is reused it yields another block
  (`ArcStores.StaleProxyRenamed`).
- `runtime/lv_runtime.c:2307-2316`: an in-place store releases before it retains.
  `Arc.Heap.SetSlot` and `ArcStores.SelfStoreFrees`. Compiled code owns all its operands
  (`src/backend/LlvmGenOps.cpp:946-951`), so it never meets the condition; a native caller that
  passes a borrowed value can.
- `runtime/lv_runtime.c:2318-2324`: a store into a shared boxed array aliases value structs.
  `ArcStores.SharedStoreIff` and `ArcStores.SharedStructAliased`; on arrays,
  `Arrays.ArrayHeap.Set` and `Arrays.SharedSetFails`.
- `runtime/lv_runtime.c:1959-1995` and `2069-2090`: an inline array is freed without a walk, yet
  filling puts structs with heap fields inline, and so does appending to an array that is inline
  already. `Arrays.Fill` and `Arrays.ArrayHeap.Append` give the conditions, `Arrays.FillFails`,
  `Arrays.InlineAppendFails` and `ArcStores.FillDangles` the failures; contents agree in every case.
- `runtime/lv_runtime.c:836-865`: such an inline array crosses to another thread word for word, and
  the sender's addresses in its rows with it. `Transfer.Transfer` and `Transfer.ContainedIff` give
  the condition, `Transfer.FilledRowEscapes` a run. (Classes stored in columns have scalar fields
  only.)
- `runtime/lv_thread.c:229-250`: a worker is in the registry before its thread exists, so a result
  call on a left-over descriptor number can take it and the failing start call frees it.
  `Workers.BrokenIff` and `Workers.StaleTakeBreaks`; the other results about workers hold up to
  that point.
- `runtime/lv_loop.c:515-517`: a repeating timer's callback runs on the registry's reference
  alone. `EventLoop.Loop.FireTimer` and `EventLoop.SelfCancelReleases`. (The watch path takes a
  reference of its own around the callback, which the model does not count.)
- `runtime/lv_loop.c:490-498`: due timers are collected after the watch callbacks of the same
  batch, so a timer one of them adds without delay fires in that batch. `EventLoop.Loop.Step` and
  `EventLoop.ZeroDelayFires`; among timers, none added in the timer half fires.
- `src/backend/CGen.cpp:1245-1260`: the sweep records a dispatch class only for a target it newly
  marks, so the list of by-name classes depends on the order of discovery (`Reach.TwoStepWalk`).
  Together with the instantiated classes, which are emitted with it (`src/backend/CGen.cpp:1464-1475`),
  it does not (`Reach.Walk.Generate`, `Reach.OrderFree`).
- `runtime/lv_plat_win32.c:500-562`: the quoter is the inverse of the stated rules for all
  arguments (`CmdLine.RoundTrip`); a program name split off by the rule runtimes use for it is
  harmless under the condition of `CmdLine.NameHarmlessIff`.
- `runtime/lv_runtime.c:2211-2245`: the in-place update keeps the stored key and the copying one
  stores the new key, which can differ (a zero of the other sign, another string object).
  `Maps.UpdateIsPut` shows the two agree up to key equality in all cases.

## Model

| member | source | states |
|---|---|---|
| `Values.GetAfterSet` | runtime/lv_runtime.c:500-538 | For every well-formed object or closure: a field or capture just written reads back, every other name reads as before (declared slot, list entry or absent), and the node stays well formed (no name twice, no list entry shadowing a slot). |
| `Values.ReachableInClosed` | runtime/lv_runtime.c:746-930 | A set of nodes closed under references holds everything reachable from its members; the walk of flatten is judged against this. |
| `FlatBuffer.KidWrite` | runtime/lv_runtime.c:721-724 | Writing one element of a record changes exactly its two words and nothing else of the record. |
| `FlatBuffer.HeadRoundTrip` | runtime/lv_runtime.c:746-930 | For every node kind the header that rebuild decodes (class, slot count, key names, text, inline words, layout bits in the length word) is the header that flatten laid out. |
| `FlatBuffer.KidRoundTrip` | runtime/lv_runtime.c:1072-1077 | The value read back at any element position of a stored record is the one stored there. |
| `Flatten.LayoutAppend` | runtime/lv_runtime.c:713-720 | A new record keeps all records of the buffer disjoint, 16-byte aligned and in order. |
| `Flatten.LayoutPut` | runtime/lv_runtime.c:721-724 | Storing an element in place rewrites its own record and disturbs no other record. |
| `Flatten.RefusalMeans` | runtime/lv_runtime.c:746-930 | Which values may not cross and why: blocks, closures other than the root, promises, the five loop-bound classes and streams that own a descriptor, with everything derived from them. |
| `Flatten.Flattener.NewRecord` | runtime/lv_runtime.c:713-720 | Reserves a blank record for a node and enters its offset in the hash table before any of its children is walked; the table stands for exactly the nodes recorded so far and never overflows. |
| `Flatten.Flattener.Flatten` | runtime/lv_runtime.c:746-930 | On success the value is moved to its record, every record added is a complete copy, every added node is reachable from the value and nothing older is touched; on failure some value on the walk really is one of the refused kinds. Terminates on cycles because each node is registered once. |
| `Flatten.Flattener.FlattenNode` | runtime/lv_runtime.c:746-930 | One record per node, at the end of the buffer, complete when the call returns without error. |
| `Flatten.Flattener.FlattenKid` | runtime/lv_runtime.c:746-930 | One round of the walk over the children: the open record gains exactly one more finished element. |
| `Rebuild.StoredPart` | runtime/lv_runtime.c:1072-1077 | Storing the next element, by position or through the field setter, turns the first t elements into the first t+1; list entries come out in reverse order. |
| `Rebuild.CountsStore` | runtime/lv_runtime.c:1072-1077 | Storing a value and retaining it keeps every count equal to the number of slots that refer to its node. |
| `Rebuild.Rebuilder.NewNode` | runtime/lv_runtime.c:1079-1187 | A node is allocated with count 0 and entered in the hash table before its elements are rebuilt. |
| `Rebuild.Rebuilder.Rebuild` | runtime/lv_runtime.c:1079-1187 | Rebuilding yields the moved value, leaves older nodes alone, builds each record at most once and keeps all counts exact. |
| `Rebuild.Rebuilder.RebuildNode` | runtime/lv_runtime.c:1079-1187 | Every node made by the call is whole when it returns, cycles included. |
| `Rebuild.Rebuilder.StoreKid` | runtime/lv_runtime.c:1072-1077 | The store-and-retain step: one more element in place, counts still exact. |
| `Transfer.CopyLookup` | runtime/lv_runtime.c:1072-1187 | Reading any field or capture of the copy gives the copy of what the original holds under that name, although the list order is reversed. |
| `Transfer.FlatCoversReachable` | runtime/lv_runtime.c:746-930 | The nodes in a finished buffer are exactly the nodes reachable from the root. |
| `Transfer.ThreadFlatten` | runtime/lv_runtime.c:1191-1210 | Succeeds if and only if no value met on the walk is refused; the buffer then holds one complete record per reachable node. |
| `Transfer.ThreadRebuild` | runtime/lv_runtime.c:1214-1221 | Every record of the buffer becomes one whole node; counts are exact, with one more for the root. |
| `Transfer.AllRebuilt` | runtime/lv_runtime.c:1214-1221 | The nodes rebuilt are those flattened, no more and no fewer. |
| `Transfer.PhiIsIsomorphism` | runtime/lv_runtime.c:746-1221 | The composed renaming is a bijection between reachable source nodes and rebuilt nodes that carries each node to its copy. |
| `Transfer.Transfer` | runtime/lv_runtime.c:1250-1258 | Flatten then rebuild, with their hash tables, on every value graph of a 64-bit heap: refused exactly when something reachable is refused, else an isomorphic graph (one node per node, sharing and cycles kept) in which, written out tag by tag, every immediate arrives as it is, every reference renamed and every weak slot as None, heads, slots and keyed entries included, and each counted node has one count per referring slot plus one for the root. The copy is cut off from the sender if and only if no inline row met on the walk holds a reference. |
| `Transfer.CopyIsExact` | runtime/lv_runtime.c:746-1221 | With nothing refused, every node and the root arrive as the written-out rules say: same tag and payload for immediates, renamed payload for references, None for weak slots, list entries under their keys in reverse order. |
| `Transfer.ContainedIff` | runtime/lv_runtime.c:836-865 | Inline rows are copied word for word: everything the copy holds is immediate or names a node of the copy if and only if no inline array reachable from the root holds a reference in a row. |
| `Transfer.FilledRowEscapes` | runtime/lv_runtime.c:849-860 | A run: an array filled with a struct that holds a string is accepted, the string is not copied, and the copy's row names the sender's address. |
| `SeenTable.IndexIsProbe` | runtime/lv_runtime.c:680-704 | For every table size the code reaches, the index computed by a wrapping 64-bit sum and a bit mask is the remainder of the exact sum. |
| `SeenTable.AndMask` | runtime/lv_runtime.c:680-704 | Masking with one less than a power of two is the remainder by it, by the bits of the number. |
| `SeenTable.ProbeReaches` | runtime/lv_runtime.c:680-704 | Linear probing visits every slot within one round, so a probe of a table with a free slot ends. |
| `SeenTable.MeansInsert` | runtime/lv_runtime.c:698-703 | Filling the first free slot of a key's probe sequence adds exactly that key to the map the table stands for. |
| `SeenTable.EntriesAll` | runtime/lv_runtime.c:689-697 | The slots of a table, rehashed one by one, give back the whole map. |
| `SeenTable.Table.Get` | runtime/lv_runtime.c:680-688 | Finds the value of the key in the map, or reports it absent, whatever collisions the table holds. |
| `SeenTable.Table.Put` | runtime/lv_runtime.c:689-704 | Adds the key to the map; doubles the table exactly when it would become three-quarters full; the size stays a power of two. |
| `SeenTable.Table.Grow` | runtime/lv_runtime.c:689-697 | Doubling and rehashing keep the map, and none of the nested puts grows the table again. |
| `Arc.Heap.Retain` | runtime/lv_runtime.c:285-291 | One more owner and one more count; every count equals its owners before and after. |
| `Arc.Heap.Release` | runtime/lv_runtime.c:293-301 | Drops one reference; the last one frees the block. Keeps counts, weak table and the history of the running free; terminates because live blocks only become fewer. |
| `Arc.Heap.RecursiveFree` | runtime/lv_runtime.c:325-415 | Frees a block nobody owns together with what only it kept alive. |
| `Arc.Heap.WeakInvalidate` | runtime/lv_runtime.c:275-283 | Clears the proxy of a dying block, if any, and its table entry, and changes nothing else. |
| `Arc.Heap.FreeProxy` | runtime/lv_runtime.c:325-333 | A dying proxy takes its own table entry with it. |
| `Arc.Heap.WalkSlots` | runtime/lv_runtime.c:334-415 | Drops the slots of a dying block one after another, under every nested free. |
| `Arc.Heap.VFree` | runtime/lv_runtime.c:303-323 | Reclaims an inline value struct and releases its fields; anything else is left alone. |
| `Arc.Heap.Drop` | runtime/lv_runtime.c:293-415 | The blocks freed are the least set closed under losing the last owner, each freed once; every other block keeps its contents, and all counts equal owners again. The weak table is right afterwards if and only if every reclaimed value struct that had a proxy took the proxy with it. |
| `Arc.Heap.New` | runtime/lv_runtime.c:478-496 | A block placed at any free address, reused or new, takes over references its maker owned; the invariant holds. The address may be that of a reclaimed value struct whose proxy was left behind. |
| `Arc.Heap.WeakLoad` | runtime/lv_runtime.c:540-545 | A weak read yields nothing or the target its proxy names, whose table entry names this very proxy; the target is live, and then retained if it is counted, if and only if it is not a reclaimed value struct. |
| `Arc.Heap.WeakStore` | runtime/lv_runtime.c:547-569 | Points a weak slot at an object or a value struct through its one shared proxy, without retaining the target; every live block but the proxy given up stays alive with its contents and kind, and the weak table changes by the entries of the proxy given up and of the one returned alone. |
| `Arc.Heap.SetSlot` | runtime/lv_runtime.c:2307-2316 | An in-place store: release, store, retain. The blocks the release frees are exactly those that depend on the reference in the slot (they lie in every set closed under losing the last owner once that reference is gone), every other block keeps its contents, and the store is safe if and only if the stored value is not among them: always when the caller owns it, never when the slot is its only owner. A value struct the slot held is left alive without an owner. |
| `Arc.HangsExactly` | runtime/lv_runtime.c:293-415 | What releasing the reference in a slot frees is the least set closed under losing the last owner in the memory with that slot emptied. |
| `Arc.DerivedInClosed` | runtime/lv_runtime.c:325-415 | Everything a free has logged lies in every set closed under losing the last owner: nothing is freed too early. |
| `Arc.FreedIsExact` | runtime/lv_runtime.c:325-415 | At the end of a free the log is that least closed set: nothing is freed twice and nothing is leaked. |
| `Arc.StaleIff` | runtime/lv_runtime.c:303-323 | After any free, nested structs and proxies included, no table entry names a reclaimed value struct if and only if none of them left its proxy behind. |
| `Arc.OnlyTheProxy` | runtime/lv_runtime.c:325-333 | Giving up a proxy frees at most the proxy. |
| `ArcStores.WeakStructDangles` | runtime/lv_runtime.c:303-323 | A run: a struct is made, stored weakly and dropped; every count is right and its proxy names freed memory. |
| `ArcStores.StaleProxyRenamed` | runtime/lv_runtime.c:540-545 | The run goes on: the address is reused, and reading the weak slot yields a block that was never stored there. |
| `ArcStores.SelfStoreFrees` | runtime/lv_runtime.c:2307-2316 | A run: storing into a slot the value that only this slot keeps alive frees it before it is stored. |
| `ArcStores.SharedStoreIff` | runtime/lv_runtime.c:2318-2324 | A store into a shared boxed array, which copies the element words and retains them, leaves all counts right if and only if no copied element is a value struct. |
| `ArcStores.SharedStructAliased` | runtime/lv_runtime.c:2318-2324 | A state where it fails: two arrays own the same value struct and each will reclaim it. |
| `ArcStores.FillDangles` | runtime/lv_runtime.c:1977-1985 | A run: an inline array filled with a struct; once the struct is dropped its field is freed, and a word of the array still names it. |
| `Channel.StepKeeps` | runtime/lv_thread.c:344-404 | Every step of producer, consumer and closer keeps the channel invariant (ring contents, cursors, program-counter facts, pending wake-ups, buffer count). |
| `Channel.AfterInv` | runtime/lv_thread.c:324-404 | So the invariant holds in every state of every interleaving of a fresh channel of any capacity and policy. |
| `Channel.DeliversInOrder` | runtime/lv_thread.c:344-395 | In every interleaving the messages received are a prefix of those enqueued, in order and each once, and the ring has the requested capacity, at least one, and never holds more. |
| `Channel.NothingDropped` | runtime/lv_thread.c:344-369 | Under the blocking policy, while the channel is open every message offered is enqueued, in order. |
| `Channel.NeverOverwrites` | runtime/lv_thread.c:344-369 | The slot a send is about to fill holds no unread message. |
| `Channel.NoLostWakeup` | runtime/lv_thread.c:344-404 | A side parked on a zero eventfd that could proceed always has a write to that eventfd coming. |
| `Channel.NeverBothBlocked` | runtime/lv_thread.c:344-395 | Producer and consumer are never parked on zero eventfds at the same time. |
| `Channel.BuffersAccounted` | runtime/lv_thread.c:344-395 | Live message buffers are exactly those in the ring and in the two endpoints' hands. |
| `Channel.RaceIff` | runtime/lv_thread.c:374-395 | From any reachable state in which a receive is about to load the tail of an empty ring: some continuation makes that receive return None over a queued message if and only if the channel is still open, or a send is under way that can still land. Sends that cannot: one that will fail the closed check, and under drop or error one that has already found, or will find by its stale head, the ring full. |
| `Channel.ReceiveCompletes` | runtime/lv_thread.c:374-395 | With a message queued or the channel closed, a receive in any reachable state completes by at most ten steps, all its own but for at most one wake-up write that another thread is about to make; it returns the message it has taken, else the next one queued and dequeues it, else None. |
| `Channel.SendCompletes` | runtime/lv_thread.c:344-369 | With room in the ring, or under drop or error in any case, a send completes by at most nine steps, all its own but for at most one pending wake-up write; with room its message is enqueued and the call reports it sent, otherwise it reports what happened. |
| `ChannelCalls.ReceiveReturns` | runtime/lv_thread.c:374-395 | Over every run from the start of a receive to its return: it took exactly the next message in order and returned it, or took nothing and returned None, and then it loaded the cursors of an empty ring and by its next step the flag of a closed channel. |
| `ChannelCalls.SendReturns` | runtime/lv_thread.c:344-369 | Over every run from the start of a send to its return it makes one report and it is true: sent, with its message alone enqueued; dropped or overflow, under that policy, after it loaded a head and by its next step a tail a whole ring ahead; closed, as its check found; or refused. |
| `ChannelCalls.OneRoundPerWrite` | runtime/lv_thread.c:366-393 | A side that comes back from its park and parks again stays blocked until another thread writes to its eventfd: there is no busy waiting. |
| `Channel.NoneOverQueuedMessage` | runtime/lv_thread.c:374-395 | A run in which a send and a close between the two loads make a receive return None with a message queued. |
| `Workers.StepKeeps` | runtime/lv_thread.c:57-279 | Every step of spawners, workers, joiners and channel endpoints keeps the system invariant. |
| `Workers.RemovedIs` | runtime/lv_thread.c:66-73 | Taking by descriptor removes exactly the one registered worker that holds it; the swap with the last entry loses and duplicates nobody. |
| `Workers.TransfersAccounted` | runtime/lv_thread.c:105-279 | In every interleaving of any number of workers and channels, transfer-outstanding, which moves by one at each flatten and at each buffer free and by nothing else, is the number of buffers in capture slots, result slots, rings and hands. |
| `Workers.ReapedOnceAfterPublish` | runtime/lv_thread.c:247-279 | In every interleaving, up to a torn start (see BrokenIff), a worker is reaped at most once, after it published and exited; its heap is mapped while it runs and unmapped only after its result was taken and its buffer freed; a published result keeps the descriptor readable until it is read. |
| `Workers.AnswerIsEnding` | runtime/lv_thread.c:101-279 | In every interleaving the result call on a worker answers with what the body of that worker, the one its start call was given, ended with: its value, or raised, the reason it cannot cross threads or the message it threw. |
| `Workers.JoinCompletes` | runtime/lv_thread.c:247-279 | A result call that has taken a started worker returns by at most fifteen steps, its own and that worker's. |
| `Workers.WorkerLife` | runtime/lv_thread.c:199-279 | From every reachable state a worker can be started on a free descriptor and joined, and the answer is how its body ends. |
| `Workers.NoDescriptor` | runtime/lv_thread.c:222-228 | A start call without a descriptor fails and frees its buffer. |
| `Workers.NoThread` | runtime/lv_thread.c:231-238 | A start call without a thread fails, leaves the registry, frees its buffer and closes its descriptor. |
| `Workers.OneWorkerPerFd` | runtime/lv_thread.c:199-279 | A descriptor number names at most one unreaped worker, so reuse after close cannot make a result call take a second one. |
| `Workers.NoLeak` | runtime/lv_thread.c:199-279 | When every worker is reaped or failed to start and the channels are idle and drained, transfer-outstanding is zero, spawns equal reaps, the registry is empty and no descriptor is open. |
| `Workers.BrokenIff` | runtime/lv_thread.c:229-250 | A start call frees a record that a result call is using if and only if thread creation fails for a worker that a result call took between its registration and that failure. |
| `Workers.StaleTakeBreaks` | runtime/lv_thread.c:229-250 | A run: a result call on a left-over descriptor number takes the worker before its thread is made, and making the thread fails. |
| `TaskQueues.ListUnlink` | runtime/lv_task.c:534-545 | Unlinking the k-th element of a head/tail list, wherever it stands, gives the well-formed list without it. |
| `TaskQueues.Queues.RunqAppend` | runtime/lv_task.c:507-512 | The task becomes the last of the run queue; both lists stay well formed and apart. |
| `TaskQueues.Queues.RunqPop` | runtime/lv_task.c:514-521 | The first task leaves the run queue. |
| `TaskQueues.Queues.ParkedAppend` | runtime/lv_task.c:523-528 | The task becomes the last of the parked list. |
| `TaskQueues.Queues.ParkedRemove` | runtime/lv_task.c:534-545 | Removes the task if and only if it is parked, keeping the order of the others and the run queue. |
| `TaskQueues.Queues.PollParked` | runtime/lv_task.c:844-865 | One pass moves every ready task to the run queue in park order and keeps the others in order, while it unlinks the list it walks. |
| `TaskQueues.Queues.DrainAll` | runtime/lv_task.c:873-885 | The whole parked list moves to the run queue in park order. |
| `Sched.SpawnKeeps` | runtime/lv_task.c:665-699 | Spawning, on a pooled or a new structure, keeps the scheduler invariant. |
| `Sched.DispatchKeeps` | runtime/lv_task.c:634-648 | Switching to the first runnable task keeps it. |
| `Sched.ParkKeeps` | runtime/lv_task.c:763-816 | All three park shapes keep it, whether they return at once or leave. |
| `Sched.CompleteKeeps` | runtime/lv_task.c:596-629 | Completion and return to the pool keep it. |
| `Sched.CancelKeeps` | runtime/lv_task.c:896-916 | Cancelling keeps it: a mark is counted once, and delivered only to an unshielded task whose keys are unsettled (what it does to the task is in SchedParks). |
| `Sched.PollKeeps` | runtime/lv_task.c:844-865 | Polling the parked list keeps it. |
| `Sched.DrainKeeps` | runtime/lv_task.c:873-885 | The drain wake keeps it. |
| `Sched.PollMatchesScan` | runtime/lv_task.c:844-865 | The poll of the state machine picks the tasks that the pass over the linked list picks, in the same order. |
| `Sched.RemovedMatchesUnlink` | runtime/lv_task.c:534-545 | Removal in the state machine is the unlink of the linked list. |
| `Sched.RunKeeps` | runtime/lv_task.c:596-962 | The invariant holds in every state of every run. |
| `Sched.OnePlace` | runtime/lv_task.c:507-545 | In every reachable state a live task is in exactly one of current, run queue and parked list, and never in the pool. |
| `Sched.CountersBalance` | runtime/lv_task.c:362-371 | In every reachable state spawned = completed + live, mapped = live + pooled, mapped = peak live, delivered <= marked. |
| `Sched.WakeReasons` | runtime/lv_task.c:763-785 | A resumed park returns exactly one reason; CANCELLED only with a mark set and no shield, consuming the mark; SETTLED only if what it waited for is met; any other wake keeps the mark. |
| `Sched.JoinMeansCompleted` | runtime/lv_task.c:804-816 | A join returns SETTLED, at once or later, only if every id issued before has completed. |
| `Sched.SettleWins` | runtime/lv_task.c:896-916 | A parked task is cancelled while its keys poll settled. For all runs: until the next poll it stays parked and marked; that poll wakes it; however long it waits to run, its park returns SETTLED with the mark set; whatever it and others do then short of an unshielded park of its own, the mark stays; its first unshielded park returns CANCELLED and clears it. |
| `Sched.MarkWaits` | runtime/lv_task.c:733-785 | A marked parked task is changed by nothing but a poll or a drain, and settled keys stay settled (a join: for ids already issued). |
| `Sched.MarkKeptLong` | runtime/lv_task.c:763-785 | Over any run a pending mark is lost by nothing but its delivery at an unshielded park or the end of its task. |
| `Sched.QueueGrows` | runtime/lv_task.c:507-521 | Between dispatches the run queue only grows at its end. |
| `Sched.FifoOrder` | runtime/lv_task.c:932-962 | The task at position k of the run queue is first in line after exactly k turns, whatever those turns do. |
| `SchedLoop.SchedRun` | runtime/lv_task.c:932-962 | The carrier loop, by a trace of what it did: tasks run first, by the slices of the plan in order and none after a throw; the parked list is polled only with an empty run queue; the event loop is asked only after a poll that woke nobody; parked tasks are drained only after it answered that it has no work, with nobody ready; quiescent, threw and unfinished mean what they say; and the whole is a run of the state machine, so all results over runs hold of it. |
| `SchedLoop.SliceShape` | runtime/lv_task.c:634-648 | A turn is the task's planned moves one after another up to the one by which it leaves; a task still running at the end completes. |
| `SchedLoop.BatchShape` | runtime/lv_task.c:954-954 | A batch of the event loop starts its callbacks as tasks and settles its keys, in order. |
| `SchedParks.OverIs` | runtime/lv_task.c:733-745 | The registry and key checks of a park say exactly that what it waits for has come: its key, one of two keys, or the end of every live registered task it joins. |
| `SchedParks.ParkReturns` | runtime/lv_task.c:763-916 | What a park returns, over every run: no move before ends it; the move that does decides the reason, SETTLED from a poll that found the wait over (for two keys with the index of the first declared settled one), DRAINED from a drain, CANCELLED from a cancel of an unmarked unshielded task whose wait was not over; however long the task then waits, its park returns that reason, and only CANCELLED consumes the mark. |
| `SchedParks.ParkLasts` | runtime/lv_task.c:763-916 | Every other move leaves a parked task as it is but for its mark. |
| `SchedParks.CancelTakes` | runtime/lv_task.c:896-916 | Cancelling a parked, unmarked, unshielded task whose wait is not over takes it out of the parked list, puts it last in the run queue, and changes no other task and no other order. |
| `SchedParks.CancelMarks` | runtime/lv_task.c:896-916 | Any other cancel of a live registered task changes its mark alone, and that once. |
| `SchedParks.CancelUnknown` | runtime/lv_task.c:896-900 | A cancel of an id that names no live registered task does nothing. |
| `SchedParks.SettleWakes` | runtime/lv_task.c:733-865 | Once a key a task waits for is settled it stays settled, and the next poll ends the park with SETTLED. |
| `SchedParks.ParkDoes` | runtime/lv_task.c:763-816 | Entering a park: a join with nobody left returns at once, else a deliverable mark is delivered, else the task becomes the last of the parked list. |
| `SchedParks.PollDoes` | runtime/lv_task.c:844-865 | A poll moves the tasks whose wait is over to the end of the run queue in park order and leaves the others parked in order. |
| `SchedParks.DrainDoes` | runtime/lv_task.c:873-885 | A drain moves all parked tasks to the end of the run queue in park order. |
| `SchedParks.ShieldDoes` | runtime/lv_task.c:918-927 | The shield of the running task counts up and down, never below zero, and balanced calls undo each other. |
| `SchedParks.YieldDoes` | runtime/lv_task.c:701-707 | A yield sends the running task to the end of the run queue and changes nothing else of it. |
| `SchedParks.SpawnDoes` | runtime/lv_task.c:665-699 | A new task is last in line under a new id, unmarked and unshielded, on the structure pooled last if there is one; no live task changes. |
| `SchedParks.CompleteDoes` | runtime/lv_task.c:596-629 | After completion no cancel and no join finds the id; no other task changes. |
| `SchedParks.DispatchDoes` | runtime/lv_task.c:634-648 | The first of the run queue runs, and the park it comes back from is over. |
| `Arrays.ColInjective` | runtime/lv_runtime.c:1885-1887 | Distinct fields of distinct elements never share a column word. |
| `Arrays.ColBounds` | runtime/lv_runtime.c:1885-1887 | Every column offset lies inside the buffer. |
| `Arrays.ColumnarAppend` | runtime/lv_runtime.c:1935-1951 | Every old element keeps its fields in the wider layout and the new one is scattered behind them. |
| `Arrays.ColumnarSet` | runtime/lv_runtime.c:1890-1896 | Overwrites the fields of one element and no other word. |
| `Arrays.GatherScatter` | runtime/lv_runtime.c:1890-1918 | Gathering what was scattered gives back every record with the declared tags. |
| `Arrays.RowRoundTrip` | runtime/lv_runtime.c:1849-1859 | A record copied into an inline row reads back as itself. |
| `Arrays.FirstRecord` | runtime/lv_runtime.c:1849-1859 | The first struct of an empty array makes a one-element inline buffer, columnar exactly when the class is eligible. |
| `Arrays.InlineAppend` | runtime/lv_runtime.c:1866-1951 | Append to a dense or columnar buffer is append on the abstract sequence. |
| `Arrays.StoreAt` | runtime/lv_runtime.c:2264-2330 | A store in any layout replaces one position of the abstract sequence; out of range changes nothing. |
| `Arrays.ArrayHeap.Get` | runtime/lv_runtime.c:2161-2184 | A read in any layout is the abstract element, or a bounds error exactly when out of range. |
| `Arrays.ArrayHeap.Append` | runtime/lv_runtime.c:2069-2090 | Append in any layout is append on the abstract sequence; no array that another owner can see changes; the layout reached is stated. A boxed result has a count or a struct of its own for every position that needs one if the array had, and in any case if the array was shared (everything is copied or counted again); an inline result if and only if it shows no reference. |
| `Arrays.ArrayHeap.Set` | runtime/lv_runtime.c:2264-2330 | Store at rc 1 in place, else in a fresh copy: the abstract update, invisible to other owners. A boxed array stored into in place owns what it owned at the other positions; a boxed copy owns what it needs if and only if it copied no value struct; an inline array if and only if it shows no reference. |
| `Arrays.Fill` | runtime/lv_runtime.c:1959-1995 | One-shot construction holds n copies of the value, in the layout it picks, and owns what it needs if and only if the value is not a struct with heap fields (or n is not positive). |
| `Arrays.FillFails` | runtime/lv_runtime.c:1977-1985 | The failing input: filling with a struct that holds a string. |
| `Arrays.InlineAppendFails` | runtime/lv_runtime.c:2069-2090 | A failing input for append: an array started inline with the field empty takes a struct with a string inline. |
| `Arrays.SharedSetFails` | runtime/lv_runtime.c:2318-2324 | A failing input for the store: a shared boxed array of a struct with a string; both arrays show it, the copy has none of its own. |
| `Arrays.InlineOwns` | runtime/lv_runtime.c:371-378 | An inline array, which is freed without looking inside and filled without counting, is right exactly when no element holds a reference. |
| `Arrays.HeapTagsAre` | runtime/lv_runtime.c:2004-2015 | The tags that count as heap fields are exactly those of references. |
| `Arrays.AppendAll` | runtime/lv_runtime.c:2069-2090 | n appends of one value to an empty array hold n copies of it, in the layout they reach, and always own what they need. |
| `Arrays.FillAgainstAppends` | runtime/lv_runtime.c:1953-1995 | One-shot filling and n appends hold the same elements; they agree on layout and on ownership if and only if the value is not a struct with heap fields (or n is not positive). |
| `Allocator.SizeClass` | runtime/lv_runtime.c:133-138 | The least class whose block fits the request, capped at the last class. |
| `Allocator.ClassUnique` | runtime/lv_runtime.c:133-138 | A request determines its class. |
| `Allocator.TiledDisjoint` | runtime/lv_runtime.c:150-166 | Carved blocks never overlap. |
| `Allocator.CappedFits` | runtime/lv_runtime.c:133-166 | A block that exists is not of the capped class, so it is as large as requested. |
| `Allocator.Allocator.Alloc` | runtime/lv_runtime.c:150-166 | Returns a free block of the class, or a new one, at least as large as requested; fails if and only if the class has no free block and the rest of the region is too small; allocated and free blocks partition the carved part and the meter is the sum of allocated sizes. |
| `Allocator.Allocator.Release` | runtime/lv_runtime.c:182-191 | The block goes to the free list of its own class and the meter falls by its size. |
| `Allocator.FreeUsesItsClass` | runtime/lv_runtime.c:325-415 | For every kind of heap object, block handles and their bytes included, the size named at free is of the class used at allocation. |
| `Allocator.Allocator.Make` | runtime/lv_runtime.c:198-204 | A constructor reserves a block of its object's class; allocated blocks and live objects correspond one to one. |
| `Allocator.Allocator.Dispose` | runtime/lv_runtime.c:325-415 | A free, by the size found in the header, returns exactly the object's block. |
| `Allocator.NothingLive` | runtime/lv_runtime.c:150-191 | Once every object has been freed the meter reads zero. |
| `Utf8.EncodeShape` | runtime/lv_runtime.c:1562-1581 | Every encoded scalar obeys the lead-byte and second-byte table of section 4 of RFC 3629 and spells the scalar. |
| `Utf8.SpelledEncodes` | runtime/lv_runtime.c:1590-1620 | Conversely all bytes obeying that table are the encoding of a scalar (no overlong form, surrogate or value above U+10FFFF). |
| `Utf8.PrefixFree` | runtime/lv_runtime.c:1562-1581 | No encoding is a prefix of another. |
| `Utf8.DecodeAt` | runtime/lv_runtime.c:1590-1620 | On arbitrary bytes: the scalar whose encoding starts here, or else U+FFFD over the longest stretch that could have begun an encoding (one byte if none); never past the end; boundary flag exact. |
| `Utf8.ExactUnique` | runtime/lv_runtime.c:1590-1620 | That description determines the answer. |
| `Utf8.ExactFits` | runtime/lv_runtime.c:1590-1620 | Every step advances 1 to 4 bytes without passing the end and yields a scalar. |
| `Utf8.Chars` | runtime/lv_runtime.c:1650-1668 | The counting and the filling pass agree, and the array holds exactly the scalars read. |
| `Utf8.CharsRoundTrip` | runtime/lv_runtime.c:1650-1668 | Reading any concatenation of encoded scalars, after any prefix, gives back exactly those scalars. |
| `Utf8.BoundaryReads` | runtime/lv_runtime.c:1630-1645 | At the first byte of an encoded scalar, anywhere in a string, the step is that scalar. |
| `Utf8.InsideNoBoundary` | runtime/lv_runtime.c:1630-1645 | No offset inside an encoded scalar is a boundary. |
| `Utf8.ReencodeIff` | runtime/lv_runtime.c:1650-1668 | Decoding never yields a surrogate, and re-encoding restores the bytes if and only if they were well formed. |
| `Utf8.At` | runtime/lv_runtime.c:1630-1645 | Out of bounds, not a boundary, or the scalar at the offset: each exactly when it should be. |
| `Maps.CanonEqMeans` | runtime/lv_runtime.c:2122-2133 | Two floats are one key exactly when both are NaN, both are zero or their bits agree; canonical bits are canonical. |
| `Maps.KeyEqIsCanon` | runtime/lv_runtime.c:2138-2159 | Key equality is equality of canonical forms: content of strings, canonical floats, value structs field by field to any depth, identity of other objects. |
| `Maps.KeyEqMeans` | runtime/lv_runtime.c:2138-2159 | What keys are compared by, kind by kind; keys of different kinds are never equal. |
| `Maps.Equivalence` | runtime/lv_runtime.c:2138-2159 | Key equality is reflexive, symmetric and transitive on the keys of a heap. |
| `Maps.MapHeap.Get` | runtime/lv_runtime.c:2185-2192 | The scan returns the value of the first entry with an equal key. |
| `Maps.MapHeap.Upsert` | runtime/lv_runtime.c:2211-2245 | Updates in place only for a sole owner and a present key, and then keeps the stored key; otherwise the base map is unchanged and a fresh map holds the update with the new key; every other entry is as before. |
| `Maps.MapHeap.With` | runtime/lv_runtime.c:2258-2262 | The result is owned by the caller, and no other map changes. |
| `Maps.UpdateIsPut` | runtime/lv_runtime.c:2211-2245 | The in-place path, which keeps the old key, and the copying path, which stores the new one, are the same update up to key equality. |
| `Maps.LookupUpdated` | runtime/lv_runtime.c:2211-2245 | The lookup-after-update law for equal and different keys. |
| `Maps.RunMeans` | runtime/lv_runtime.c:2211-2245 | After any run of updates on either path keys are pairwise different, stand in the order of their first update, and each maps to the last value written for it. |
| `EventLoop.Loop.StartTimer` | runtime/lv_loop.c:243-257 | A timer gets a new id and joins the registry, which takes a reference. |
| `EventLoop.Loop.StopTimer` | runtime/lv_loop.c:259-267 | Stops the timer with this id and releases its reference; a finished or unknown id does nothing. |
| `EventLoop.Loop.StartWatch` | runtime/lv_loop.c:283-306 | A watch gets a new id in a retired or new slot. |
| `EventLoop.Loop.StopWatch` | runtime/lv_loop.c:308-316 | Stops the watch with this id only, and releases its reference once. |
| `EventLoop.Loop.StopFd` | runtime/lv_loop.c:325-331 | Stops every watch on the descriptor and no other. |
| `EventLoop.Loop.Sort` | runtime/lv_loop.c:500-506 | The in-place insertion sort permutes the due timers into (due, id) order. |
| `EventLoop.Loop.FireTimer` | runtime/lv_loop.c:508-530 | Runs the callback with the next tick; the timer's new due time, tick and state and the registries afterwards are exactly what the tick and the callback's calls make of them. A one-shot is off before and its reference is held until the callback returned; a repeating timer's reference survives its callback if and only if the callback does not cancel it. |
| `EventLoop.Loop.FireDue` | runtime/lv_loop.c:490-531 | A timer fires, once, in (due, id) order, if and only if it was due at the start and no callback of an earlier firing cancels it; no timer added meanwhile fires; the registries afterwards are exactly what the ticks and callbacks make of them. |
| `EventLoop.Loop.PollSet` | runtime/lv_loop.c:411-435 | The poll set names each registered watch once, in slot order. |
| `EventLoop.Loop.FireReady` | runtime/lv_loop.c:450-481 | A ready id fires, once, in order, with the descriptor and callback it was polled with, whatever slots were reused, if and only if no callback of an earlier ready id cancels it by id or by descriptor; the registries afterwards are exactly what the callbacks make of them. |
| `EventLoop.Loop.Step` | runtime/lv_loop.c:370-531 | A whole batch, exactly: which ready watches fire, in slot order, and then which timers, by due time and id, each if and only if it is ready or due and no callback that ran earlier in the batch cancels it, timers that watch callbacks just added included; with which arguments; what the registries hold afterwards; every watch on a dead descriptor loses its reference; the registry invariant holds again. |
| `EventLoop.ZeroDelayFires` | runtime/lv_loop.c:490-531 | A run: a timer without delay, added by a watch callback, fires in the same batch. |
| `EventLoop.SelfCancelReleases` | runtime/lv_loop.c:515-517 | A run: a repeating timer whose callback cancels it has lost its reference before the callback returns. |
| `EventLoop.Loop.Do` | runtime/lv_loop.c:243-331 | Each registry call does to the registries exactly what the specification function says. |
| `EventLoop.StartOneShot` | runtime/lv_loop.c:519-529 | Firing a one-shot keeps the invariant, with its reference outstanding. |
| `EventLoop.FinishOneShot` | runtime/lv_loop.c:519-529 | Releasing it after the callback restores the plain invariant: the reference goes exactly once. |
| `Reach.Walk.Mark` | src/backend/CGen.cpp:1155-1160 | A function is marked once; it lies in every closed set. |
| `Reach.Walk.Instantiate` | src/backend/CGen.cpp:1273-1296 | A newly instantiated class brings in all its members except the stream-protocol ones. |
| `Reach.Walk.MarkByName` | src/backend/CGen.cpp:1230-1241 | A name called by name brings in the methods of the classes that can be receivers. |
| `Reach.Walk.Sweep` | src/backend/CGen.cpp:1245-1260 | Reports progress if and only if it marked something; without progress the by-name rule is closed, in whatever order names are tried. |
| `Reach.Walk.Drain` | src/backend/CGen.cpp:1266-1307 | The worklist empties, and every marked function has been followed; functions without instructions change nothing else. |
| `Reach.Walk.Fixpoint` | src/backend/CGen.cpp:1311-1311 | Drain and sweep terminate in the least set closed under the call, constructor, member, closure and by-name rules. |
| `Reach.Walk.Uses` | src/backend/CGen.cpp:1318-1328 | Collections or ranges are used exactly if some reachable function has such an instruction. |
| `Reach.Walk.Seed` | src/backend/CGen.cpp:1333-1341 | The methods written in a collection class become roots. |
| `Reach.Walk.Generate` | src/backend/CGen.cpp:1150-1343 | The result is the least closed set over the roots and the collection seeds that the first least set calls for; the classes the two lists give the dispatcher are exactly the instantiated ones and the value classes that answer to a name called by name (the collection classes come from the seeds); the closure list names each function that live code makes a closure of, once. |
| `Reach.OrderFree` | src/backend/CGen.cpp:1266-1343 | Two walks of one module, in whatever order they take work and names, find the same functions, classes and names and give the dispatcher the same classes. |
| `Reach.ClosuresAre` | src/backend/CGen.cpp:1300-1304 | The least closed set lists exactly the functions of which live code makes closures. |
| `Reach.TwoStepWalk` | src/backend/CGen.cpp:1245-1260 | A module on which the list of by-name classes does depend on the order of two instructions, though the class is live either way. |
| `CmdLine.BuildCmdline` | runtime/lv_plat_win32.c:524-562 | The built string is the quoted arguments joined by spaces. |
| `CmdLine.PushEscaped` | runtime/lv_plat_win32.c:539-555 | The escaping loop doubles a run of backslashes before a quote or the end and leaves other runs alone. |
| `CmdLine.PlainUntouched` | runtime/lv_plat_win32.c:530-537 | An argument is written as it is exactly when it is not empty and holds no blank, tab, line feed, vertical tab or quote. |
| `CmdLine.EscapedRoundTrip` | runtime/lv_plat_win32.c:539-555 | Reading escaped text up to its closing quote gives the text back. |
| `CmdLine.QuotedRoundTrip` | runtime/lv_plat_win32.c:530-556 | Any single argument, empty ones included, is read back followed by what came after it. |
| `CmdLine.RoundTrip` | runtime/lv_plat_win32.c:500-562 | For every argument list, splitting the built command line by the stated backslash and quote rules returns the list, with or without the doubled-quote convention. |
| `CmdLine.NameHarmlessIff` | runtime/lv_plat_win32.c:500-562 | Where the program name is split off by its own rule, the other arguments come back for every argument list with that name if and only if the rule reads the written name to its end. |
| `CmdLine.PlainNameEnds` | runtime/lv_plat_win32.c:500-562 | That is so for every name without a quote character. |
| `CmdLine.QuoteInNameMisread` | runtime/lv_plat_win32.c:500-562 | It is not so for a name made of a quote and a blank. |

## Left out

- Arena blocks (negative counts) and the arena allocator: ARC ignores them, so they only add a no-op case.
- Arc.Heap.RecursiveFree: the per-kind walks (object slots and list, array elements, map entries) are one walk over a slot list; closure captures and map keys are assumed never to hold value structs, as the code's own walk assumes. A slot counts as dropped before its reference is released.
- Arrays.ArrayHeap.Set: elements are values here; which positions have a count or a struct of their own is tracked, the addresses are not (ArcStores.SharedStoreIff has them). A struct overwritten in place leaks, as Arc.Heap.SetSlot states.
- Arrays.ArrayHeap.Append: as for Set, ownership is tracked per position and not per address.
- Arc.Heap.WeakStore: a new proxy is not placed at the address of a reclaimed struct that left its own proxy behind.
- Maps.MapHeap.Upsert: states contents, not retains and deep copies of values; value structs are compared by content.
- Allocator.Allocator.Alloc: zeroing and poisoning of block bytes, and the lazy initialisation of the region, are not represented.
- SeenTable.Table.Put: is asked for keys not yet present, as both walks do (they look a key up first); the code would enter a key a second time. Growth stops short of 2^64 slots.
- Sched.SettleWins: for a join the ids must have been issued already; an id issued later can make a join unsettled again.
- Channel.StepKeeps: steps interleave sequentially consistently at the acquire/release accesses; weaker hardware orders are not modelled. A single producer and a single consumer are assumed, as the code does. Eventfd writes do not overflow.
- Workers.ReapedOnceAfterPublish: what a program does after a torn start (Workers.BrokenIff) is undefined and not modelled. The global-promise check before a spawn, the fixed error texts and the worker's inner scheduler are left out; values are carried as they are, since Transfer shows how they are copied, and a failure message can always be flattened.
- SchedLoop.SchedRun: follows a finite plan of what tasks and loop batches do and reports a program that outlives it as unfinished. Programs that never stop are covered by the lemmas over runs.
- Sched.CancelKeeps: the 16-bit width of the shield counter and the diagnostic reports on uncancellable and stuck tasks are left out; a shield below zero, an assertion failure in the code, leaves the state unchanged.
- Sched.CountersBalance: scheduler teardown, stack mapping, guard pages and stack-use statistics are left out.
- TaskQueues.Queues.DrainAll: moves the head link at every step where the code clears both ends after the walk.
- EventLoop.Loop.FireReady: the reference the loop itself takes around a watch callback is not counted.
- EventLoop.Loop.Step: the poll timeout, TLS want and pending directions and clock overflow are left out; poll results are arbitrary. Callbacks do not re-enter the loop. Dispatch as tasks is the case of callbacks that do nothing during the batch.
- Reach.Walk.Generate: the walk over base classes that collects members is given as a list per class; code emission is not modelled. Indices of lowered declarations are assumed valid.
- CmdLine.BuildCmdline: buffer growth and allocation failure are left out.
- Flatten.Flattener.Flatten: reports the reason and class of a refusal, not the text of the message.
- Stringification, float arithmetic and formatting, strings other than UTF-8 access, blocks, sockets, files, processes, TLS: thin wrappers or library semantics.
- The other platform layers, the wasm runtime, the other back ends and the front end of the compiler.
