# The HDF driver framework, modelled and proved

HDF is the driver framework of OpenHarmony. This project models the parts of it that carry state over time, and proves
what they promise.

- Serialization: `Bytes`, `SbufFormat`, `Sbuf`, `SbufChannel` model the raw sbuf. A class updates the byte array and the
  two cursors in place; over any interleaving it is shown to be a first-in first-out queue of typed items.
- Heap structures: `SList` (list and iterator), `DList` (ring), `HashTable` and `HashMap` (chained table with relinking)
  work on heap nodes with explicit links and are proved against sequences and finite maps.
- Concurrency: `MessageQueue`, `Looper` and `TaskQueue`. The calls under the lock are methods on the heap list; the threads
  are step systems with a mutex, a counting semaphore and a clock, and the results hold in every interleaving.
- State machines: `PowerToken`, `PowerManager` (the task queue specialised to power requests), `Registry`, `Observer`, and
  `ServiceList`, which joins the registry to the sbuf. `Names` has the hash of service names.
- Boot and power order: `Boot` (host and device lists), `Load` (two-phase loading), `PowerOrder` (suspend and resume),
  `Startup` (hosts started, attached and filled in the order of the lists, and the order of resume that follows).
- `LooperRuns`, `TaskQueueRuns`, `MapRuns`, `RegistryRuns`, `ObserverRuns`, `PowerRuns`, `BootLists` and `BootRuns` say what
  whole runs come to, told from the operations alone; `SbufSizes` gives the sizes and byte patterns of the sbuf in numbers.
- `Seqs` and `Maps` have what these say about sequences and sums.

Memory, callbacks, drivers and thread scheduling are inputs: an operation that may allocate takes a flag for each allocation,
a callback is a function of whom it is called on, and a run is any sequence of enabled steps.

Where the code does something other than it promises, the code is modelled, the exact condition is proved, and an input or
a run is given at which it fails:

- `DList.Merge`: an empty source.
- `Looper.DelayedMessageStranded`: a delay is not honoured without a further post.
- `Sbuf.GrowthSuffices`, `Sbuf.NoRoomAfterGrowth`: the branch marked as never reached is reached for padded sizes from
  2^32 - 256.
- `Sbuf.SbufRaw.ReadBuffer`, `Sbuf.CorruptHeaders`: headers -3 to -1.
- `ServiceList.GetDeviceServiceNameByClass`, `ServiceList.LongNameEndsListing`: a long name cuts the listing short.
- `Registry.ClassChangeBreaksView`, `Registry.ClassChangeRun`: updates that change the class.
- `Observer.NewcomerToldWhen`, `Observer.PrivateDependsOnOrder`: private services.
- `Boot.DevHostServiceClnt.GetDeviceNodeList`, `Boot.FullDeviceRefused`: 255 nodes.
- `SList.InsertPosition`, `SList.RemoveThenInsert`: insertion after HdfSListRemove.
- `HashMap.HdfMap.Set`, `HashMap.NullBucketsReached`: no memory for the first buckets.
- `HashMap.SeenWhen`: 2^32 nodes, whose count is 0.
- `TaskQueue.DoneExactlyWhenTasksEnd`, `TaskQueue.TaskHangs`: a task that enqueues on its own queue; `TaskQueue.FailedForGood`:
  a thread that could not be started.
- `Load.LoadLeftDriver`: a host that has not attached. The installer of this repository attaches a host within its start, so
  that this concerns an installer that attaches later.

`dafny verify dfyconfig.toml` checks the whole project.

## Model

| member | source | states |
|---|---|---|
| `Looper.NoLostWakeUp` | utils/src/osal_msg_queue.c:31-77 | over all interleavings of producers and the looper thread: if the looper waits on a zero semaphore, every undelayed message still in the list has a producer whose post is outstanding |
| `Looper.DispatchedBeforeStop` | utils/src/hdf_message_looper.c:13-43 | an undelayed message whose enqueue had finished when the enqueue of the stop message began is dispatched before the loop exits |
| `Looper.RecycledExactlyOnce` | utils/src/hdf_message_looper.c:13-30 | no message is ever recycled twice; after the loop has exited every message ever inserted has been recycled |
| `Looper.RecycledAfterDispatch` | utils/src/hdf_message_looper.c:13-30 | a message recycled outside the final flush was given to its handler before |
| `Looper.QueueAlwaysOrdered` | utils/src/osal_msg_queue.c:31-55 | in every reachable state, along the list the time of the enqueue plus the delay never falls, and messages with the same sum are in the order of insertion |
| `Looper.NextTakesHead` | utils/src/osal_msg_queue.c:57-77 | a non-null Next is the head of the list, and the time of its enqueue plus its delay is at most the sampled time; null means that for every listed message this sum is later |
| `LooperRuns.SentBy` | utils/src/osal_msg_queue.c:31-55 | every message in the list's history was put there by a call: its letter is the one of the call, its time the sum of the clock ticks before the call, and what had been sent to the end before is what the steps before the call say |
| `LooperRuns.ListedByDueTime` | utils/src/osal_msg_queue.c:38-52 | told from the steps: of two listed messages the one whose call time plus delay is smaller comes first, and in a tie the one inserted first |
| `LooperRuns.TakenWhenDue` | utils/src/osal_msg_queue.c:57-77 | told from the steps: a message is taken as the head of the list, at a look that goes by the last sample of the clock, and its call time plus its delay is at most that sample |
| `LooperRuns.CleanEnd` | utils/src/hdf_message_looper.c:13-43 | told from the steps: after the exit the last message taken is a stop message, and every undelayed message with a target that was sent to the end before the stop message's call began has been dispatched |
| `LooperRuns.DispatchedExactly` | utils/src/hdf_message_looper.c:13-30 | no message is taken twice, and the dispatched ones are exactly those handed over that have a target and are no stop message, in the order of taking |
| `LooperRuns.StopEndsLoop` | utils/src/hdf_message_looper.c:13-43 | when a stop message was sent and the steps of the queue have run out, the loop has exited |
| `LooperRuns.CallsCarriedThrough` | utils/src/osal_msg_queue.c:31-55 | a sender that is not in a call has put one message into the list and posted once for each of its calls |
| `Looper.DelayedMessageStranded` | utils/src/osal_msg_queue.c:57-77 | for every positive delay there is a run in which the looper blocks for good although the only message is in the list and due: the documented delay is not honoured without a further post |
| `Looper.BlockedUntilPost` | utils/src/osal_msg_queue.c:57-77 | a blocked looper stays blocked, whatever time passes, until some producer posts |
| `Looper.Reachable` | utils/src/hdf_message_looper.c:13-43 | the invariants behind the results on the looper hold in every reachable state |
| `MessageQueue.Enqueue` | utils/src/osal_msg_queue.c:38-52 | on the heap list, the message goes in front of the first message with a later stamp, otherwise to the end |
| `MessageQueue.EnqueueAt` | utils/src/osal_msg_queue.c:31-55 | on the heap list, a message with a delay is stamped with delay plus time, and goes behind every message with a stamp not later and in front of the first later one |
| `MessageQueue.Next` | utils/src/osal_msg_queue.c:57-77 | on the heap list, the first message due at the sampled time is taken out and returned; null and an unchanged list if there is none |
| `MessageQueue.EnqueueKeepsOrder` | utils/src/osal_msg_queue.c:38-52 | inserting before the first later stamp keeps an ascending list ascending |
| `MessageQueue.DueIsHead` | utils/src/osal_msg_queue.c:57-77 | in an ascending list the first due message is the head or does not exist, and it does not exist exactly when nothing is due |
| `MessageQueue.FlushQueue` | utils/src/osal_msg_queue.c:79-90 | every listed message is recycled once, in list order, and the list is empty |
| `Looper.BlockedMessages` | utils/src/osal_msg_queue.c:57-77 | when the looper waits on a zero semaphore, a listed message has a producer that has yet to post, or its enqueue had begun at the last sampled time and it was not due then |
| `Looper.IdleMeansDispatched` | utils/src/hdf_message_looper.c:13-43 | when the looper waits on a zero semaphore and no enqueue is under way, every undelayed message with a target has been dispatched |
| `Looper.NeverStuck` | utils/src/hdf_message_looper.c:13-43 | until the loop has exited, and unless the looper is blocked with no enqueue under way, a step other than time and new enqueues can be taken |
| `Looper.WorkShrinks` | utils/src/hdf_message_looper.c:13-43 | every step other than time and new enqueues lowers a measure of the work left |
| `Looper.UndelayedGetDispatched` | utils/src/hdf_message_looper.c:13-43 | steps other than time and new enqueues run out, and when they do the loop has exited or every undelayed message with a target has been dispatched |
| `TaskQueue.TasksInOrderOnce` | utils/src/hdf_task_queue.c:119-203 | in every reachable state before Destroy: executed tasks, the one running and the queued ones, in that order, are the tasks inserted; at most one worker was started |
| `TaskQueue.NoLostWakeUp` | utils/src/hdf_task_queue.c:103-203 | a worker that waits on a zero semaphore while tasks are queued has a producer whose post is outstanding |
| `TaskQueue.WorldIsFold` | utils/src/hdf_task_queue.c:164-203 | in every interleaving the world is the fold of the changes in their order, and the tasks among them are the executed ones |
| `TaskQueueRuns.TaskOfCall` | utils/src/hdf_task_queue.c:119-147 | the n-th task in the queue's history is the task of the call that made the n-th insertion |
| `TaskQueueRuns.NothingForgotten` | utils/src/hdf_task_queue.c:103-203 | there are as many tasks as insertions, the semaphore has what was posted and not waited for, the direct changes are those from outside in order, and the worker runs or has failed according to the first attempt to start it |
| `TaskQueueRuns.CallsCarriedThrough` | utils/src/hdf_task_queue.c:119-147 | a producer that is not in a call has inserted one task and posted once for each of its calls |
| `TaskQueue.NeverStuck` | utils/src/hdf_task_queue.c:103-203 | as long as a task is unexecuted or a producer is under way, the worker is not waiting in a task for its own mutex and its thread did not fail to start, some step of the queue can be taken; after such a failure the same for producers |
| `TaskQueue.WorkShrinks` | utils/src/hdf_task_queue.c:103-203 | every step of the queue lowers a measure of the work left |
| `TaskQueue.EverythingGetsDone` | utils/src/hdf_task_queue.c:119-203 | the steps of the queue run out without new enqueues, and when they do every inserted task has been executed in order, unless one enqueues on its own queue or the thread of the worker could not be started |
| `TaskQueue.QuietMeansDone` | utils/src/hdf_task_queue.c:119-203 | when only new enqueues and outside changes are possible every inserted task has been executed, in order, if and only if the worker does not hang and its thread did not fail to start |
| `TaskQueue.DoneExactlyWhenTasksEnd` | utils/src/hdf_task_queue.c:164-203 | without outside changes: all inserted tasks get executed if and only if the thread of the worker did not fail to start and each task, run after those before it, comes to an end |
| `TaskQueue.HungForGood` | utils/src/hdf_task_queue.c:180-191 | a task that enqueues on its own queue while the worker holds the mutex stops the queue for good: nothing is executed or inserted any more |
| `TaskQueue.TaskHangs` | utils/src/hdf_task_queue.c:164-203 | for every world and every task that enqueues on its own queue there is a run in which the worker hangs in it |
| `TaskQueue.FailedForGood` | utils/src/hdf_task_queue.c:103-117 | after a failed start of the thread no task is ever executed, since the flag of the running thread stays set |
| `HashMap.RunFromInit` | utils/src/hdf_map.c:119-263 | every run of set, get, erase and delete from MapInit gives exactly the answers of a finite map from keys to byte strings, whatever allocations fail, up to the first set that finds no buckets and gets memory for its node only, or that makes the keys 2^32; at the end the node count is the number of keys modulo 2^32, and if every resize got memory there are as many buckets as keys, or 2^31 |
| `MapRuns.AnswerIsReply` | utils/src/hdf_map.c:119-263 | what the finite map answers is what the earlier operations on each key say, cases written out: sizes, known key, memory for the node, buckets |
| `MapRuns.RunAnswers` | utils/src/hdf_map.c:119-263 | hence so is every answer of a run from MapInit |
| `MapRuns.SetThenGet` | utils/src/hdf_map.c:119-192 | over any run: a set of accepted sizes succeeds if and only if the key has a value of the same size, or is new with memory for its node and buckets there or allocated; the next get of the key answers the value set, or the old one after a failed set |
| `HashMap.NullBucketsReached` | utils/src/hdf_map.c:119-167 | the null dereference is reached: by the first set on a new map, with memory for its node only |
| `HashMap.HdfMap.constructor` | utils/src/hdf_map.c:228-237 | an initialized map is empty and has no buckets |
| `HashMap.HdfMap.Get` | utils/src/hdf_map.c:169-192 | the last value stored under the key, or nothing; nothing for any key once the 32-bit node count has gone round to 0 |
| `HashMap.SeenWhen` | utils/src/hdf_map.c:169-192 | every key is seen with its value if and only if the map is empty or the number of its nodes is no multiple of 2^32 |
| `HashMap.HdfMap.Set` | utils/src/hdf_map.c:119-167 | the status for every case, written out: forbidden sizes, a known key with a value of the same or another size, a new key with or without memory for its node and buckets, with the null dereference exactly when there are no buckets, none can be allocated and the node can; the new finite map; the bucket count, four times as many exactly when there are no more than nodes and memory is available; with no failed allocation as many buckets as nodes, or 2^31 |
| `HashMap.HdfMap.Enlarge` | utils/src/hdf_map.c:152-157 | enlarging keeps the contents and, when memory is available, leaves room for one more node or 2^31 buckets, beyond which the size asked for is cut to 0 and nothing is allocated; there are buckets afterwards unless there were none and none could be allocated |
| `HashMap.HdfMap.Erase` | utils/src/hdf_map.c:194-226 | exactly the key disappears, if it is seen; which status is returned when it is not |
| `HashMap.HdfMap.Delete` | utils/src/hdf_map.c:239-263 | every node of every chain is freed, once, and the map is as after initialization |
| `HashMap.FreeChains` | utils/src/hdf_map.c:249-256 | the two loops free the chains node by node; no node hangs in two places |
| `HashMap.Resize` | utils/src/hdf_map.c:57-92 | on the heap: all nodes of the old chains hang in the new buckets, with the same keys and values |
| `HashMap.Relink` | utils/src/hdf_map.c:57-92 | the relinking loops compute the rehashed table, and no node is invented |
| `HashMap.MoveBucket` | utils/src/hdf_map.c:73-86 | the inner loop moves one chain node by node into the new buckets and leaves values alone |
| `HashMap.AddNode` | utils/src/hdf_map.c:50-55 | a node goes to the front of the chain of its own index and nothing else changes |
| `HashMap.UnlinkNode` | utils/src/hdf_map.c:207-221 | taking a node out of its chain removes exactly its entry |
| `HashMap.SizeFacts` | utils/src/hdf_map.c:45-55 | the bucket count is 0 or 8*4^j and the node count is the sum of the chain lengths |
| `HashTable.HashIdxIsMod` | utils/src/hdf_map.c:45-48 | for every bucket count that occurs the masked hash is the hash modulo the count, hence in range |
| `HashTable.HashIsNumber` | utils/src/hdf_map.c:33-43 | the hash is the key read as a number to the base 131, modulo 2^31 |
| `HashTable.EnlargedIsBucketSize` | utils/src/hdf_map.c:152-157 | the size asked for is 8 at first and four times the old one after, again 8*4^j and larger, within 32 bits, except that after 2^31 it is 0 |
| `HashTable.RehashKeepsEntries` | utils/src/hdf_map.c:57-92 | resizing loses, duplicates and alters no entry, and every entry sits in the chain of its own index |
| `HashTable.RehashKeepsLookup` | utils/src/hdf_map.c:57-92 | after resizing every key is found with the value it had |
| `HashTable.LookupIsEntry` | utils/src/hdf_map.c:169-192 | looking into the one chain of its index finds a key exactly with the value stored anywhere in the table |
| `HashTable.LookupAgrees` | utils/src/hdf_map.c:169-192 | a lookup in the table is a lookup in the finite map it represents |
| `HashTable.BitAndMask` | utils/src/hdf_map.c:45-48 | masking with 2^k - 1 is the remainder modulo 2^k |
| `SbufChannel.Exchange` | utils/src/hdf_sbuf_impl_raw.c:144-416 | any interleaving of writes and type-matching reads on an obtained buffer, across every growth: items come back in order, a write succeeds exactly when its item fits at the capacity and position that the actions before it lead to, a read exactly when an item is outstanding, and when everything has been read the cursors meet |
| `SbufChannel.ReplayIsFifo` | utils/src/hdf_sbuf_impl_raw.c:183-246 | items received followed by items outstanding are the items whose write succeeded, in order |
| `SbufChannel.Send` | utils/src/hdf_sbuf_impl_raw.c:248-317 | succeeds exactly when the item fits; then it is appended to the outstanding ones, otherwise they stay; where the buffer stands afterwards |
| `SbufChannel.Receive` | utils/src/hdf_sbuf_impl_raw.c:319-416 | a read of the matching type returns the oldest outstanding item and removes it |
| `SbufChannel.AmpleRun` | utils/src/hdf_sbuf_impl_raw.c:144-221 | with memory at hand every write of a run succeeds if twice the padded sizes written stay 520 bytes below 512 KB |
| `SbufChannel.AmpleExchange` | utils/src/hdf_sbuf_impl_raw.c:144-416 | in such a run the items received and outstanding are all items written, in order |
| `SbufFormat.ParseEncoded` | utils/src/hdf_sbuf_impl_raw.c:319-416 | every encoded integer, buffer, null buffer and string of at most 32766 bytes is read back as it was, whatever the padding bytes and whatever follows |
| `SbufSizes.NumLayout` | utils/src/hdf_sbuf_impl_raw.c:248-286 | an integer is stored in two's complement, the low byte first, padded to four bytes |
| `SbufSizes.PayloadLayout` | utils/src/hdf_sbuf_impl_raw.c:288-317 | a buffer or string is stored as four bytes of length, the low one first, then its bytes, padded; a string with its terminator |
| `SbufSizes.ReadsBuffer` | utils/src/hdf_sbuf_impl_raw.c:359-389 | in numbers: when a buffer is read, and which bytes |
| `SbufSizes.ReadsString` | utils/src/hdf_sbuf_impl_raw.c:391-416 | in numbers: when a string is read, and which bytes: up to the first zero and the last byte but one at most |
| `SbufSizes.SendableIs` | utils/src/hdf_sbuf_impl_raw.c:248-317 | what the results on the channel cover: all integers, buffers below 2^31 bytes, strings up to 32766 bytes |
| `SbufFormat.ParseAllHeld` | utils/src/hdf_sbuf_impl_raw.c:319-416 | reading all items with their types gives them all back and leaves nothing |
| `SbufFormat.HoldsSnoc` | utils/src/hdf_sbuf_impl_raw.c:183-221 | appending an encoded item to bytes that hold some items makes them hold one more |
| `Sbuf.GrowthSuffices` | utils/src/hdf_sbuf_impl_raw.c:144-221 | an accepted growth makes room for the write if and only if the padded size plus 256 fits in 32 bits; always below 2^31 bytes |
| `SbufSizes.RoomWhen` | utils/src/hdf_sbuf_impl_raw.c:144-221 | in numbers: n bytes fit if and only if their padded size is left, or memory is available and capacity plus 256, plus the padded size if over 256, is at most 512 KB |
| `SbufSizes.CapacityIs` | utils/src/hdf_sbuf_impl_raw.c:144-221 | in numbers: the capacity after a write of less than 2^31 bytes |
| `SbufSizes.BufferFitsWhen` | utils/src/hdf_sbuf_impl_raw.c:288-307 | in numbers: a length-prefixed write fits if and only if its header does and then, at the capacity left, its bytes do |
| `Sbuf.NoRoomAfterGrowth` | utils/src/hdf_sbuf_impl_raw.c:144-221 | a write of 2^32 - 256 bytes has its growth accepted and less room than it needs afterwards, whatever the capacity |
| `Sbuf.CorruptHeaders` | utils/src/hdf_sbuf_impl_raw.c:359-389 | the three headers on which ReadBuffer succeeds though they are negative |
| `Sbuf.AmpleRoomFits` | utils/src/hdf_sbuf_impl_raw.c:144-221 | a sufficient condition, in terms of capacity and position, for a length-prefixed write to succeed |
| `Sbuf.SbufObtainRaw` | utils/src/hdf_sbuf_impl_raw.c:509-543 | null exactly for a capacity over 512 KB or without memory; otherwise a new empty buffer of that capacity |
| `Sbuf.SbufBindRaw` | utils/src/hdf_sbuf_impl_raw.c:545-569 | null exactly for no memory, no bytes or an unaligned base; otherwise a buffer with all of the given memory unread |
| `Sbuf.SbufRaw.Grow` | utils/src/hdf_sbuf_impl_raw.c:144-181 | when growth happens, the new capacity, and that cursors and unread bytes survive; nothing changes when it does not |
| `Sbuf.SbufRaw.Write` | utils/src/hdf_sbuf_impl_raw.c:183-221 | when a write succeeds; success appends the bytes and padding, failure changes neither cursor nor unread bytes; the capacity afterwards |
| `Sbuf.SbufRaw.Read` | utils/src/hdf_sbuf_impl_raw.c:223-246 | a read returns the first unread bytes and drops them with their padding, or changes nothing |
| `Sbuf.SbufRaw.WriteRollback` | utils/src/hdf_sbuf_impl_raw.c:67-82 | when it refuses; otherwise the write cursor goes back by the padded size, and unread bytes of that size are unwritten |
| `Sbuf.SbufRaw.ReadRollback` | utils/src/hdf_sbuf_impl_raw.c:84-99 | when it refuses; otherwise the read cursor goes back by the padded size |
| `Sbuf.SbufRaw.WriteNum` | utils/src/hdf_sbuf_impl_raw.c:248-286 | as Write, for the little-endian two's complement pattern of an integer of 1, 2, 4 or 8 bytes |
| `Sbuf.SbufRaw.ReadNum` | utils/src/hdf_sbuf_impl_raw.c:319-357 | the integer at the front of the unread bytes, or failure with nothing changed |
| `Sbuf.SbufRaw.WriteBuffer` | utils/src/hdf_sbuf_impl_raw.c:288-307 | exactly when header and body fit; success appends both, failure leaves cursors and unread bytes although the header had been written |
| `Sbuf.SbufRaw.WriteNullBuffer` | utils/src/hdf_sbuf_impl_raw.c:288-307 | a null buffer is a zero header |
| `Sbuf.SbufRaw.WriteString` | utils/src/hdf_sbuf_impl_raw.c:309-317 | a string is written with its terminator, a null string as a null buffer, with the length cut to 32 bits; same conditions and atomicity as WriteBuffer |
| `Sbuf.SbufRaw.ReadBuffer` | utils/src/hdf_sbuf_impl_raw.c:359-389 | where the buffer lies and its size, with the bytes; failure changes nothing; besides well-formed headers it succeeds on -3 to -1 and only on those, and then reports the header as an unsigned size |
| `Sbuf.SbufRaw.ReadString` | utils/src/hdf_sbuf_impl_raw.c:391-416 | the string up to its first zero; a non-positive length consumes its header, any other failure changes nothing |
| `Sbuf.SbufRaw.Flush` | utils/src/hdf_sbuf_impl_raw.c:123-130 | nothing is left and writing starts at 0 |
| `Sbuf.SbufRaw.SetDataSize` | utils/src/hdf_sbuf_impl_raw.c:111-121 | sets both cursors if the size is within the capacity, otherwise nothing |
| `Sbuf.SbufRaw.TransDataOwnership` | utils/src/hdf_sbuf_impl_raw.c:466-474 | the buffer is no longer bound |
| `Sbuf.SbufRaw.Copy` | utils/src/hdf_sbuf_impl_raw.c:418-439 | a copy is a separate buffer in which everything ever written is unread again; exactly when it is made |
| `Sbuf.SbufRaw.Move` | utils/src/hdf_sbuf_impl_raw.c:441-464 | the data goes to the new buffer with everything unread again and the old one is left without data; a bound buffer is not moved |
| `ServiceList.GetDeviceServiceNameByClass` | core/common/src/devmgr_service_start.c:25-34 | reading strings from the reply until the first null gives the names of the class whose write succeeded, in registration order, up to the first one that is too long; these are exactly the names registered under the class if and only if all of them fit, the capacity folded over the writes, and each is at most 32766 bytes long |
| `ServiceList.ListService` | core/manager/src/devsvc_manager.c:210-226 | the reply holds the names of the class less those whose write failed; which writes fail follows from the capacity of the reply, as it grows, and from the memory available |
| `ServiceList.ListedAt` | core/manager/src/devsvc_manager.c:210-226 | a service of the class is listed behind those of the class registered before it, and there are as many names as services of the class |
| `ServiceList.RoomyMeansAllFit` | core/manager/src/devsvc_manager.c:210-226 | all names fit when the space needed is at hand, or is at most half of 512 KB less 520 bytes and memory is available |
| `ServiceList.LongNameEndsListing` | utils/src/hdf_sbuf_impl_raw.c:391-416 | a name of more than 32766 bytes hides itself and all names after it |
| `ServiceList.ReadBack` | utils/src/hdf_sbuf_impl_raw.c:391-416 | reading such a reply gives exactly its readable names, whether or not the final null string could be written |
| `ServiceList.StringsBack` | utils/src/hdf_sbuf_impl_raw.c:391-416 | names followed by no further string are read back exactly |
| `ServiceList.ReadNames` | utils/src/hdf_sbuf_impl_raw.c:391-416 | a reader that stops at the first null gets what the bytes say |
| `SList.IteratorRun` | utils/src/hdf_slist.c:192-267 | over any run of next, insert and remove where a node is removed only after Next returned it: the originals are returned once each in order, inserted nodes never, and the list is left with the surviving originals in order and exactly the inserted nodes besides |
| `SList.RunOnHeap` | utils/src/hdf_slist.c:117-267 | on the heap, any run of one iterator, removals by HdfSListRemove included, returns the nodes and leaves the list that the run on cursors gives, hence what IteratorRun says |
| `SList.RemoveCurrent` | utils/src/hdf_slist.c:117-130 | HdfSListRemove of the node returned last takes it out of the list and leaves the iterator where its next step carries on |
| `SList.InsertPosition` | utils/src/hdf_slist.c:258-267 | an insertion puts the node before the current one and changes nothing else if and only if the current node was not taken out by HdfSListRemove; otherwise it brings that node back |
| `SList.RemoveThenInsert` | utils/src/hdf_slist.c:117-267 | on the heap, an insertion after HdfSListRemove of the current node leaves the removed node listed |
| `SList.IsListUnique` | utils/src/hdf_slist.c:14-24 | the heap determines the node sequence of a list |
| `SList.Add` | utils/src/hdf_slist.c:56-63 | the node becomes the first |
| `SList.AddTail` | utils/src/hdf_slist.c:65-80 | the node becomes the last; a node already listed changes nothing |
| `SList.AddOrder` | utils/src/hdf_slist.c:82-115 | refused exactly for a node already listed; on a sorted list under a total preorder the node goes before the first node not smaller |
| `SList.InsertKeepsSorted` | utils/src/hdf_slist.c:82-115 | that position keeps the list sorted |
| `SList.SkippedAreSmaller` | utils/src/hdf_slist.c:95-112 | the test of two neighbours in the loop skips only smaller nodes |
| `SList.Remove` | utils/src/hdf_slist.c:117-130 | exactly the node is taken out; a node not listed changes nothing |
| `SList.Flush` | utils/src/hdf_slist.c:132-147 | each node is handed to the deleter exactly once, in order, and the list is empty |
| `SList.Count` | utils/src/hdf_slist.c:149-161 | terminates with the length |
| `SList.Iterator.constructor` | utils/src/hdf_slist.c:192-205 | the iterator stands before the first node |
| `SList.Iterator.HasNext` | utils/src/hdf_slist.c:207-224 | true exactly when there are nodes still to return, also after removals of the current node |
| `SList.Iterator.Next` | utils/src/hdf_slist.c:226-245 | returns the first node not yet returned, or null, and leaves the list alone |
| `SList.Iterator.Remove` | utils/src/hdf_slist.c:247-256 | the node returned last is taken out and the iteration goes on behind it |
| `SList.Iterator.Insert` | utils/src/hdf_slist.c:258-267 | the node is linked in at the cursor and the iteration goes on as before |
| `DList.InsertHead` | include/utils/hdf_dlist.h:99-106 | prepends on the sequence of the ring |
| `DList.InsertTail` | include/utils/hdf_dlist.h:117-124 | appends on the sequence of the ring |
| `DList.Remove` | include/utils/hdf_dlist.h:81-88 | deletes from the sequence of the ring and clears the links of the node |
| `DList.Merge` | include/utils/hdf_dlist.h:135-144 | the rings are concatenated if and only if the source is not empty; with an empty source the target is the head of no ring at all afterwards |
| `DList.GetCount` | include/utils/hdf_dlist.h:147-156 | terminates with the length of the sequence |
| `DList.HeadInit` | include/utils/hdf_dlist.h:56-60 | an empty ring |
| `DList.IsEmpty` | include/utils/hdf_dlist.h:69-72 | true exactly for the empty sequence |
| `DList.NextPrevInverse` | include/utils/hdf_dlist.h:81-124 | in a ring next and prev undo each other at every node and at the head |
| `DList.RingUnique` | include/utils/hdf_dlist.h:147-156 | the heap determines the sequence of a ring |
| `DList.Move` | include/utils/hdf_dlist.h:81-124 | moving a node from one ring to the end of another leaves a third ring untouched |
| `Registry.ViewsAlwaysAgree` | core/manager/src/devsvc_manager.c:42-251 | over any run of add, update with unchanged class, remove and register, the services each listener still registered has seen start and not stop are those registered with a class that meets its mask, whenever it registered; keys stay unique |
| `RegistryRuns.RegistryIs` | core/manager/src/devsvc_manager.c:85-192 | after any run: under every key the object, class and information that the operations since its first addition give, and services in the order in which they were first added |
| `RegistryRuns.ObjectIs` | core/manager/src/devsvc_manager.c:85-207 | after any run GetObject gives the object last added or updated since the last removal, or none |
| `RegistryRuns.ListenerHears` | core/manager/src/devsvc_manager.c:42-83 | over any run, class changes included, what a listener hears is what the operations say: at registration each visible service, then every start, change and stop of one, with name, class and information, until it answers with a failure and is dropped |
| `RegistryRuns.MeetsIsCommonBit` | core/manager/src/devsvc_manager.c:54-56 | a mask meets a class exactly when some bit is set in both |
| `Names.KeyIsNumber` | utils/src/hdf_cstring.c:16-24 | the key of a name is the name read as a number to the base 131, modulo 2^31 |
| `Registry.ClassChangeBreaksView` | core/manager/src/devsvc_manager.c:123-152 | an update that changes the class keeps a listener's view right if and only if its mask meets both the old and the new class or neither |
| `Registry.ClassChangeRun` | core/manager/src/devsvc_manager.c:123-152 | such a run: a listener for class 1 sees a service start, its class changes to 2, and the view is wrong |
| `Registry.DevSvcManager.Search` | core/manager/src/devsvc_manager.c:21-40 | the first service with the key |
| `Registry.DevSvcManager.Notify` | core/manager/src/devsvc_manager.c:42-63 | exactly the listeners whose mask meets the class are notified, in order, and those that fail are dropped while the traversal goes on |
| `Registry.DevSvcManager.AddService` | core/manager/src/devsvc_manager.c:85-121 | the new state and the code for a known service, a new one, a null service and each failed allocation; on success GetObject gives the object, and what it gave before for other keys |
| `Registry.DevSvcManager.UpdateService` | core/manager/src/devsvc_manager.c:123-152 | the new state and the code, unchanged state on every failure; on success GetObject gives the object, and what it gave before for other keys |
| `Registry.DevSvcManager.RemoveService` | core/manager/src/devsvc_manager.c:173-192 | the service is gone and the listeners were told, if it was there; GetObject gives none for it, and what it gave before for other keys |
| `Registry.DevSvcManager.RegisterListener` | core/manager/src/devsvc_manager.c:237-251 | the listener is appended and told of every service it hears |
| `Registry.DevSvcManager.GetObject` | core/manager/src/devsvc_manager.c:194-207 | the object registered under the key of the name |
| `Registry.AddKeeps` | core/manager/src/devsvc_manager.c:85-121 | adding keeps every listener's view in agreement |
| `Registry.UpdateKeeps` | core/manager/src/devsvc_manager.c:123-152 | an update with unchanged class keeps every view in agreement |
| `Registry.RemoveKeeps` | core/manager/src/devsvc_manager.c:173-192 | removing keeps every view in agreement |
| `Registry.RegisterKeeps` | core/manager/src/devsvc_manager.c:237-251 | a new listener's view agrees at once, and the others still do |
| `Observer.SubscriberHears` | core/host/src/hdf_service_observer.c:38-131 | over any run of subscribes, publishes and removals, with any policies and failed allocations, a subscriber is called exactly as a reading of the operations on its key says |
| `Observer.PlainSubscriberHears` | core/host/src/hdf_service_observer.c:38-113 | for non-private, non-null services: the current service once at subscription if there is one, then every later one, once each and in order |
| `Observer.EverybodyUpToDate` | core/host/src/hdf_service_observer.c:38-113 | whatever the order of subscribes and publishes, what each subscriber heard last is what was published last |
| `Observer.NewcomerToldWhen` | core/host/src/hdf_service_observer.c:72-78 | a newcomer is told of a published service at once if and only if the record was not made by a private publish of another device |
| `Observer.PrivateDependsOnOrder` | core/host/src/hdf_service_observer.c:102-111 | with a private service, a stranger hears or does not hear it depending on whether the owner subscribed before or after the publish |
| `Observer.TopicIsHistory` | core/host/src/hdf_service_observer.c:85-131 | publisher, device and policy of a record are determined by the operations on its key |
| `ObserverRuns.ObserverIs` | core/host/src/hdf_service_observer.c:38-131 | after any run: the subscribers of every record, newest first, each ready exactly if it has been reached, and all calls made, in order, as the operations say |
| `Observer.HdfServiceObserver.SubscribeService` | core/host/src/hdf_service_observer.c:38-83 | the record list after the call as an update of the map of topics; when it fails; the call made at once |
| `Observer.HdfServiceObserver.PublishService` | core/host/src/hdf_service_observer.c:85-113 | the same for a publish, with every subscriber it reaches called |
| `Observer.HdfServiceObserver.RemoveRecord` | core/host/src/hdf_service_observer.c:115-131 | exactly the topic of the key is gone |
| `Observer.HdfServiceObserver.NotifySubscribers` | core/host/src/hdf_observer_record.c:56-78 | the subscribers reached are ready and, if they have a callback, called in list order with the publisher |
| `PowerToken.TokenRun` | core/host/src/power_state_token.c:16-124 | over any serialized run of acquires, releases and mode changes: the count is the number of locks held and not negative, it is positive exactly when the state is ACTIVE, and Resume and Suspend callbacks strictly alternate |
| `PowerToken.CallsMade` | core/host/src/power_state_token.c:16-124 | whichever callbacks the listener has: the power state, and the exact sequence of callbacks, as the requests say, a release without a lock on an untouched token included |
| `PowerToken.CountExactlyWhenCountable` | utils/src/hdf_sref.c:14-56 | the counter is right throughout a run if and only if the locks held never exceed 2^31 - 1 |
| `PowerToken.PowerStateToken.AcquireWakeLock` | core/host/src/power_state_token.c:93-104 | the token after an acquire, with the callbacks made |
| `PowerToken.PowerStateToken.ReleaseWakeLock` | core/host/src/power_state_token.c:106-124 | the token after a release, with the callbacks made |
| `PowerToken.PowerStateToken.FirstAcquire` | core/host/src/power_state_token.c:16-36 | the transition to ACTIVE and its callback |
| `PowerToken.PowerStateToken.LastRelease` | core/host/src/power_state_token.c:38-57 | the transition to INACTIVE and its callback |
| `PowerToken.NewInstance` | core/host/src/power_state_token.c:126-164 | null exactly when one of the two allocations fails; otherwise a new token, idle, under system control and not held |
| `PowerToken.PowerStateToken.SetMode` | core/host/src/hdf_device_object.c:142-156 | modes beyond the last one are ignored |
| `PowerManager.PmRequestsFolded` | core/host/src/hdf_power_manager.c:48-92 | at every moment of every interleaving, with modes changed directly meanwhile, each token is in the state that its executed requests, in enqueue order, and its mode changes, where they occurred, give, and has the properties of TokenRun |
| `PowerManager.PmCounts` | core/host/src/hdf_power_manager.c:48-70 | over the executed requests a token under dynamic control counts up on each acquire and down on each release with a lock held, and is active if and only if the count is positive, read off the types of the requests |
| `PowerManager.HangsWhen` | core/host/src/hdf_power_manager.c:48-70 | which request makes the worker hang: by its type, the locks held, the mode and the callback it leads to |
| `PowerManager.PmRequestsDone` | core/host/src/hdf_power_manager.c:48-92 | when only new requests and mode changes are possible all requests have been executed if and only if the worker does not hang and its thread did not fail to start, and it hangs only in a request whose callback sends a request itself |
| `PowerManager.PmRequestsDoneWhen` | core/host/src/hdf_power_manager.c:48-92 | without mode changes all requests get executed if and only if the thread did not fail to start and no request, in the state that those before it give, has a callback that sends a request |
| `PowerManager.FoldByToken` | core/host/src/hdf_power_manager.c:48-70 | requests and mode changes for one token do not affect another |
| `Boot.GetHostList` | core/common/src/hdf_attribute.c:64-99 | the boot list carries all valid configured hosts once each, by rising priority number, ties in reverse configuration order, with ids counted in configuration order; empty and refused exactly when there is no manager node or an allocation fails |
| `Boot.ArrangedUnique` | core/common/src/hdf_attribute.c:30-40 | there is only one such order |
| `Boot.InsertByPriority` | utils/src/hdf_slist.c:82-115 | inserting with HdfSListAddOrder extends that order by one item |
| `Boot.HostInfosNext` | core/common/src/hdf_attribute.c:47-97 | reading one more host node leaves the hosts found as they are and appends the node, if it is valid, with the count so far, modulo 2^16, as its id |
| `BootLists.HostAt` | core/common/src/hdf_attribute.c:47-97 | a configured host with a name and a priority of at most 200 is in the list, with its name and priority and the number of such hosts before it, modulo 2^16, as its id; and there are no others |
| `BootLists.DeviceNodeAt` | core/common/src/hdf_attribute.c:138-237 | a configured node with names and numbers in range is read, behind those before it, with its attributes and an id made of eight bits of host id, the number of its device and its own number, both counted from 1; and there are no others |
| `BootLists.AcceptedWhen` | core/common/src/hdf_attribute.c:180-213 | a device is accepted if and only if no allocation fails and the number of its nodes in range is not 0 or 255 modulo 256 |
| `BootLists.ListsAre` | core/common/src/hdf_attribute.c:199-208 | of the nodes read the disabled ones and no others are in the dynamic list; the rest are in the other one by priority, the later read first in a tie |
| `Boot.DevHostServiceClnt.GetDeviceNodeList` | core/common/src/hdf_attribute.c:180-213 | the valid nodes of a device go to their lists; success if and only if no allocation fails and their number is not 0 or 255 modulo 256, because the counter tested has eight bits |
| `Boot.FullDeviceRefused` | core/common/src/hdf_attribute.c:180-213 | every device of 255 valid nodes is refused, although all of them were read |
| `Boot.DevHostServiceClnt.GetDeviceList` | core/common/src/hdf_attribute.c:215-237 | success exactly when the host is configured and every device is accepted; then the preloaded nodes are listed by priority, ties in reverse configuration order, and the dynamic ones in reverse configuration order |
| `Boot.DevHostServiceClnt.AddPreloaded` | core/common/src/hdf_attribute.c:199-205 | a preloaded node keeps the priority order |
| `Boot.DevHostServiceClnt.AddDynamic` | core/common/src/hdf_attribute.c:206-208 | a dynamic node becomes the first of its list |
| `Boot.DevHostServiceClnt.constructor` | core/manager/src/devhost_service_clnt.c:61-85 | a new host client has empty lists |
| `Boot.DeviceIdsRise` | core/common/src/hdf_attribute.c:180-237 | ids of the device nodes of a host rise in configuration order, hence are distinct, for fewer than 65536 devices with at most 255 valid nodes each |
| `Boot.GetHostNode` | core/common/src/hdf_attribute.c:113-137 | the devices of the first host node with the name, if there is one |
| `Load.TwoPhases` | core/manager/src/devhost_service_clnt.c:35-58 | in quick mode, whatever the additions answer: phase one tries exactly the ENABLE devices, phase two exactly the STEP2 devices, in list order, and the list left is the original without the loaded devices, those of phase one excepted in a build with __USER__ |
| `Load.SlowMode` | core/manager/src/devhost_service_clnt.c:35-57 | in slow mode exactly the devices that are not disabled are tried, in list order, and what is left is the original without those of them that loaded, or all of it in a build with __USER__ |
| `Load.EveryDeviceTried` | core/common/src/devmgr_service_start.c:119-130 | every device that is not disabled is tried, at once in slow mode and in one of the two phases in quick mode |
| `Load.LoadedWhen` | core/manager/src/devhost_service_clnt.c:49-56 | a device counts as loaded exactly when its addition succeeds in the service that those before it leave |
| `Load.TriedOnce` | core/manager/src/devmgr_service.c:158-183 | no device is tried twice over the two phases |
| `Load.InstallDriver` | core/manager/src/devhost_service_clnt.c:19-59 | the devices tried, what their additions make of the service, and the heap list left, in quick and in slow mode, by preload in the latter, with and without __USER__; refused for a host without a service |
| `Load.LoadLeftDriver` | core/manager/src/devmgr_service.c:158-183 | for every host the devices tried, what their additions make of its service, and the heap list left; a null dereference if and only if a host that has not attached has a STEP2 device left |
| `Load.LoadPhase` | core/manager/src/devhost_service_clnt.c:35-57 | iterating while adding to the service and removing the loaded devices leaves exactly the others, in order, and the service as the additions make it |
| `Startup.StartDeviceHosts` | core/manager/src/devmgr_service.c:296-319 | the topology after boot is that of a run of starts, attachments and additions: the valid hosts are started by priority, ties in reverse configuration order, and the devices of each, before the next host, added by the priority of their nodes; no host without a manager node or when an allocation of the list fails |
| `Startup.StartDeviceHost` | core/manager/src/devmgr_service.c:267-294 | a host whose devices cannot be read or whose service cannot be made leaves no trace; one without preloaded devices is started only; any other is started, attached and has its devices added, by the priority of their nodes |
| `BootRuns.StartsWhen` | core/manager/src/devmgr_service.c:267-294 | a host starts if and only if there is memory for its client, every device of the first host node with its name can be read, and its service can be made, which a host of dynamic devices only does not need |
| `BootRuns.TriedExactly` | core/manager/src/devhost_service_clnt.c:35-48 | exactly the preloaded devices of a host are tried at its start, in quick mode without those of the second phase |
| `BootRuns.BootReaches` | core/host/src/devhost_service.c:61-112 | after boot resume reaches the node of every device tried that has a power token, if its id is new to its device, there was memory, its driver was found and it launched |
| `Startup.InstallAt` | core/manager/src/devhost_service_clnt.c:19-59 | what the installation of drivers on an attached host means for the topology: one addition for each device tried, in list order, and no other host changes |
| `Startup.ResumeByPriority` | core/manager/src/devmgr_service.c:296-373 | in every run whose host starts are those of the boot list in order, whatever attaches, is added or is deleted between and after them, resume goes by the configured priority of the hosts, ties in reverse configuration order, reaches only hosts that could be started, and suspend goes the opposite way |
| `Startup.BootResumesByPriority` | core/host/src/devhost_service.c:46-59 | after boot, within a host: the nodes of a device resume by configured priority, and devices by the priority of the nodes for which they were made; a device is as old as its first node if and only if the addition that made it got memory for the node |
| `Startup.ResumeWithinHost` | core/host/src/devhost_service.c:46-59 | resume goes through the nodes of a device in the order in which they were tried, and through the devices of a host in the order in which the nodes they were made for were tried |
| `Startup.TriedByPriority` | core/common/src/hdf_attribute.c:199-205 | along the devices tried for a host the configured priorities never fall |
| `Seqs.Search` | core/host/src/devhost_service.c:22-36 | the search loops over devices, nodes, services and records find the first match |
| `PowerOrder.SuspendMirrorsResume` | core/manager/src/devmgr_service.c:336-373 | for every topology the node sequence reached on suspend is the reverse of that on resume |
| `PowerOrder.ResumeIsLexicographic` | core/host/src/devhost_service.c:46-59 | after any run of host starts, attachments, device additions and deletions, resume goes by host start, then device creation, then node attachment, and reaches no node twice |
| `PowerOrder.ResumeReaches` | core/host/src/devhost_service.c:159-215 | resume reaches exactly the nodes with a power token of the hosts that have attached |
| `PowerOrder.AlwaysInOrder` | core/host/src/hdf_device.c:39-63 | in every reachable topology hosts are in start order, devices newest first and nodes in attachment order |
| `PowerOrder.VisitTimes` | core/host/src/devhost_service.c:61-112 | what a node reached by resume goes back to: a successful start of its host, then an addition that made its device, then or at the same time a successful addition of the node itself |
| `PowerRuns.AddedIsVisited` | core/host/src/devhost_service.c:61-112 | the converse: a node with a power token whose addition went to a host with a service, with a new id, memory, a driver and a successful launch, is reached by resume as the node of that time, unless it was deleted or its host attached anew since |
| `PowerRuns.TopologyIs` | core/host/src/devhost_service.c:61-147 | after any run: which hosts there are and have a service, and for every device since when it is there and which nodes it has, in order, as the operations on it say |
| `PowerOrder.DevicesStartWithNodes` | core/host/src/devhost_service.c:61-112 | without deletions a device is as old as its first node if and only if the addition that made it got memory for its node |
| `PowerOrder.DevmgrService.PowerStateChange` | core/manager/src/devmgr_service.c:336-373 | resume order for the states 0 and 2, suspend order for 1 and 3, refused from 4 on; the nodes reached and their order do not depend on what the callbacks answer |
| `PowerOrder.DevHostService.PmNotify` | core/host/src/devhost_service.c:189-215 | the nodes of a host in both directions |
| `PowerOrder.ApplyDevicesPowerState` | core/host/src/devhost_service.c:159-187 | the nodes of a device in both directions; failures are ignored |
| `PowerOrder.DevHostService.AddDevice` | core/host/src/devhost_service.c:61-112 | devices and code after an addition for every outcome; a device left without nodes is dropped except when the node could not be allocated |
| `PowerRuns.AddedDeviceIs` | core/host/src/devhost_service.c:61-112 | the code of every outcome, written out; success if and only if the id is new to the device, there is a device or memory for it, the driver is found, there is memory for the node and it launches; then exactly that node is appended, otherwise the nodes stay, and other devices always do |
| `PowerRuns.DeletedDeviceIs` | core/host/src/devhost_service.c:114-147 | exactly the node with the id goes, its siblings stay in order, a device left without nodes goes, other devices stay |
| `PowerOrder.DevHostService.DelDevice` | core/host/src/devhost_service.c:114-147 | devices and code after a deletion; a device left without nodes is dropped |
| `PowerOrder.DevmgrService.FindDeviceHost` | core/manager/src/devmgr_service.c:185-201 | the first host with the id, or none |
| `PowerOrder.DevmgrService.AttachDeviceHost` | core/manager/src/devmgr_service.c:250-265 | the first host with the id gets the service; refused without such a host or for a null service |

## Left out

- HashMap.HdfMap.Set: setting a key again in a map of a multiple of 2^32 nodes, which does not see the keys it has and would store this one twice.
- HashMap.RunFromInit: runs end at a null dereference or when the map has 2^32 nodes; `HashMap.SeenWhen` says what it answers then.
- SbufFormat.ParseEncoded: strings of more than 32766 bytes, which the reader refuses by design (see ServiceList for what happens then).
- ServiceList.GetDeviceServiceNameByClass: names shorter than 2^31 - 1 bytes, the limit of the string copy that registers them.
- Registry.ViewsAlwaysAgree: listeners have an id of their own and are registered once; calls are serialized, while in the code the search and the change of a call are separate critical sections.
- PowerToken.TokenRun: runs in which no more than 2^31 - 1 locks are held at a time; requests are serialized, since increment and read are separate steps.
- PowerManager.PmRequestsFolded: all requests go through the queue; direct calls of HdfPmAcquireDevice and HdfPmReleaseDevice from other threads would not be serialized with it.
- Observer.PlainSubscriberHears: each subscriber has an id of its own; calls are serialized.
- TaskQueue.HungForGood: the mutex is not recursive, as that of support/posix/src/osal_mutex.c; what a task that hangs did before is not part of the world.
- Load.TwoPhases: preload values are valid, which CheckDeviceInfo has made sure of.
- Boot.DeviceIdsRise: beyond its bounds ids wrap and can repeat.
- Boot.DevHostServiceClnt.constructor: the device map, the process id and the stop flag of a host client.
- Startup.StartDeviceHosts: the device manager has no hosts before, and at most 65536 hosts are valid, beyond which ids repeat and the second of two hosts would attach to the first; the installer is that of core/manager/src/hdf_driver_installer.c. Startup.ResumeByPriority holds for any installer and any number of hosts.
- PowerOrder.DevHostService.AddDevice: device nodes with id 0, whose id HdfDeviceAttach allocates; the index it keeps compares one field and fills another, so that uniqueness is not a property of it.
- Checks of arguments for null pointers, and everything the code does only to log.
- Lists of the registry, the observer and the device topology are sequences; that the ring and list operations on heap nodes act on sequences this way is proved in DList and SList.
- Sizes of size_t and pointers other than 64 bits, byte orders other than little-endian, and `char` other than unsigned in the hash of service names.
- The securec functions: memcpy_s and strncpy_s are taken to do their work whenever their sizes allow.
- Time stamps near 2^64, failing lock and semaphore calls, a clock that goes back, messages enqueued on a destroyed queue, and the destruction of a task queue.
- HdfSListPeek, HdfSListPop, HdfSListGetLast, unregistering a listener, subscribing through the registry: each adds only easy members.
- PowerStateChange of core/host/src/power_state_token.c: which callback of the listener a state leads to.
- Loading and unloading single devices at run time, stopping a host, and driver Bind, Init and Release.
- utils/src/hdf_object_alloc.c, hdf_ordered_list.c, hdf_blocking_queue.c and hdf_block_buffer.c, which do not match their headers.
- The operating-system layer, the object manager, I/O services, the parsing of the configuration tree, the forwarding client wrappers, the platform headers and the generator tools.
