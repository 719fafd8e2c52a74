# Verified core of libevent

The repository is an Android proxy whose native layer is built on a vendored libevent
2.1.8 (`core/src/main/jni/libevent`). This project models the hard parts of that library
in Dafny and proves what they promise.

* **Evbuffers** (`Chains`, `Evbuffers`, `EvbufferReads`, `EvbufferSearches`,
  `EvbufferRuns`). A byte queue kept as a list of chunks with front gaps, a cached
  length and a cached last chunk with data. Every operation keeps the shape of the list
  and does to the bytes what the plain operation on a byte string does; whole runs on two
  buffers are runs on two strings; searching and reading do not depend on the chunking.
* **Interest in file descriptors** (`EpollTable`, `Changelists`, `EpollRuns`). Adds and
  deletes are coalesced per fd and compiled through a table of 512 rows into system calls.
  The table is written out row by row and proved right; the coalescing backend and the
  immediate one leave the same kernel state.
* **The event loop** (`EventQueues`, `EventLoop`, `EventTimers`, `EventDispatch`,
  `EventRuns`, `MinHeap`, `EventHeap`). Queues by priority, the heap of deadlines and the
  common-timeout lists that stand in for it. Flags, queues and counters agree in every reachable state, the
  loop never sleeps past a deadline, and exactly the due events fire, as long as memory
  lasts; what happens when it does not is stated exactly.
* **DNS** (`DnsNames`, `DnsEncoding`, `DnsServers`, `DnsRequests`, `DnsRuns`). Name
  compression as in section 4.1.4 of RFC 1035, read back by the library's own reader; the
  request tables with their transaction ids and counters; the round robin over servers.
* **Tagged records** (`Tagging`, `TagStreams`), **token buckets** (`RateLimits`) and the
  **random generator** (`Arc4`). Round trips, bounds over whole runs, absence of bias.

`Basics` and `Lists` hold what all of them share.

Code that works in place is a class or a method over arrays and is proved against a
function on values; what is hard is then stated about those functions. The clock, the
random generator, the network, the kernel and the allocator are parameters or free
choices. The configuration is the one the repository ships: `size_t`, `ssize_t`, `int` and
pointers are 32 bits wide, and EPOLLRDHUP exists.

Where code and comments differ the model follows the code:

* The wire-format comment at `event_tagging.c:80-93` speaks of big-endian nibbles and
  tags; the code emits the low bits first.
* `evbuffer_remove_buffer` ignores the result of the `evbuffer_add` that moves its last
  partial chunk, so a failing allocator makes bytes vanish. `CanMove` is the exact
  condition under which none do, and `RemoveBufferCanLose` is an instance.
* `evbuffer_prepend` leaves the part that fits the front gap written when the allocation
  for the rest fails; the contract says exactly what is there then.
* A delete on the changelist path whose allocation fails stores the new counts all the
  same, and the dispatch that follows does not mend it. `EvmapDel` says exactly when that
  happens, `ForgetsDelete` what the kernel has then, and `FullList` leads to such a state.
* `common_timeout_schedule` ignores the result of its `event_add`. Without room in the heap
  a common-timeout list is then lost: nobody will look at it (`LostIff`). `Add` and
  `CommonCallback` say exactly when that happens, and `AddCanStrand` shows an event that
  was added with success and does not fire, however late the loop looks.
* `event_queue_insert_timeout` ignores the result of `min_heap_push_`, and `event_add`
  reserves nothing for an event that waits in a common-timeout list. Moved to an ordinary
  timeout without room in the heap, such an event keeps EVLIST_TIMEOUT and is in no queue.
  `Drifts` is the exact condition on the state before the call, `LooseIff` tells these events
  by their state, and `AddCanDrift` is the failing family. To remove such a timeout later is
  undefined, so that `Execute` follows a run up to a call that does.
* `evbuffer_remove` takes a count above SSIZE_MAX for an error after it has copied the
  bytes, and drains nothing.
* Integers in event_tagging.c cannot be decoded while more than SSIZE_MAX bytes are behind
  them: the length is compared as an ev_ssize_t (`Decodable`, `TooMuchBehind`).
* `dnsname_to_labels` writes the zero byte that ends a name without looking at the
  length of the buffer. `Overruns` is the exact condition on the state before the call
  under which that byte falls behind the end, and `ExactFitWritesBehind` an instance.
* A refund can lift a token bucket over its maximum, and then the unsigned difference in
  the refill wraps (`RefillIsMinIff`, `OverfullGrows`). It can even leave an exhausted bucket
  that nobody suspends; `Refillable` is the exact condition, `OverfullSinks` an instance.
* `ev_token_bucket_init_` keeps `last_updated` in the old ticks when the configuration
  changes. `RefilledIff` says when a refill then happens and `LongerTicksStall` shows a
  day without one.
* A name with an empty label inside is encoded whole and read back only up to that label
  (`CanonicalIff`, `EmptyLabelEndsName`).

Verify with `dafny verify dfyconfig.toml`.

## Model

| member | source | states |
|---|---|---|
| `Chains.RoundUpAllocation` | core/src/main/jni/libevent/buffer.c:156-192 | the doubling loop ends at a size that holds the request, is at least the minimum, and is less than twice the request or the minimum itself |
| `Chains.ChainNew` | core/src/main/jni/libevent/buffer.c:156-192 | a chain comes back exactly when memory is there and the size plus its header is in range; it is empty and has at least the room asked for |
| `Evbuffers.Evbuffer.FreeTrailingEmptyChains` | core/src/main/jni/libevent/buffer.c:290-302 | cuts the list right behind the data (everything if there is none), never cuts a byte off, and the assertion that the rest is empty holds |
| `Evbuffers.Evbuffer.ChainInsert` | core/src/main/jni/libevent/buffer.c:308-326 | the new chain ends up behind the data, the bytes are the old ones followed by its own, and the shape invariant (total_len, last, last_with_datap) is kept |
| `Evbuffers.Evbuffer.Add` | core/src/main/jni/libevent/buffer.c:1723-1817 | success appends exactly the data, failure changes nothing, and success happens if and only if the end is not frozen, the length fits and the data fits in place or a chain can be had |
| `Evbuffers.Evbuffer.Prepend` | core/src/main/jni/libevent/buffer.c:1820-1899 | success puts exactly the data in front, if and only if not frozen, in range, and the front gap or a new chain takes it; on a failed allocation the part that fills the front gap stays written, and nothing else |
| `Evbuffers.Evbuffer.Drain` | core/src/main/jni/libevent/buffer.c:1096-1161 | exactly the first len bytes go (all of them when there are fewer), or nothing when the start is frozen; its assertion on the remaining length holds |
| `Evbuffers.Evbuffer.CopyoutFrom` | core/src/main/jni/libevent/buffer.c:1185-1249 | the output is the stretch of the byte queue from the position on, as long as wanted or available; range and freeze errors are told apart exactly; the count comes back as a 32-bit ssize_t, and cells behind the stretch are untouched |
| `Evbuffers.Evbuffer.Remove` | core/src/main/jni/libevent/buffer.c:1165-1176 | the bytes handed out are the front of the queue, with the count as an int; they leave the queue exactly if that is positive, so a count above SSIZE_MAX drains nothing |
| `Evbuffers.Evbuffer.AddBuffer` | core/src/main/jni/libevent/buffer.c:961-1004 | the other queue is appended and left empty; same buffer, empty source and frozen ends are told apart |
| `Evbuffers.Evbuffer.AdvanceLastWithData` | core/src/main/jni/libevent/buffer.c:703-716 | when every chain holds data the loop stops at the last chain |
| `Evbuffers.Evbuffer.WholeChains` | core/src/main/jni/libevent/buffer.c:1287-1299 | how many whole chains fit in the wanted bytes, and that the loop stops before the last chain with data, as the source asserts |
| `Evbuffers.Evbuffer.RemovePart` | core/src/main/jni/libevent/buffer.c:1287-1337 | moving part of a buffer: the source loses exactly the wanted prefix; the destination gets it but for the bytes of a failed last copy, and those are lost if and only if a condition on the state before the call fails (CanMove) |
| `Evbuffers.Evbuffer.RemoveBuffer` | core/src/main/jni/libevent/buffer.c:1255-1342 | a prefix moves over in order and the count is returned; whether bytes get lost on the way is decided exactly by the room behind the last whole chain and by the allocator |
| `Evbuffers.Evbuffer.Pullup` | core/src/main/jni/libevent/buffer.c:1345-1454 | contents unchanged; a pointer comes back if and only if the size is in range and the first chain has the bytes or the room or a new one can be had, and then the first chain holds the first size bytes; the assertion on the remaining length holds under exactly its own condition |
| `Evbuffers.Evbuffer.ProbeSpace` | core/src/main/jni/libevent/buffer.c:2060-2085 | the first loop of the expansion counts the chains with room and the room in them |
| `Evbuffers.Evbuffer.ReplaceEmptyTail` | core/src/main/jni/libevent/buffer.c:2105-2146 | the nuke branch: empty chains are replaced by one that makes the room wanted, in at most two chains; its assertion on the length holds |
| `Evbuffers.Evbuffer.ExpandFast` | core/src/main/jni/libevent/buffer.c:2040-2147 | contents unchanged, and on success at most n consecutive chains from the first with space have the room wanted |
| `Evbuffers.OneHolds` | core/src/main/jni/libevent/buffer.c:1287-1299 | a byte position lies in one chain only, so the condition for losing nothing is about one chain |
| `Evbuffers.SomeHolds` | core/src/main/jni/libevent/buffer.c:1287-1299 | every byte position lies in some chain |
| `EvbufferReads.ReadSetupVecs` | core/src/main/jni/libevent/buffer.c:2214-2247 | at most the given number of regions, one per chain in order, totalling exactly the wanted length in exact mode and at least it otherwise |
| `EvbufferReads.ReadV` | core/src/main/jni/libevent/buffer.c:2333-2335 | readv fills the regions in order and changes no stored byte |
| `EvbufferReads.CommitRead` | core/src/main/jni/libevent/buffer.c:2366-2391 | the loop that adjusts lengths ends with the received bytes, and only those, behind the old contents, and with last_with_datap where it belongs |
| `EvbufferReads.CommittedFlat` | core/src/main/jni/libevent/buffer.c:2366-2391 | after k adjusted chains the flat view is the old bytes followed by what has arrived in the first k regions |
| `EvbufferReads.ReadLimit` | core/src/main/jni/libevent/buffer.c:2291-2295 | the least of what is wanted, what the socket has if that is known and small, and 4096 |
| `EvbufferReads.Read` | core/src/main/jni/libevent/buffer.c:2271-2399 | whatever number of bytes arrives is appended in order and returned; errors and frozen buffers leave the contents alone |
| `EvbufferSearches.MemChr` | core/src/main/jni/libevent/buffer.c:2735-2739 | the least index from the start on that holds the byte, or -1 if there is none |
| `EvbufferSearches.PtrSet` | core/src/main/jni/libevent/buffer.c:2610-2659 | the place is right for every position, never at the end of a chain that has a successor; the position is kept in a ssize_t, so the pointer is usable if and only if the target is at most SSIZE_MAX; the two kinds of failure are told apart |
| `EvbufferSearches.PtrMemcmp` | core/src/main/jni/libevent/buffer.c:2666-2699 | the sign of comparing the flat bytes at the position with the pattern, across any chunking, and -1 when they do not reach; zero if and only if the pattern is there |
| `EvbufferSearches.CompareConcat` | core/src/main/jni/libevent/buffer.c:2666-2699 | comparing chunk by chunk is comparing the whole |
| `EvbufferSearches.FirstDifference` | core/src/main/jni/libevent/buffer.c:2666-2699 | the sign is decided by the first byte that differs |
| `EvbufferSearches.SearchRange` | core/src/main/jni/libevent/buffer.c:2708-2769 | the least position at or after start whose match ends by end, or not-found exactly when there is none in the flat bytes |
| `EvbufferRuns.Execute` | core/src/main/jni/libevent/buffer.c:960-1454 | every run of add, prepend, drain, remove, add_buffer, remove_buffer, pullup, read and freezes on two buffers, each with its own answer of the allocator, is the run of the plain operations on two byte strings with the same bytes handed out, up to the first call that found no memory and, but for a read, could not do in place on the chains it met; a failed add or read leaves everything as it was |
| `EvbufferRuns.Perform` | core/src/main/jni/libevent/buffer.c:1722-1899 | one call on one buffer with the other as partner refines the step on byte strings if and only if, reads aside, it has memory, is refused by a frozen end or does without memory; the last is a condition on the chains before the call |
| `EvbufferRuns.TakeIn` | core/src/main/jni/libevent/buffer.c:1722-1899 | add, prepend and read take in their data with memory; add and prepend exactly also in place without |
| `EvbufferRuns.MoveOver` | core/src/main/jni/libevent/buffer.c:1255-1337 | add_buffer always moves over; remove_buffer without memory exactly if the last part fits behind what is there |
| `EvbufferRuns.Conservation` | core/src/main/jni/libevent/buffer.c:960-1454 | no run makes or loses bytes: what came in is held, was handed out or was drained |
| `EvbufferRuns.Fifo` | core/src/main/jni/libevent/buffer.c:1164-1177 | for runs that append and take away, what was taken followed by what is held is what was put in |
| `EvbufferRuns.RemoveBufferCanLose` | core/src/main/jni/libevent/buffer.c:1320-1325 | two bytes in one chain, a destination without chains and a failing allocator: the result is 1, one byte has left the source, and the destination is still empty |
| `EpollTable.IndexDecodes` | core/src/main/jni/libevent/epolltable-internal.h:124-130 | the table index packs old kinds and the three changes without loss |
| `EpollTable.TableCorrect` | core/src/main/jni/libevent/epolltable-internal.h:136-1164 | every one of the 512 rows gives the operation and the events its change asks for: nothing, ADD, MOD or DEL with exactly the wanted kinds |
| `Changelists.EventBase.ApplyOneChange` | core/src/main/jni/libevent/epoll.c:269-355 | with its ADD/MOD/DEL retries the call always ends with the kinds the change wants, whatever was registered before |
| `Changelists.EventBase.ApplyChanges` | core/src/main/jni/libevent/epoll.c:358-374 | the whole changelist is applied, each change once and in order |
| `Changelists.AppliedAt` | core/src/main/jni/libevent/epoll.c:358-374 | after all changes an fd has what its one change wants, or what it had if the change is idle |
| `Changelists.EventBase.RemoveAll` | core/src/main/jni/libevent/evmap.c:768-786 | the list is empty, every back index is cleared, and counts and events are untouched |
| `Changelists.EventBase.GetOrConstruct` | core/src/main/jni/libevent/evmap.c:824-852 | the entry of the fd, found or made, with list and back indices still pointing at each other and at most one entry more; -1 if and only if an entry is needed, the list is full and memory is short, and then nothing has changed |
| `Changelists.EventBase.BackendAdd` | core/src/main/jni/libevent/evmap.c:855-887 | afterwards the pending or immediate change promises the fd the old kinds and the new ones; the pending change is the former one with the new kinds added, which is never idle |
| `Changelists.EventBase.BackendDel` | core/src/main/jni/libevent/evmap.c:890-939 | afterwards it promises the old kinds without the deleted ones; the pending change is the former one with an add that was still pending cancelled |
| `Changelists.EventBase.EvmapAdd` | core/src/main/jni/libevent/evmap.c:266-342 | the event comes to the head of the list of its fd and every other list is as before; -1 with memory exactly if a 16-bit count of one of its kinds is used up, and then nothing is listed; the result says whether the wanted kinds changed; what is then pending for the fd is given exactly, and for other fds it is as before |
| `Changelists.EventBase.EvmapDel` | core/src/main/jni/libevent/evmap.c:347-409 | exactly this event leaves the list of its fd and the others keep their order; the three assertions hold; -1 if and only if the wanted kinds change while the full changelist cannot grow, and then the kernel keeps what nobody asks for; otherwise what is pending for the fd is given exactly |
| `Changelists.EventBase.Dispatch` | core/src/main/jni/libevent/epoll.c:459-460 | applying and clearing the list puts every touched fd right, also one that something else had disturbed |
| `Changelists.EventBase.InStep` | core/src/main/jni/libevent/evmap.c:741-760 | with nothing pending the kernel has exactly what the counts ask for |
| `Changelists.TouchedIff` | core/src/main/jni/libevent/epoll.c:358-374 | a dispatch makes a system call about an fd if and only if what is pending for it is not idle |
| `Changelists.MoreIsPending` | core/src/main/jni/libevent/evmap.c:869-873 | asking for one more kind leaves a change that is not idle, also after a delete of it |
| `Changelists.AddedAndDeleted` | core/src/main/jni/libevent/evmap.c:890-939 | an add and a delete of the same kinds between dispatches leave nothing to do if and only if none of them was enabled before |
| `Changelists.BookedSet` | core/src/main/jni/libevent/evmap.c:855-887 | setting the pending change of one fd leaves those of all others as they were |
| `EpollRuns.Act` | core/src/main/jni/libevent/evmap.c:266-342 | one add, delete, dispatch or outside change keeps the invariant of either backend, has the same effect on the counts, and says exactly what is pending afterwards and which fds are put right by it |
| `EpollRuns.Lockstep` | core/src/main/jni/libevent/epoll.c:358-413 | for every run, outside changes included: both backends list exactly the events that were added last; after a dispatch the coalescing one has every fd as the counts ask but for those changed from outside with nothing pending at any dispatch since, the immediate one all but those changed from outside that asked for nothing else since; the two kernels agree on all others, and are equal if nothing came from outside |
| `EpollRuns.StaleAreMeddled` | core/src/main/jni/libevent/epoll.c:308-350 | an outside change costs no other fd its registration |
| `EpollRuns.ListedIff` | core/src/main/jni/libevent/evmap.c:266-411 | after any run an event is on the list of its fd if and only if the last that was done about it is an add that went through |
| `EpollRuns.AskedIff` | core/src/main/jni/libevent/evmap.c:266-411 | a kind is asked for on an fd if and only if some event whose last action was its add asks for it |
| `EpollRuns.AddHeals` | core/src/main/jni/libevent/evmap.c:864-874 | after any run, an add that asks for one more kind and a dispatch put its fd right |
| `EpollRuns.ReopenedHeals` | core/src/main/jni/libevent/evmap.c:864-874 | an fd that is closed and reopened while its event is deleted and added again is registered by the next dispatch, although it asks for the same as before |
| `EpollRuns.FullList` | core/src/main/jni/libevent/evmap.c:798-817 | a run that leads there: the changelist is full, and the last reader of an fd has no entry in it |
| `EpollRuns.ForgetsDelete` | core/src/main/jni/libevent/evmap.c:347-409 | whenever a delete that changes the wanted kinds finds the changelist full and no memory, it says -1 and the counts lose the event, but the next dispatch leaves the kernel with what was asked for before |
| `EventLoop.EventBase.constructor` | core/src/main/jni/libevent/event.c:1197-1234 | a new base with n empty active queues meets the whole invariant |
| `EventLoop.EventBase.InsertInserted` | core/src/main/jni/libevent/event.c:3310-3323 | the flag, the fd list and event_count move together |
| `EventLoop.EventBase.RemoveInserted` | core/src/main/jni/libevent/event.c:3173-3183 | the same, taken back |
| `EventLoop.EventBase.InsertActive` | core/src/main/jni/libevent/event.c:3326-3344 | the event goes to the tail of its priority queue; flag, both counters and queue agree |
| `EventLoop.EventBase.RemoveActive` | core/src/main/jni/libevent/event.c:3185-3199 | the event leaves its queue, the order of the others is kept, flag and counters follow |
| `EventLoop.EventBase.InsertLater` | core/src/main/jni/libevent/event.c:3347-3361 | the tail of the active-later queue, with flag and counters |
| `EventLoop.EventBase.RemoveLater` | core/src/main/jni/libevent/event.c:3201-3214 | the same, taken back |
| `EventLoop.EventBase.RemoveTimeout` | core/src/main/jni/libevent/event.c:3216-3235 | the event leaves the heap or its own common list, whichever its deadline says |
| `EventLoop.EventBase.InsertHeap` | core/src/main/jni/libevent/event.c:3364-3385 | an ordinary deadline goes into the heap if there is room; without, the flag is set all the same and the event is not in the heap |
| `EventLoop.EventBase.PlaceInOrder` | core/src/main/jni/libevent/event.c:3280-3307 | the search from the end finds the place between the last event due no later and the first due later |
| `EventLoop.EventBase.InsertCommon` | core/src/main/jni/libevent/event.c:3279-3384 | a common deadline goes into its list, which stays sorted; the new event is the head exactly if everyone else there is due later |
| `EventLoop.EventBase.EventDel` | core/src/main/jni/libevent/event.c:2761-2844 | the event is in no queue at all afterwards, whatever the backend says, unless it is finalizing and not forced; the result is the backend's for an fd that was watched |
| `EventLoop.EventBase.EventActive` | core/src/main/jni/libevent/event.c:2865-2913 | an event that is not finalizing is active once, at the tail if it was not before, with its reasons added up; the case of both flags is proved impossible |
| `EventLoop.EventBase.EventActiveLater` | core/src/main/jni/libevent/event.c:2924-2938 | it goes to the tail of the active-later queue unless it is active or there already |
| `EventLoop.EventBase.Schedule` | core/src/main/jni/libevent/event.c:1407-1413 | with room in the heap, or a place there already, the internal event waits for the deadline of the head of its list; without, nothing happens, and the list is lost exactly if its internal event is not active either |
| `EventTimers.ServedPut` | core/src/main/jni/libevent/event.c:2547-2716 | an event that joins a common list leaves all other lists served, and this one too unless it is the new head |
| `EventTimers.Add` | core/src/main/jni/libevent/event.c:2547-2716 | -1 exactly for a finalizing event, a new timeout without memory or a refused fd, and then nothing has changed; otherwise an event for an fd that was neither active nor active-later is watched, any other is watched exactly if it was before; deadline, interval, queues and flags are given field by field, and nobody else but internal events changes; its common list is lost exactly if the event comes first there and the sleeping internal event finds no room in the heap; the event itself is left out of the heap exactly if it moves there from a common list and finds no room |
| `EventTimers.Delete` | core/src/main/jni/libevent/event.c:2719-2735 | event_del: idle afterwards, everyone else untouched, all lists still served |
| `EventTimers.Activate` | core/src/main/jni/libevent/event.c:2847-2861 | event_active keeps the invariant and puts the event at the tail of its queue |
| `EventTimers.ActivateLater` | core/src/main/jni/libevent/event.c:2916-2921 | event_active_later_ keeps the invariant |
| `EventTimers.Finalize` | core/src/main/jni/libevent/event.c:2197-2208 | the event leaves fd and timeout lists, is active once more and is finalizing; a second call changes nothing |
| `EventTimers.RemoveTimer` | core/src/main/jni/libevent/event.c:2505-2521 | only the timeout and the repeat interval go |
| `EventDispatch.Top` | core/src/main/jni/libevent/event.c:3095-3100 | the heap as a priority queue: an event with the least deadline, or none if it is empty |
| `EventDispatch.LostIff` | core/src/main/jni/libevent/event.c:1407-1413 | a common list with something in it is lost if and only if its internal event is neither active nor in the heap |
| `EventDispatch.HeapSpeaksForAll` | core/src/main/jni/libevent/event.c:1406-1439 | while no internal event is active, no deadline anywhere is earlier than the heap says, but for events left out of the heap and those in a lost list |
| `EventDispatch.TimeoutNext` | core/src/main/jni/libevent/event.c:3088-3122 | no limit if and only if every timeout is of an event left out of the heap or in a lost list; otherwise a wait that is never negative, passes no deadline of any other event, and is exact for one of them |
| `EventDispatch.LoopWait` | core/src/main/jni/libevent/event.c:1924-1933 | zero if the loop must not block or something is active; otherwise no limit if and only if every timeout is of an event left out of the heap or in a lost list, and else the time to the earliest deadline of any other event |
| `EventDispatch.Fire` | core/src/main/jni/libevent/event.c:3142-3147 | deleting and activating a due event takes it out of every list and into the active queue, once, with EV_TIMEOUT; a finalizing event cannot be met here |
| `EventDispatch.TimeoutProcess` | core/src/main/jni/libevent/event.c:3126-3149 | exactly the members of the heap that are due fire, the loop ends, and what is left there is due later |
| `EventDispatch.CommonCallback` | core/src/main/jni/libevent/event.c:1419-1439 | exactly the due members of its list fire, and the internal event then waits for the next one, or the list is lost if somebody is left and the heap has no room |
| `EventDispatch.ProcessDue` | core/src/main/jni/libevent/event.c:1418-1439 | at one fixed time, timeout_process and then the active common callbacks in any order fire exactly the events that are due, wherever they wait, but for those left out of the heap or in a lost list, and end with nothing else due; lists get lost only for lack of room |
| `EventRuns.Assign` | core/src/main/jni/libevent/event.c:2065-2111 | a new event is in no queue and disturbs nothing |
| `Lists.WithoutCuts` | core/src/main/jni/libevent/event.c:3185-3199 | removing from a list takes out exactly this one and keeps the order of the others |
| `EventRuns.InitCommonTimeout` | core/src/main/jni/libevent/event.c:1444-1515 | the list of this duration, found or made; none if and only if there is none yet and 256 are in use or memory is short |
| `EventRuns.NextRun` | core/src/main/jni/libevent/event.c:1529-1567 | a persistent event runs again one interval after it was due if that is not past, and else one interval from now |
| `EventRuns.RunOrdinary` | core/src/main/jni/libevent/event.c:1600-1608 | a one-shot event is gone from every queue; a persistent one leaves the active queue and, if it repeats and can be added, waits for exactly its next run; a finalizing one only leaves |
| `EventRuns.RunFirst` | core/src/main/jni/libevent/event.c:1591-1706 | the first event of the queue is taken and treated as its kind demands, internal ones by their callback |
| `EventRuns.MakeLaterActive` | core/src/main/jni/libevent/event.c:3388-3400 | the active-later queue is emptied, in order, to the tails of the active queues, and event_count_active stays right |
| `EventRuns.Execute` | core/src/main/jni/libevent/event.c:2546-2913 | every run of calls, at whatever times, keeps the invariant and a finalized event stays finalized, and each call changes events exactly as it should, field by field, up to a call that would take an event out of the heap which never got there; while the heap has room there is no such call and no list gets lost |
| `EventRuns.AddCanStrand` | core/src/main/jni/libevent/event.c:2547-2716 | an event moved from one common list to an empty one without room in the heap: event_add says 0, the list is lost, and the event is overdue and still waiting when the loop has processed everything due but what nobody looks at, however late |
| `EventRuns.AddCanDrift` | core/src/main/jni/libevent/event.c:2578-2582 | an event moved from a common list to an ordinary timeout without room in the heap: event_add says 0, the event is not in the heap, and it is overdue and still waiting however late the loop looks |
| `EventRuns.LooseIff` | core/src/main/jni/libevent/event.c:3382-3384 | the events whose push has failed are exactly those with EVLIST_TIMEOUT and an ordinary deadline that are not in the heap |
| `EventRuns.Membership` | core/src/main/jni/libevent/event.c:3884-3940 | in every reachable state an event is in exactly the queues its flags name, once in each, but for the heap when its push has failed, never active and active-later, and on no timeout or fd list once finalizing |
| `EventRuns.CountsTell` | core/src/main/jni/libevent/event.c:1303-1307 | event_count_active is zero if and only if nothing is active, event_count if and only if every event that is not internal is idle |
| `MinHeap.TopLeast` | core/src/main/jni/libevent/minheap-internal.h:69-69 | in a heap whose parents are not greater than their children the top is least |
| `MinHeap.RiseStep` | core/src/main/jni/libevent/minheap-internal.h:161-171 | exchanging a smaller element with its parent leaves only the parent place in doubt |
| `MinHeap.SinkStep` | core/src/main/jni/libevent/minheap-internal.h:173-186 | exchanging a greater element with its lesser child leaves only the child place in doubt |
| `MinHeap.Heap.ShiftUp` | core/src/main/jni/libevent/minheap-internal.h:161-171 | the hole moves up until the element fits: the heap order is restored, every event knows its place, nobody is lost |
| `MinHeap.Heap.ShiftDown` | core/src/main/jni/libevent/minheap-internal.h:173-186 | the same downwards, along the lesser children |
| `MinHeap.Heap.Push` | core/src/main/jni/libevent/minheap-internal.h:71-77 | the event joins the set of those in the heap, or nobody joins when it is full and memory is short |
| `MinHeap.Heap.Erase` | core/src/main/jni/libevent/minheap-internal.h:96-115 | exactly this event leaves, from whatever place, and -1 if and only if it was not there |
| `MinHeap.Heap.Top` | core/src/main/jni/libevent/minheap-internal.h:69-69 | an event with the least deadline of all in the heap, none if and only if it is empty |
| `EventHeap.Push` | core/src/main/jni/libevent/minheap-internal.h:71-77 | the array takes the event exactly if the set of the event base does, and says whether there was room |
| `EventHeap.Erase` | core/src/main/jni/libevent/minheap-internal.h:96-115 | the event leaves both |
| `EventHeap.First` | core/src/main/jni/libevent/minheap-internal.h:69-69 | the top of the array is a least event of the set, and there is none exactly if the set is empty |
| `DnsNames.ParseFrom` | core/src/main/jni/libevent/evdns.c:960-1013 | reading ends on every packet, cyclic pointers included; on success the text and its NUL fit, and the new index lies past the old one and within the packet |
| `DnsNames.SelfPointerFails` | core/src/main/jni/libevent/evdns.c:981-992 | a pointer to itself makes reading fail |
| `DnsNames.NameParse` | core/src/main/jni/libevent/evdns.c:960-1013 | the loop over indices is that reading: same text with a NUL behind it, same index, or -1 |
| `DnsNames.ParseReads` | core/src/main/jni/libevent/evdns.c:960-1013 | where labels stand in a message, written out or through pointers, they are read, and the index comes back behind their first part |
| `DnsNames.UntilEmptyConcat` | core/src/main/jni/libevent/evdns.c:984-1007 | an empty label hides everything behind it from a reader |
| `DnsEncoding.LabelTable.GetPos` | core/src/main/jni/libevent/evdns.c:1560-1568 | the place of the text if it has been entered, -1 if and only if it has not |
| `DnsEncoding.LabelTable.Add` | core/src/main/jni/libevent/evdns.c:1572-1586 | the entry is added, or nothing is remembered when the table is full or memory is short |
| `DnsEncoding.WritingStep` | core/src/main/jni/libevent/evdns.c:1613-1655 | the loop invariant over one label: what is written so far reads as the labels, older entries read right and newer ones will |
| `DnsEncoding.WritingPointer` | core/src/main/jni/libevent/evdns.c:1614-1621 | a pointer to an entered suffix completes the name, and every table entry then reads to its own text |
| `DnsEncoding.DnsnameToLabels` | core/src/main/jni/libevent/evdns.c:1600-1663 | success leaves a complete name at start and a table whose every entry reads right; the encoding is exactly as long as the first known rest of the name allows, and an unknown name is entered; names over 255 bytes give -2; well-formed names with room succeed; bytes before start are untouched; the cell behind the buffer is written if and only if Overruns holds beforehand |
| `DnsEncoding.WriteTwice` | core/src/main/jni/libevent/evdns.c:1600-1663 | the second time a name takes two bytes |
| `DnsEncoding.KnownIsShort` | core/src/main/jni/libevent/evdns.c:1600-1663 | a name that the table knows takes two bytes |
| `DnsEncoding.LastOverruns` | core/src/main/jni/libevent/evdns.c:1657-1660 | the last label of a name that fits but for its zero byte makes the condition true |
| `DnsEncoding.OverrunsGoesOn` | core/src/main/jni/libevent/evdns.c:1625-1655 | while such a name is written there is always another label and no entry knows the rest |
| `DnsEncoding.ExactFitWritesBehind` | core/src/main/jni/libevent/evdns.c:1657-1660 | the name ab with a length of 3 writes the fourth cell |
| `DnsEncoding.CanonicalIff` | core/src/main/jni/libevent/evdns.c:1631-1655 | a name comes back as it was if and only if it has no empty label or is empty |
| `DnsEncoding.EmptyLabelEndsName` | core/src/main/jni/libevent/evdns.c:1631-1655 | wherever a..b has been written, name_parse reads a |
| `DnsEncoding.ReadBack` | core/src/main/jni/libevent/evdns.c:960-1013 | where a name has been written, name_parse returns what a reader can see of it |
| `DnsEncoding.WriteMessage` | core/src/main/jni/libevent/evdns.c:1532-1663 | any list of names below offset 16384 through one shared table, with other bytes between them: all stand in the finished message, one behind the other, and it succeeds whenever they are well-formed and there is room, in a buffer of exactly that room |
| `DnsEncoding.MessageReadsBack` | core/src/main/jni/libevent/evdns.c:959-1013 | every name of such a message comes back through name_parse with 256 bytes of room: the same name and the index right behind its encoding |
| `DnsServers.PickRotates` | core/src/main/jni/libevent/evdns.c:1335-1367 | a pick takes the first up server from the head on and makes it the last |
| `DnsServers.PicksInOrder` | core/src/main/jni/libevent/evdns.c:1335-1367 | consecutive picks go through the up servers in list order, and a full round leaves that order |
| `DnsServers.RoundRobin` | core/src/main/jni/libevent/evdns.c:1335-1367 | as many picks as there are up servers choose each of them exactly once and no other |
| `DnsServers.DownGoRound` | core/src/main/jni/libevent/evdns.c:1341-1346 | while no server is good picks go round the whole list, each server once |
| `DnsRequests.FreshId` | core/src/main/jni/libevent/evdns.c:1318-1329 | there is an unused id other than 0xffff as long as fewer than 65535 requests are in flight |
| `DnsRequests.DnsBase.Find` | core/src/main/jni/libevent/evdns.c:469-483 | the lookup in one bucket agrees with all requests in flight: the one with the id, or none if and only if there is none |
| `DnsRequests.DnsBase.TransactionIdPick` | core/src/main/jni/libevent/evdns.c:1318-1329 | the first draw that is not 0xffff and not in flight |
| `DnsRequests.DnsBase.AttachFlying` | core/src/main/jni/libevent/evdns.c:2720-2841 | insertion into the bucket of the id with both counters |
| `DnsRequests.DnsBase.DetachFlying` | core/src/main/jni/libevent/evdns.c:2682-2718 | removal from the bucket of the id with both counters |
| `DnsRequests.DnsBase.AttachWaiting` | core/src/main/jni/libevent/evdns.c:2837-2840 | insertion at the tail of the waiting list with its counter |
| `DnsRequests.DnsBase.Pick` | core/src/main/jni/libevent/evdns.c:1335-1367 | an up server whenever one is counted, none only for an empty list; the assertion on the way round is never reached |
| `DnsRequests.DnsBase.SwapServer` | core/src/main/jni/libevent/evdns.c:545-553 | the request changes server and both per-server counters follow |
| `DnsRuns.ServerFailed` | core/src/main/jni/libevent/evdns.c:558-615 | the count of good servers goes down once; if another server is good no unsent request stays with this one, and whoever moves goes to a good one |
| `DnsRuns.ServerUp` | core/src/main/jni/libevent/evdns.c:618-636 | the server counts as good again, its probe is cancelled first |
| `DnsRuns.AddServer` | core/src/main/jni/libevent/evdns.c:2541-2554 | the new server comes right behind the head and counts as good |
| `DnsRuns.Transmit` | core/src/main/jni/libevent/evdns.c:2238-2286 | no request in flight has id 0xffff; taken by the network the request counts as sent, blocked nothing changes, failed its server is down; all requests stay under their ids, none moves to another server unless one has failed, and then to a good one |
| `DnsRuns.TransmitAll` | core/src/main/jni/libevent/evdns.c:2345-2366 | the requests that are tried again and not blocked count as sent, the rest as for one |
| `DnsRuns.Pump` | core/src/main/jni/libevent/evdns.c:743-770 | first come first served, until nothing waits, the limit is reached or there is no server; while no server fails the requests launched go, in order, to the servers that picks in a row choose and nobody else moves, and in any case to servers that were good if one is left |
| `DnsRuns.Submit` | core/src/main/jni/libevent/evdns.c:2746-2841 | a new request is in flight if and only if the limit allows it and there is a server, otherwise it waits at the end; it is with a server that was good if there was one, and with the one picked while none fails |
| `DnsRuns.SubmitRound` | core/src/main/jni/libevent/evdns.c:2746-2841 | as many submits in a row as there are good servers put exactly one request on each of them while none fails |
| `DnsRuns.SendProbe` | core/src/main/jni/libevent/evdns.c:2315-2339 | a probe is in flight at once whatever the limit, to the server it is to probe while none fails |
| `DnsRuns.Finish` | core/src/main/jni/libevent/evdns.c:649-706 | the request is gone from the list that its server says, and no request waits that could fly |
| `DnsRuns.Reissue` | core/src/main/jni/libevent/evdns.c:715-735 | the request goes to the server picked; 1 exactly when that is the one it had; another good server is found if the last one is down |
| `DnsRuns.HalfwayStep` | core/src/main/jni/libevent/evdns.c:3386-3414 | moving one request to its new bucket keeps each request in exactly one list |
| `DnsRuns.Rehash` | core/src/main/jni/libevent/evdns.c:3386-3414 | every request ends up in the bucket of its id under the new number of buckets |
| `DnsRuns.SetMaxInflight` | core/src/main/jni/libevent/evdns.c:3386-3414 | the limit is clipped to at least 1, a fifth as many buckets, all lookups still right, or nothing changed without memory |
| `DnsRuns.Execute` | core/src/main/jni/libevent/evdns.c:648-770 | every run of submitting, probing, finishing, pumping, reissuing, swapping, transmitting, failing, recovering, adding servers and resizing keeps tables and counters in step, and each call does what it is for, given by what can be seen before and after it |
| `DnsRuns.TablesTell` | core/src/main/jni/libevent/evdns.c:303-332 | in every reachable state a request waits if and only if it has no server, is otherwise in the bucket of its id and no other, and the counters are the list sizes |
| `DnsRuns.GoodServersTakeTurns` | core/src/main/jni/libevent/evdns.c:1334-1367 | global_good_nameservers picks in a row choose each good server once and no other |
| `Tagging.IntReads` | core/src/main/jni/libevent/event_tagging.c:117-150 | integers round-trip whatever follows, with the exact number of bytes |
| `Tagging.TagReads` | core/src/main/jni/libevent/event_tagging.c:174-194 | 32-bit tags round-trip whatever is around them, in at most five bytes |
| `Tagging.ParseTagBound` | core/src/main/jni/libevent/event_tagging.c:197-242 | a tag that is read fits 32 bits and five bytes |
| `Tagging.RecordReads` | core/src/main/jni/libevent/event_tagging.c:257-263 | one record is read back exactly and no byte behind it is touched, if and only if at most SSIZE_MAX bytes are behind its tag |
| `Tagging.TooMuchBehind` | core/src/main/jni/libevent/event_tagging.c:315-322 | two gigabytes behind a record, and it cannot be read, though alone it can |
| `Tagging.HeaderArrives` | core/src/main/jni/libevent/event_tagging.c:402-417 | of a record that arrives byte by byte the header is read as soon as it is there and not before |
| `Tagging.StreamReads` | core/src/main/jni/libevent/event_tagging.c:254-313 | any list of records is recovered in order and what follows the list is left, if and only if at most SSIZE_MAX bytes are behind the first tag |
| `Tagging.TaggedReads` | core/src/main/jni/libevent/event_tagging.c:485-508 | a marshalled integer is read back if and only if its own tag is wanted and at most SSIZE_MAX bytes are behind that |
| `TagStreams.EncodeInt` | core/src/main/jni/libevent/event_tagging.c:117-150 | the nibble loop fills the array with the encoding, for 32 and 64 bits |
| `TagStreams.DecodeInt` | core/src/main/jni/libevent/event_tagging.c:315-373 | the nibble loop reads the number back, and it never leaves its width; more than SSIZE_MAX bytes are taken for none |
| `TagStreams.EncodeTag` | core/src/main/jni/libevent/event_tagging.c:174-194 | the loop fills at most five bytes with the tag |
| `TagStreams.DecodeTag` | core/src/main/jni/libevent/event_tagging.c:197-242 | the shifting loop reads the tag, or fails exactly when it is cut short or too long |
| `TagStreams.Stream.Marshal` | core/src/main/jni/libevent/event_tagging.c:257-263 | exactly the record is appended |
| `TagStreams.Stream.UnmarshalHeader` | core/src/main/jni/libevent/event_tagging.c:438-451 | succeeds exactly when a whole record is there and can be read; the length comes back as an int that is never taken for the failure; what it has read is drained even when it then fails |
| `TagStreams.Stream.Unmarshal` | core/src/main/jni/libevent/event_tagging.c:467-480 | the first record, and exactly its bytes are drained |
| `TagStreams.Stream.Consume` | core/src/main/jni/libevent/event_tagging.c:454-462 | exactly the bytes of the first record are drained |
| `TagStreams.Stream.MarshalInt` | core/src/main/jni/libevent/event_tagging.c:276-298 | a 32- or 64-bit integer is appended as a record of its nibbles |
| `TagStreams.Stream.PeekLength` | core/src/main/jni/libevent/event_tagging.c:402-417 | the length in 32-bit arithmetic, which is what consume drains |
| `TagStreams.PeekEarly` | core/src/main/jni/libevent/event_tagging.c:402-417 | the length of the whole record is told as soon as its header is there, and not before |
| `TagStreams.Stream.UnmarshalInt` | core/src/main/jni/libevent/event_tagging.c:484-534 | the integer under the wanted tag, its record drained |
| `TagStreams.WriteAll` | core/src/main/jni/libevent/event_tagging.c:254-263 | a list of records is appended to whatever the buffer holds |
| `TagStreams.ReadAll` | core/src/main/jni/libevent/event_tagging.c:437-482 | a list of records is read back in order and what is behind it stays, if and only if at most SSIZE_MAX bytes are behind the first tag |
| `TagStreams.ReadInt` | core/src/main/jni/libevent/event_tagging.c:484-534 | a 32- or 64-bit integer comes back as it went and what is behind it stays, if and only if at most SSIZE_MAX bytes are behind its tag |
| `RateLimits.RefillIsMin` | core/src/main/jni/libevent/bufferevent_ratelim.c:84-106 | the refill by division in 32-bit arithmetic is the plain refill cut off at the maximum |
| `RateLimits.RefillIsMinIff` | core/src/main/jni/libevent/bufferevent_ratelim.c:84-106 | for any limit the refill is the plain one if and only if the bucket is not over its maximum or so many ticks pass that the wrapped difference is used up |
| `RateLimits.OverfullGrows` | core/src/main/jni/libevent/bufferevent_ratelim.c:84-106 | one byte over the maximum, and the next tick adds its rate on top |
| `RateLimits.OverfullSinks` | core/src/main/jni/libevent/bufferevent_ratelim.c:84-106 | a bucket refunded to the brim of its type turns negative at the next tick |
| `RateLimits.ElapsedIsGap` | core/src/main/jni/libevent/bufferevent_ratelim.c:78-85 | wrapping tick counters tell every gap of up to INT_MAX ticks |
| `RateLimits.UpdatedIs` | core/src/main/jni/libevent/bufferevent_ratelim.c:74-111 | over real ticks the update is min(maximum, limit + ticks * rate) |
| `RateLimits.Throughput` | core/src/main/jni/libevent/bufferevent_ratelim.c:197-258 | in every run, the bytes moved in ticks a to b are at most maximum + (b - a) * rate, whatever idling came before |
| `RateLimits.ThroughputWithin` | core/src/main/jni/libevent/bufferevent_ratelim.c:197-346 | the same for every stretch of steps, from the tick of its first to that of its last, with extra charges in between |
| `RateLimits.TransferNow` | core/src/main/jni/libevent/bufferevent_ratelim.c:197-346 | as much passes as is wanted and the updated bucket allows, and exactly that is taken off it |
| `RateLimits.Metered` | core/src/main/jni/libevent/bufferevent_ratelim.c:197-346 | the bound for a bucket itself, through its own calls: whatever is wanted of it and charged besides, at most maximum + (b - a) * rate bytes pass in ticks a to b |
| `RateLimits.RefilledIff` | core/src/main/jni/libevent/bufferevent_ratelim.c:74-111 | a bucket that is not full is refilled if and only if the tick counters are a gap of 1 to INT_MAX apart |
| `RateLimits.LongerTicksStall` | core/src/main/jni/libevent/bufferevent_ratelim.c:49-71 | after a new configuration with longer ticks an empty bucket gets nothing for a day, because last_updated stays in the old ticks |
| `RateLimits.Limited.UpdateBucket` | core/src/main/jni/libevent/bufferevent_ratelim.c:74-111 | both directions are refilled, and stay within their maxima if they were; last_updated becomes the tick exactly if ticks have passed |
| `RateLimits.Limited.BoundedRefillable` | core/src/main/jni/libevent/bufferevent_ratelim.c:74-111 | a refill exhausts no bucket that is not over its maximum |
| `RateLimits.Limited.RlimMax` | core/src/main/jni/libevent/bufferevent_ratelim.c:198-258 | after the update at most what is in the bucket, never negative; last_updated follows; an exhausted bucket is suspended afterwards if and only if the refill exhausts none that was not |
| `RateLimits.LookTwice` | core/src/main/jni/libevent/bufferevent_ratelim.c:198-258 | a second look in the same tick finds both limits as they are |
| `RateLimits.Limited.DecrementRead` | core/src/main/jni/libevent/bufferevent_ratelim.c:273-308 | reading is suspended if and only if the bucket is exhausted, and the timer is pending if and only if a direction is suspended, for charges and refunds of any size |
| `RateLimits.Limited.DecrementWrite` | core/src/main/jni/libevent/bufferevent_ratelim.c:311-346 | the same for writing |
| `RateLimits.Limited.DecrementReadLimit` | core/src/main/jni/libevent/bufferevent_ratelim.c:972-996 | a charge or refund keeps the same guarantee |
| `RateLimits.Limited.DecrementWriteLimit` | core/src/main/jni/libevent/bufferevent_ratelim.c:999-1025 | the same for writing |
| `RateLimits.Limited.RefillCallback` | core/src/main/jni/libevent/bufferevent_ratelim.c:394-439 | directions with bytes go on, the others stay suspended, and the timer is pending again exactly if one is; the guarantee is kept if and only if the refill exhausts no bucket that was not suspended |
| `RateLimits.Limited.SetRateLimit` | core/src/main/jni/libevent/bufferevent_ratelim.c:560-636 | a new limit starts with one tick of bytes, a changed one only clips, none ends all suspension; the guarantee is kept |
| `RateLimits.Perform` | core/src/main/jni/libevent/bufferevent_ratelim.c:272-439 | each call does to both limits what it should; whatever is called in whatever tick, an exhausted bucket is suspended, if and only if no refill exhausts a bucket that was not; while no refund lifts a bucket over its maximum none does |
| `Arc4.StepBack` | core/src/main/jni/libevent/arc4random.c:426-437 | no step loses state: the state before can be had from the state after |
| `Arc4.KeyedPermutation` | core/src/main/jni/libevent/arc4random.c:108-122 | any key leaves the table a permutation |
| `Arc4.Onto` | core/src/main/jni/libevent/arc4random.c:76-80 | a table without repetitions holds every byte |
| `Arc4.Generator.constructor` | core/src/main/jni/libevent/arc4random.c:97-105 | the identity table |
| `Arc4.Generator.AddRandom` | core/src/main/jni/libevent/arc4random.c:108-122 | 256 keyed steps on the table in place, the indices as the source leaves them, the table still a permutation |
| `Arc4.FirstKey` | core/src/main/jni/libevent/arc4random.c:108-122 | the first key of a new generator leaves the table that the key schedule of RC4 defines |
| `Arc4.Generator.GetByte` | core/src/main/jni/libevent/arc4random.c:426-437 | the indices, the exchange and the byte selected are those of RC4; the table is still a permutation |
| `Arc4.RefusedIs` | core/src/main/jni/libevent/arc4random.c:527-542 | the 32-bit computation of min is 2 to the 32 modulo the bound, for every bound from 2 on, and fewer than half of the draws are refused |
| `Arc4.Unbiased` | core/src/main/jni/libevent/arc4random.c:523-555 | every result below the bound comes from the same number of accepted draws |
| `Arc4.Uniform` | core/src/main/jni/libevent/arc4random.c:523-555 | the residue of the first accepted draw; 0 for bounds below 2 |

## Left out

- Chains are values: memory shared between chains (references, multicast, file segments), pinned chains and IOCP are not modelled.
- AddBuffer: does not model the wrap-around of total_len when two buffers together hold more than 32 bits can count, because the source does not check for it either.
- The counts n_add_for_cb and n_del_for_cb, callbacks, locks and reference counts of evbuffers.
- evbuffer_prepend_buffer, evbuffer_commit_space, evbuffer_expand_singlechain, evbuffer_search_eol and evbuffer_readln: they would add members of the kind already here, and the first two need preconditions of their own.
- CopyoutFrom: the pointer, if given, has to designate a place in this buffer; a stale pointer is the caller's error in the source too.
- ReadV: the number of bytes that arrive is free, their split over regions follows readv; the socket itself is not modelled.
- SearchRange: buffers of at most SSIZE_MAX bytes, because beyond that the source adds to signed positions until they overflow, which C leaves undefined.
- Execute: evbuffer_remove of more than SSIZE_MAX bytes at once is left out of the runs of EvbufferRuns, because it hands the bytes out and keeps them; Remove says so.
- TakeIn: does not say when a read without memory finds room in the chains that are there.
- Pullup: a negative size with more than SSIZE_MAX bytes behind the first chain is excluded, because the source asserts against it and stops.
- The edge-triggered bit, signals, evmap_reinit_ and the growth of the fd table.
- Lockstep: allocation never fails in these runs; EvmapDel and ForgetsDelete say what happens when it does.
- The event base sees the heap of deadlines as a set with a least element; EventHeap keeps the array of MinHeap and that set alike, call by call. min_heap_pop_ and min_heap_adjust_, which the base does not call in this configuration, are left out.
- Delete: an event that is adrift is excluded here and in the other calls that remove its timeout, because the source then erases from the heap by an index that shares its memory with list links; Undefined names these calls, and a run ends there.
- Threads: one thread holds the lock, so waiting for a running callback and waking the loop up are left out.
- Event priorities and the number of active queues do not change after they are set; deferred callbacks that are not events and the limits on callbacks per turn are left out.
- Add: an ordinary caller passes relative times; absolute ones come from a persistent event being armed again, with the common-timeout mark it had. A common timeout is one that the base has handed out.
- EventActiveLater: the internal events of common lists are nobody's to postpone, so they are excluded here.
- ProcessDue: the common callbacks run right after timeout_process; user callbacks that run between them are separate steps of a run.
- RunFirst: the user's callback itself is any further sequence of calls.
- DnsnameToLabels: an array cannot be written behind its end, so where Overruns holds the array has to have the cell that the source writes; with a table and offsets of 16384 or more a pointer cannot express the place and nothing is claimed.
- WriteMessage: where a name would be written behind a buffer without a spare cell, the message is given up before that byte.
- DNS packets other than names, sockets, timeouts, resolv.conf, hosts files, getaddrinfo, suspension, and search_try_next, which picks an id before the old request is finished.
- TransmitAll: which requests are tried again, and with what luck, is a parameter; the mark transmit_me and choked sockets are not modelled.
- SomeId: stands for transaction_id_pick on whatever the generator yields; that it can end is FreshId.
- SendProbe: fewer than 65535 requests are in flight, as otherwise the source would loop.
- SetMaxInflight: the caller's clip at 65000 is a precondition.
- UnmarshalHeader: the buffer holds no more than a size_t can count.
- Marshal: the buffer has memory and room for the record in a size_t; the source does not look at the results of its evbuffer_add calls.
- Timevals, strings and fixed-length payloads of event_tagging.c are thin layers over what is here.
- DecrementRead: the limit stays within a 32-bit ssize_t, because the source lets it overflow, which C leaves undefined.
- Rate-limit groups, with their random order and try-locks, and failures to add a timer.
- Seeding, reseeding after a number of bytes and process ids in arc4random.c.
- The Android code, the build scripts, the other libevent files and everything else in the repository.
