# purestd, modelled and proved in Dafny

purestd is a `std` that does without libc. This project models the parts of it that are
self-contained and hard to get right, and proves what they promise.

- **Futex synchronisation.** `Mutex`, `RwLock`, `Barrier` (with the condition variable inside
  it), the `mpsc` channel, thread parking and `thread::scope` are transition systems over
  any finite set of threads. One step is one atomic operation or one kernel call. A run is any
  legal sequence of steps, and the main lemmas speak about the state after every run. The kernel
  sleeps a thread only if the word still has the expected value, a wake removes one sleeper of
  the scheduler's choice or all of them, and any sleeper may return on its own; the loop
  of `futex_wait` is part of the model. `FutexMutex` is proved to refine an abstract lock,
  and `Barrier` and `Mpsc` are built over that lock. What each call answers is related to the
  history of the run, from the caller's side (`ClientStep`, `MpscAnswers`).
- **`HashMap`** is a class with the same `slots`, `len` and `used`; every method is proved to do
  to a mathematical map what its name says, runs of operations are compared with runs of the
  mathematical map, and the cost of growth is bounded. The hash is any function of the key.
- **The allocator** keeps real next pointers inside free blocks, in a memory the client may
  overwrite wherever a block is live. What `mmap` returns is a parameter, constrained only to be
  page-aligned and clear of everything mapped. Its methods take the steps of a transition
  system whose runs are then reasoned about.
- **SipHash-1-3** is proved equal, for every way to cut the input into chunks, to a one-shot
  specification written in the order of section 2 of the SipHash paper.
- **Buffered I/O** works over an inner reader or writer that follows an arbitrary script of
  short, interrupted and failing calls.
- **DNS messages** are read back from an encoder that follows sections 4.1 and 4.1.4 of
  RFC 1035; **paths** are compared with their split at `/`.

Modules and files have the same names, except that `Allocator.dfy` holds `Allocators` and
`HashMap.dfy` holds `HashMaps`. `Wrappers`, `Sequences`, `Threads`, `Arithmetic`, `Bits` and
`Condvar` are shared.

Atomics are sequentially consistent. Where a counter wraps, only the clauses that compare it carry
a bound, as a hypothesis on the run (`Bounded`): fewer than 2^32 notifies during one wait and 2^64
barrier generations for the clauses about sleepers of `Barrier` and `Mpsc`, and fewer than 2^31 live
readers for the clause about sleeping readers of `RwLock`. A finishing continuation of `Barrier` or
`Mpsc` also needs room for the notifies it adds (`Room`). Everything else is proved for every run.

Eight promises have limits. Each has a failing input and its exact condition:

- A sleeping `RwLock` reader waits for a writer or is about to be woken, until a step forgets it: a
  reader drops its guard when 2^31 were live, whose count passes for the writer's word
  (`RwLock.ReadersSafeExactly` is the iff over whole runs, `RwLock.ReadersSafeStep` for one step,
  `RwLock.ForgottenReader` a run with such a step). The writer
  bit is right if and only if fewer than 2^31 readers are live (`RwLock.BoundIsExact`). Exclusion,
  and that no sleeper of either kind is left behind by a free lock, need no bound.
- A blocked `recv` can return after the last sender's drop if and only if the notify did not fall
  between the receiver's load of `senders` and its load of `seq`
  (`MpscProgress.LastDropWakesIffNotMissed`; `Mpsc.LostDropWake` is a run that loses the wake).
- A layout is aligned as asked in every run if and only if the alignment is at most 4096, or no
  block is ever handed out for it (`AllocatorRuns.AlignmentIsExact`), although the code accepts
  alignments up to 16384 (`AllocatorRuns.Misaligned` is a run with a misaligned block).
- Reading lines gives the lines of the source if and only if the buffer has room or the source is
  empty (`BufferedIo.AllLines`, `BufferedIo.NoRoomNoLines`).
- A failed flush keeps the buffer whole, so content is conserved if and only if the inner writer
  stalls before it takes a byte (`BufferedIo.BufWriter.FlushBuf`, `BufferedIo.HalfFlushed`).
- A datagram cut short may parse although the whole does not, exactly when the cut falls behind a
  record's name in a message with a later name that does not end (`DnsLimits.CutParsesAlone`,
  `DnsLimits.CutOfMissingRecord`).
- Length bytes from 64 to 191, which RFC 1035 reserves, are skipped as labels, and so is a pointer
  whose second byte is missing: what is skipped is a name the format allows if and only if there is
  neither (`DnsLimits.AllowedIffShort`, `DnsLimits.ReservedLengthSkipped`,
  `DnsLimits.CutPointerSkipped`).
- The query builder does not enforce the 255-byte limit on a whole name; an accepted host keeps to
  it if and only if it has at most 253 bytes (`DnsLimits.NameWithinLimit`,
  `DnsLimits.LongHostAccepted`).

## Model

| member | source | states |
|---|---|---|
| FutexMutex.Safety | src/sync.rs:83-104 | after every run of any number of threads, exactly one thread holds the lock when the word is non-zero and none when it is zero; if any thread sleeps, the word is 2, an unlocker still owes its wake, or an awake contender is about to swap in 2 |
| FutexMutex.InvStep | src/sys_thread.rs:514-526 | the mutex invariant (exclusion, a wake coming for every sleeper) is inductive over every step, spurious returns and the re-check loop included |
| FutexMutex.FreeMeansNoSleepers | src/sync.rs:100-104 | in every reachable state, a free lock with no thread in transit has no sleeper |
| FutexMutex.RefinesLock | src/sync.rs:106-121 | each step is an acquire by the stepping thread of a lock nobody holds, a release by its holder, or invisible: the protocol refines an abstract lock |
| FutexMutex.RunRefinesLock | src/sync.rs:83-121 | every run of the protocol is a run of the abstract lock that ends with the same holder |
| FutexMutex.ClientStep | src/sync.rs:83-121 | every step moves its own thread as its call promises and no other: `lock` returns only with the lock, taken when nobody has it, and at its first step if nobody has it; `try_lock` never waits; `unlock` leaves the lock free |
| FutexMutex.TryLockIsExact | src/sync.rs:111-121 | any idle thread can call `try_lock`, which gets the lock if and only if nobody has it and otherwise changes nothing |
| FutexMutex.FastPath | src/sync.rs:83-104 | an undisturbed lock and unlock take one step each, owe no wake and restore the state |
| FutexMutex.WaitBounds | src/sync.rs:92-97 | a thread enters the futex wait only by swapping 2 over a held word, and leaves it only by loading a word that is not 2 |
| FutexMutex.NothingBlocks | src/sys_thread.rs:514-550 | every thread that is awake has a step, a sleeper can return on its own, and a wake can choose any sleeper |
| FutexMutex.Progress | src/sync.rs:91-97 | whenever a call is pending or the lock is held, some step that is neither a new call nor a spurious return brings the system closer to rest |
| FutexMutex.Drain | src/sys_thread.rs:546-550 | from every reachable state at most six steps per thread, with no new calls, finish every pending lock and unlock: no deadlock and no lost wake-up |
| FutexMutex.EveryScheduleEnds | src/sync.rs:83-104 | every run without new calls and spurious returns, under whatever schedule, has at most n(7n + 1) + 7n steps for n threads, and where none of its steps is possible any more every lock and unlock has returned: no livelock either |
| RwLock.Safety | src/sync.rs:183-230 | over every run: the word is the number of readers, at most 2^31, and there is no writer, or it is exactly RW_WRITER with one writer and no reader; any sleeper has a non-zero word or a pending wake-all; the high bit tells whether there is a writer if and only if fewer than 2^31 readers are live; and in runs with fewer than 2^31 readers throughout, a sleeping reader has the writer's word or a pending wake-all |
| RwLock.InvStep | src/sync.rs:253-282 | exclusion, counting and the clause for any sleeper are inductive over every step, guard drops and `try_` calls included, with no bound on readers |
| RwLock.CountSets | src/sync.rs:189-195 | the counting argument: one call entering or leaving the readers or the writers keeps word and sets in step, through 32-bit wrap-around |
| RwLock.ClientStep | src/sync.rs:183-260 | every step moves its own call as it promises and no other: `read` and `write` return only with their own guard; `try_write` gets its guard if and only if there is no reader and no writer, and otherwise changes nothing; `try_read` never waits, and is refused at once exactly if there is a writer or the count is full; a dropped guard owes a wake if and only if it was the last |
| RwLock.TryReadAlone | src/sync.rs:202-214 | an undisturbed `try_read` gets its guard unless there is a writer or the count is full |
| RwLock.WaitBounds | src/sync.rs:183-230 | a call enters the futex wait only on a word it just saw taken, and leaves it only by loading another one |
| RwLock.NothingBlocks | src/sync.rs:183-241 | every call can be made, go on, fail its weak exchange, and return from its sleep on its own |
| RwLock.NoWriterBitIsMask | src/sync.rs:186 | on 32 bits the test of the model is the mask test |
| RwLock.SleepStep | src/sync.rs:215-230 | no step leaves a sleeper without a holder or a wake-all to come, and readers only ever wait on the writer's word |
| RwLock.BoundIsExact | src/sync.rs:184-187 | in every state the writer bit is right if and only if fewer than 2^31 readers are live |
| RwLock.ReadersSafeStep | src/sync.rs:253-260 | a step keeps the clause for sleeping readers if and only if it is not a drop, without a wake, of one of 2^31 read guards while a reader sleeps |
| RwLock.ReadersSafeExactly | src/sync.rs:253-260 | in a run from the start, every state keeps the clause for sleeping readers if and only if no step of it is such a drop |
| RwLock.ForgottenReader | src/sync.rs:196-199 | a run in which 2^31 readers enter, one more sleeps on their count, one leaves, and the sleeper is left with neither a writer nor a wake |
| RwLock.Progress | src/sync.rs:183-241 | in every state the invariant allows that is not at rest some call can make progress |
| RwLock.Drain | src/sync.rs:276-282 | from every reachable state, however many readers, at most ten steps per call, with no new calls, give every pending call its guard and drop it |
| RwLock.EveryScheduleEnds | src/sync.rs:183-241 | every run without new calls and spurious failures, under whatever schedule, is shorter than a cubic bound in the number of calls, and where it cannot go on all is at rest |
| Barrier.Safety | src/sync.rs:481-496 | over every run: arrivals come in blocks of n, one generation each, the last of each block being its only leader; `count` stays below n and is the number of calls waiting for the current generation; a call of generation g returns only after all n arrivals of g, and the leader flag it returns is the one its arrival has in the history; and while no wait wraps, a sleeper of a finished generation has a `notify_all` still in progress |
| Barrier.OnlyIncompleteGenerationSleeps | src/sync.rs:403-437 | once nothing moves any more, the sleepers are exactly the `count` < n arrivals of the current, incomplete generation |
| Barrier.LogStep | src/sync.rs:483-490 | one arrival moves `count`, `generation` and the leader flag so that the history stays a sequence of full blocks and one partial one |
| Barrier.WaitStep | src/sync.rs:403-412 | every step keeps the condition-variable invariant: a waiter of a finished generation is awake, or waits on a stale `seq` with a notify to come |
| Barrier.BlockedStep | src/sync.rs:491-494 | every step keeps `count` equal to the number of calls waiting for the current generation |
| Barrier.RoleStep | src/sync.rs:486-495 | every step keeps each call's generation and role equal to those of its arrival |
| Barrier.EachCallReturnsItsPassage | src/sync.rs:481-496 | over every run, what a thread's calls return, in order, is its passages through the history of arrivals with their generation and leader flag, short only of the one in progress, and every call but that one has returned once |
| Barrier.WaitBounds | src/sync.rs:486-488 | the condition wait is left only when a changed 32-bit `seq` is loaded, and the loop at its test exactly if the 64-bit generation has changed |
| Barrier.NothingBlocks | src/sync.rs:481-496 | every call has a step unless it waits for the lock |
| Barrier.Drain | src/sync.rs:481-496 | from every state the invariant allows, with room for the notifies to come, at most 17 steps per call, with no new calls, return every call of a finished generation; what is left waits for one still incomplete |
| Barrier.EveryScheduleEnds | src/sync.rs:481-496 | every run without new calls and spurious returns, under whatever schedule, is shorter than a cubic bound in the number of calls, and where it cannot go on, if no wait wrapped, only calls of an incomplete generation have not returned |
| Mpsc.Safety | src/sync.rs:596-646 | over every interleaving: received then queued is exactly what was pushed, in push order; a send that returned Ok is in it exactly once with its value and one that handed its value back is not; disconnection is reported only when all pushed values were received and no sender is left; and while no wait has seen 2^32 notifies, the receiver never waits on the current `seq` past a message whose sender has bumped it, and on a stale one only while a wake is owed |
| MpscAnswers.AnswersAreRight | src/sync.rs:596-646 | over every run, as the clients see it: the values `recv` and `try_recv` returned, then the one about to be, are the values received, in order, a prefix of those pushed; each pushed value is the one its `send` was called with; every receiving call but the one in progress has one answer; only `try_recv` answers "empty"; after a report of disconnection there are only such reports; a value handed back is the caller's own, and the receiver is gone |
| MpscAnswers.AnswerIsRight | src/sync.rs:623-646 | where an answer is decided: the oldest value if there is any, otherwise disconnection if and only if no sender is left, otherwise "empty" from `try_recv` and a wait from `recv` |
| MpscAnswers.HandsBackIffGone | src/sync.rs:597-600 | `send` gives its value back if and only if the receiver was gone when it looked |
| MpscAnswers.GoneForGood | src/sync.rs:597-604 | a `send` called after the receiver is gone never pushes, whatever else happens |
| MpscAnswers.WaitBounds | src/sync.rs:644 | the receiver waits on the `seq` it loaded holding the lock, and leaves only by loading a 32-bit `seq` with another value |
| MpscAnswers.NothingBlocks | src/sync.rs:596-646 | every call can be made and go on unless it waits for the lock |
| Mpsc.CoreStep | src/sync.rs:596-646 | the lock, handle, order, exactly-once and disconnection invariants are inductive over every step of senders, droppers, cloners and the receiver, whether or not `seq` has wrapped |
| Mpsc.InvStep | src/sync.rs:403-436 | with them, and before a wrap, so is the invariant about the receiver's wait |
| Mpsc.NothingAfterDisconnect | src/sync.rs:624-646 | after a report of disconnection no run pushes or receives anything more |
| Mpsc.SleepsOnlyWhenDrained | src/sync.rs:635-646 | when every call has finished and no wait has seen 2^32 notifies, a sleeping receiver has received everything ever pushed |
| Mpsc.ParkedIffMissed | src/sync.rs:614-620 | when all senders are gone and all calls finished, the receiver waits on a `seq` nothing will bump if and only if the final notify fell between its load of `senders` and its load of `seq` |
| MpscProgress.LastDropWakesIffNotMissed | src/sync.rs:614-620 | then a `recv` in progress has a continuation in which it returns if and only if it did not miss that notify |
| MpscProgress.RecvReturns | src/sync.rs:635-646 | one that did not miss it returns by at most 14 steps of its own |
| MpscProgress.Drain | src/sync.rs:596-646 | from every state the invariant allows, with room for the notifies to come, a bounded continuation of the calls already made returns every send and drop, and the receiver's call if a value was queued for it; otherwise the receiver sleeps only with everything pushed received |
| MpscProgress.EveryScheduleEnds | src/sync.rs:596-646 | every run of the calls already made, under whatever schedule and without a wrap, has at most 120 steps a call and 14 more, and where it cannot go on the channel is settled |
| Mpsc.MissedIsForever | src/sync.rs:639-644 | a receiver that missed it stays in its wait in every continuation |
| Mpsc.LostDropWake | src/sync.rs:616-618 | a concrete run: the only sender is dropped, every call returns, and `recv` sleeps |
| Mpsc.MissedRun | src/sync.rs:403-412 | over every run the record of a missed notify is exact and permanent |
| Parker.Safety | src/thread.rs:232-260 | over every run with one owner and any unparkers: returns from untimed `park`, counted where the owner returns, never exceed tokens consumed, which never exceed unparks; a sleeping owner has no token or is owed a wake |
| Parker.OwnerCallStep | src/thread.rs:232-253 | a step that ends the owner's call takes the token if there is one, and ends an untimed call only if there is one; every other step takes nothing |
| Parker.UnparkStep | src/thread.rs:256-260 | `unpark` leaves a token, and calls the kernel if and only if there was none |
| Parker.WaitEnds | src/sys_thread.rs:514-544 | an untimed wait is left only when there is a token; a timed one, once its kernel call ends, is left for good and the call returns at its next step |
| Parker.TokenMakesParkReturn | src/thread.rs:232-235 | after an unpark, whatever other unparkers do meanwhile, the next `park` returns at its first step and consumes one token |
| Parker.NoLostToken | src/sys_thread.rs:514-550 | when every unpark has returned and a token is there, the owner is not asleep |
| Parker.TokenReturns | src/thread.rs:232-253 | from every reachable state with a token, at most three steps, the owner's and those of an unparker that owes its wake, return the owner's call |
| Parker.EveryScheduleEnds | src/thread.rs:232-253 | every run of owner steps and owed wakes, under whatever schedule, has at most 6(n + 1) steps for n unparkers, and where it cannot go on the owner's call has returned, or sleeps and there is no token |
| Parker.InvStep | src/thread.rs:247-260 | the token invariant is inductive over every step, timeouts and spurious returns included |
| ScopedThreads.Safety | src/thread.rs:422-428 | over every run with nested spawns: `scope` has returned only if every spawned closure has finished and stored its result; a parent asleep with nothing running is owed a store of `wake` or a wake call, although it resets `wake` itself |
| ScopedThreads.EachClosureRunsOnce | src/thread.rs:370-428 | in every run a closure runs to its end and stores its result at most once, and only if it was spawned; when `scope` has returned, exactly the spawned ones have |
| ScopedThreads.OnlyTheLastWakes | src/thread.rs:387-390 | the last thread counted off, and no other, stores to `wake` and wakes the parent |
| ScopedThreads.ParentStepLaw | src/thread.rs:422-428 | `scope` returns at its test exactly if no thread is live, and leaves the futex wait only when `wake` is 1 |
| ScopedThreads.NothingBlocks | src/thread.rs:370-428 | exactly the body and the closures that run can spawn, and every thread that is awake has a step |
| ScopedThreads.CountStep | src/thread.rs:375-391 | every step keeps `running` equal to the number of spawned closures not yet counted off |
| ScopedThreads.WakeStep | src/thread.rs:386-390 | every step keeps a wake-up on its way to a parent that waits for nothing |
| ScopedThreads.CanReturn | src/thread.rs:410-430 | from every reachable state at most five steps per thread and six more, none of them a spawn or a spurious return, make `scope` return |
| ScopedThreads.EveryScheduleEnds | src/thread.rs:422-428 | every run without spawns and spurious returns, under whatever schedule, has at most 50 steps a thread and eight more, and where it cannot go on `scope` has returned |
| HashTable.MaskedIndex | src/collections.rs:149-173 | `hash & mask` and `(i + 1) & mask` are the home slot and the cyclic successor when the capacity is a power of two |
| HashTable.ChainNext | src/collections.rs:155-172 | passing an occupied slot keeps the probe short of the first empty slot, so probing ends within one turn |
| HashTable.Fill | src/collections.rs:186-196 | filling the slot a probe reached adds exactly that key and keeps every chain, with exact effect on both counts, whether it was empty or a tombstone |
| HashTable.Overwrite | src/collections.rs:179-185 | overwriting a value updates exactly that key |
| HashTable.Bury | src/collections.rs:243-261 | a tombstone removes exactly that key and leaves every other reachable |
| HashTable.Absent | src/collections.rs:159-160 | an empty slot met after passing only other keys proves the key absent |
| HashMaps.CapacityFor | src/collections.rs:279-286 | the least power of two, at least 8, of which that many items are strictly less than seven eighths |
| HashMaps.EmptySlotFor | src/collections.rs:122-130 | the rehash loop ends at the first empty slot from the hash's home |
| HashMaps.Probe | src/collections.rs:149-173 | found if and only if the key is in the map, at its slot; otherwise the insertion slot is the first one from home that is not full, so the first tombstone passed is reused |
| HashMaps.Rehash | src/collections.rs:114-134 | moving every full slot by stored hash into a larger table keeps the map and sheds all tombstones |
| HashMaps.HashMap.WithCapacity | src/collections.rs:63-69 | an empty map whose only table is the smallest one, of at least eight slots, that holds that many entries under the load limit, and none for no entries |
| HashMaps.HashMap.GrowTo | src/collections.rs:114-134 | same map, new table of that size, `used` equal to `len` |
| HashMaps.HashMap.EnsureCapacity | src/collections.rs:136-143 | room for one more entry; nothing changes when there was room, and otherwise one table of eight slots or of twice the size, without tombstones, is allocated; growth is paid for by earlier inserts |
| HashMaps.HashMap.Insert | src/collections.rs:175-196 | the map updated at the key, the previous value returned; with room, exactly one slot is written, the key's own or if it has none the first from its home that is not full, tombstones included, and the load grows if and only if that slot was empty |
| HashMaps.HashMap.Get | src/collections.rs:199-215 | exactly what the map holds for the key |
| HashMaps.HashMap.GetMut | src/collections.rs:217-233 | a write through the reference changes exactly that entry |
| HashMaps.HashMap.Remove | src/collections.rs:243-261 | the map without the key, the removed value returned; exactly the key's slot becomes a tombstone, the table's size and load are untouched |
| HashMaps.HashMap.Entry | src/collections.rs:263-276 | makes room and finds the key's slot or the slot it would go to; the map stays as it is, the growth is charged like an insert |
| HashMaps.HashMap.EntryOrInsertWith | src/collections.rs:351-369 | inserts the default exactly when the key is absent, at the slot `insert` would use, and refers to what the map then holds |
| HashMaps.HashMap.Retain | src/collections.rs:558-569 | the closure, with whatever state it carries from call to call, is called once on each entry in slot order; exactly the entries it keeps stay, with the values it wrote |
| HashMaps.HashMap.Clear | src/collections.rs:79-85 | the empty map in the same table |
| HashMapRuns.Execute | src/collections.rs:114-276 | every sequence of operations, entries left vacant and stateful retain closures included, is reply by reply a run of the mathematical map, closures going over its entries in some order; one that cannot fill the table never grows it |
| HashMapRuns.RunsAgree | src/collections.rs:114-276 | without order-dependent closures a run is determined: any two maps, whatever their hashes and capacities, reply alike and end alike |
| HashMapRuns.StatelessRetained | src/collections.rs:558-569 | a closure without state leaves what it keeps of the map, in whatever order |
| HashMapRuns.RunFromNew | src/collections.rs:136-143 | a map from `new()` after N insert and entry calls and any number of others: its replies and content are a run of the mathematical map, and it has allocated tables of at most 5N + 8 slots in all |
| HashMapRuns.RunWithCapacity | src/collections.rs:63-69 | a map from `with_capacity(n)` after n insert and entry calls and any number of others: a run of the mathematical map, in the smallest table for n, the only one it ever allocated |
| HashMapRuns.OneKey | src/collections.rs:186-196 | any number of inserts and removes of one key from `new()` stays in the first table of eight slots with a load of at most one, because its tombstone is used again |
| HashMapRuns.Iter.Next | src/collections.rs:393-405 | yields the first entry still to come, or ends exactly when none is left |
| HashMapRuns.EntriesAreTheMap | src/collections.rs:86-91 | the entries in slot order are the map's, each exactly once |
| AllocatorHeap.Tiling | src/allocator.rs:77-79 | the blocks of an arena are disjoint, inside it and aligned to their size |
| AllocatorHeap.BlocksApart | src/allocator.rs:121-129 | any two blocks ever carved, of any class and arena, are disjoint |
| AllocatorHeap.PopInv | src/allocator.rs:141-146 | taking the head keeps every free list linked, acyclic, of its class and disjoint from what is live, and keeps free + live = arenas x blocks per arena |
| AllocatorHeap.PushInv | src/allocator.rs:149-155 | so does giving a block back |
| AllocatorHeap.CarveInv | src/allocator.rs:115-133 | so does threading a fresh arena onto a list |
| AllocatorHeap.OwnedIsNotFree | src/allocator.rs:149-155 | no address the client may write lies anywhere in a free block, next pointer included |
| AllocatorHeap.WriteInv | src/allocator.rs:135-147 | so the client can write anything inside its blocks without harm |
| Allocators.ClassFor | src/allocator.rs:64-74 | the smallest class whose blocks are at least the size and the alignment; none if and only if size or alignment is above 4096 |
| Allocators.RoundUpIsLeast | src/allocator.rs:34-37 | the mask arithmetic gives the least multiple that is large enough |
| Allocators.CarveArena | src/allocator.rs:121-130 | the carving loop writes each block's first word with the address of the next, the last with the old head, and nothing outside the arena |
| Allocators.Allocator.constructor | src/allocator.rs:91-96 | starts as the empty allocator, which satisfies the invariant |
| Allocators.Allocator.Refill | src/allocator.rs:115-133 | carves a fresh arena into the class's list, or changes nothing when mapping fails |
| Allocators.Allocator.AllocSmall | src/allocator.rs:135-147 | pops the head, asking for a 1 MiB arena exactly if the list is empty; null exactly when that fails, with nothing changed |
| Allocators.Allocator.FreeSmall | src/allocator.rs:149-155 | pushes the block onto its class's list |
| Allocators.Allocator.Alloc | src/allocator.rs:165-174 | a block returned overlaps no allocation, lies in mapped memory, is aligned for alignments up to 4096, and no word in the client's hands changes; null if and only if mapping was needed and failed or a large alignment exceeds 16384; the kernel is asked for 1 MiB only when the class has no free block, and for the size rounded up to 16 KiB only for a large request |
| Allocators.Allocator.Dealloc | src/allocator.rs:177-187 | exactly that allocation is given up and nobody else's data changes; a large one is unmapped at the length it was mapped with; null does nothing |
| Allocators.TookSafe | src/allocator.rs:135-147 | what every allocation step of a run guarantees |
| Allocators.GaveSafe | src/allocator.rs:177-187 | what every deallocation step of a run guarantees |
| Allocators.Reused | src/allocator.rs:135-155 | a small block given back is the next one of its class to be taken, and taking it restores the free lists |
| AllocatorRuns.Safety | src/allocator.rs:115-188 | in every state of every run of allocations, deallocations and arbitrary client writes: free lists are intact, per class arenas x blocks = free + live; and every block handed out was clear of all others, mapped and aligned |
| AllocatorRuns.AlignmentIsExact | src/allocator.rs:165-174 | for every size and power-of-two alignment: every block handed out in every run is aligned if and only if the alignment is at most 4096, or more than 16384 or the size 0, when none is handed out |
| AllocatorRuns.Misaligned | src/allocator.rs:28-28 | for every other layout, a run that hands out a misaligned block |
| AllocatorRuns.DataSurvives | src/allocator.rs:149-155 | over any stretch of any run, a word the client stored keeps its value until the client rewrites it or gives the block back |
| SipHash.PartialWord | src/hash.rs:16-26 | loads up to seven bytes as a little-endian word |
| SipHash.ShiftBytesIsShift | src/hash.rs:20-25 | shifting byte by byte is the source's `<< (8 * i)` |
| SipHash.Join | src/hash.rs:93-127 | bytes OR-ed in above a partial word extend it |
| SipHash.Sipround | src/hash.rs:35-52 | the round in the source's order is the round in the paper's order |
| SipHash.InitSpells | src/hash.rs:72-80 | the keyless state is the text "somepseudorandomlygeneratedbytes", eight characters to a word |
| SipHash.PaperRounds | src/hash.rs:35-54 | keyed state and rounds agree with the worked example in Appendix A of the SipHash paper |
| SipHash.ReferenceVectors | examples/sipcheck.rs:19-41 | the specification gives the repository's reference values for the empty and for the fifteen-byte message |
| SipHash.AbsorbWords | src/hash.rs:114-123 | the word loop absorbs exactly the complete words of the chunk |
| SipHash.SipHasher13.constructor | src/hash.rs:73-84 | the initial lanes for the two keys |
| SipHash.SipHasher13.TopUp | src/hash.rs:93-112 | the first part of a write completes the pending word or leaves a longer remainder |
| SipHash.SipHasher13.Write | src/hash.rs:93-127 | the lanes have absorbed all complete words so far, the tail is the little-endian remainder and `ntail` the length modulo 8 |
| SipHash.SipHasher13.Finish | src/hash.rs:129-141 | the specification's hash of everything written, with a wrapping length |
| SipHash.HashChunks | src/hash.rs:93-141 | for every key pair and every list of chunks, the result is the specification's hash of their concatenation |
| IoTraits.Sink.WriteAll | src/io.rs:321-331 | retries short and interrupted writes; exactly the bytes the script lets through are written, it succeeds exactly when those are all, and the error is the one the script stopped with |
| IoTraits.NothingAccepted | src/io.rs:321-331 | nothing gets through if and only if the writer fails or accepts nothing right after its interrupts |
| IoTraits.Copy | src/io.rs:633-646 | on success the writer got exactly what the reader held, on failure a prefix; success unless one side fails |
| BufferedIo.SplitIsExact | src/io.rs:784-805 | the reference split of a source into lines loses nothing and cuts only after newlines |
| BufferedIo.StripIsExact | src/io.rs:794-799 | bytes 13 10, or a lone 10, are taken off a line once, and nothing else is |
| BufferedIo.BufReader.constructor | src/io.rs:819-827 | nothing read, all of the source pending |
| BufferedIo.BufReader.FillBuf | src/io.rs:855-861 | nothing lost or delivered; what is buffered is kept; empty only at the end or without room |
| BufferedIo.BufReader.Consume | src/io.rs:862-865 | drops exactly that many pending bytes, at most what is buffered |
| BufferedIo.BufReader.Read | src/io.rs:840-852 | delivers the next pending bytes: the buffered ones without another inner read, past an empty buffer, left alone, for a destination at least as large; 0 only for an empty destination or at the end; an error loses nothing |
| BufferedIo.BufReader.ReadUntil | src/io.rs:739-765 | exactly the bytes up to the delimiter, however the source is cut into reads; a failure keeps the rest pending |
| BufferedIo.ReadThrough | src/io.rs:840-865 | any mix of operations, any capacity and any short, interrupted or failing inner reads: each operation delivers what it promises of the bytes the ones before it left (a read some if there are any, a consume what is asked and buffered, `read_until` exactly up to the delimiter); all that is delivered, then buffered, then unread is the source; no more operations fail than the inner reader has choices |
| BufferedIo.Lines.Next | src/io.rs:787-805 | the next line of the source without its newline and one carriage return before it, or the end, which a reader without room reports at once; when the source fails, the bytes taken and lost are part of one unfinished line |
| BufferedIo.AllLines | src/io.rs:784-805 | for every capacity and every schedule of short and interrupted reads, the lines are those of the source if and only if the capacity is at least 1 or the source is empty |
| BufferedIo.NoRoomNoLines | src/io.rs:739-765 | a source of one line read with capacity 0 has no lines |
| BufferedIo.BufWriter.FlushBuf | src/io.rs:900-906 | moves the buffer to the inner writer; it fails exactly when the script does not let all of it through, and then the content is conserved if and only if the inner writer stalls before it takes a byte |
| BufferedIo.HalfFlushed | src/io.rs:900-906 | two buffered bytes over a writer that takes one and fails become three |
| BufferedIo.BufWriter.Write | src/io.rs:909-920 | answers with the error of the flush it needed, what the inner writer says to data as large as the buffer, or success; the accepted bytes are appended to inner-then-buffered, the buffer stays within capacity; an error leaves exactly the bytes written twice that the script lets through before a flush fails, and none if no flush was due |
| BufferedIo.BufWriter.WriteAll | src/io.rs:321-331 | over any inner writer, success appends exactly the data; failure leaves the accepted prefix with at most one stretch of it written twice |
| BufferedIo.BufWriter.Drop | src/io.rs:927-931 | flushes what the inner writer takes of the buffer |
| BufferedIo.BufWriter.IntoInner | src/io.rs:891-899 | succeeds exactly when the inner writer takes the whole buffer, and then holds everything accepted; otherwise two attempts follow each other, each with what the script lets through |
| BufferedIo.BufWriter.Flush | src/io.rs:921-924 | on success everything accepted has been written and flushed by the inner writer; over one that is only short or interrupted, everything is written and at most the final interrupt is reported |
| BufferedIo.WriteThrough | src/io.rs:874-931 | any mix of `write`, `write_all` and `flush`, any capacity and any inner writer: each operation takes and reports what it promises of its data (`write_all` all unless it fails, `write` all that is smaller than the buffer), what fits is only buffered, a flush leaves nothing behind; inner then buffered bytes are the bytes taken, in order, with at most one stretch twice for each failed operation; no more are refused than the inner writer has choices; over one that is only short or interrupted none fails, and taken out it holds exactly what was reported as taken |
| Dns.SkipName | src/net.rs:560-573 | the loop computes the end of the name, or none, on arbitrary bytes, in bounds and terminating |
| Dns.SkipLax | src/net.rs:560-573 | labels of 1 to 191 bytes and an end are skipped exactly, wherever they stand |
| Dns.SkipEncoded | src/net.rs:560-573 | so every well-formed name, ended by the root or a pointer, is skipped exactly to its end |
| Dns.SkipOnlyNames | src/net.rs:560-573 | conversely, whatever is skipped reads as labels closed by a zero byte or a pointer |
| Dns.ParseDnsAnswers | src/net.rs:522-558 | both loops compute the parse, on arbitrary bytes, in bounds and terminating |
| Dns.ReadAnswers | src/net.rs:535-557 | the record loop keeps addresses in order and stops at a record that does not fit |
| Dns.ParseEncoded | src/net.rs:522-558 | for every encoded message the result is exactly the A (4-byte) or AAAA (16-byte) addresses of the asked type, in order |
| Dns.AddressesAreData | src/net.rs:546-553 | the addresses are, in order and byte for byte, the data of the records of the asked type, 1 with four bytes or 28 with sixteen |
| DnsLimits.ParseTruncated | src/net.rs:516-519 | for arbitrary bytes, if a message and a cut of it both parse, the addresses from the cut are the first of those from the whole |
| DnsLimits.FailsIffUnended | src/net.rs:535-557 | the record loop fails if and only if some record it reaches has a name that does not end |
| DnsLimits.CutParsesAlone | src/net.rs:516-519 | a cut parses although the whole does not if and only if the questions end in it, some record's name in the whole does not end, and the cut falls behind the name and before the end of a record |
| DnsLimits.CutOfMissingRecord | src/net.rs:535-541 | a 23-byte message that does not parse while its first 20 bytes do |
| DnsLimits.AllowedIffShort | src/net.rs:564-571 | what is skipped is a name of the format if and only if no length byte on the way is between 64 and 191 and its end lies inside the message |
| DnsLimits.ReservedLengthSkipped | src/net.rs:564-571 | a 64-byte label is skipped |
| DnsLimits.CutPointerSkipped | src/net.rs:564-566 | the single byte 192 is skipped with one that is not there |
| DnsLimits.NameWithinLimit | src/net.rs:499-506 | an accepted host's name takes two bytes more than the host, so it keeps to 255 bytes if and only if the host has at most 253 |
| DnsLimits.LongHostAccepted | src/net.rs:499-506 | a host of 254 bytes is accepted |
| Dns.BuildQuery | src/net.rs:494-508 | refused exactly when a label is empty or longer than 63; otherwise the encoding of a one-question message with the host's labels, spelled out byte for byte: recursion desired, one question, the asked type, class 1 |
| Dns.SplitDotsIsExact | src/net.rs:499-499 | the labels hold no dot and joined by dots are the host |
| Dns.QuestionSkipped | src/net.rs:494-533 | the question so built is skipped exactly to its end and the query parses as having no answers |
| Paths.Components.constructor | src/path.rs:349-354 | the iterator has all of the path's components to deliver |
| Paths.Components.Next | src/path.rs:311-333 | delivers the first remaining component of the split, never an empty or "." segment; ends exactly when none remains |
| Paths.JoinComponents | src/path.rs:54-58 | joining a relative path appends its components, an absolute one replaces them |
| Paths.PathBuf.Push | src/path.rs:101-112 | the same of the mutable path; its text is the base, one separator if and only if the base is non-empty and does not end with one, then the argument |
| Paths.PathBuf.Pop | src/path.rs:251-260 | becomes the strictly shorter parent, or stays and says so |
| Paths.Rebuild | src/path.rs:295-333 | pushing the components of any path back one by one gives a path with the same components |
| Paths.ParentShorter | src/path.rs:39-46 | a parent is strictly shorter |
| Paths.ParentComponents | src/path.rs:39-46 | the parent has the path's components without those of its last segment; only paths of at most one component have no parent |
| Paths.ParentText | src/path.rs:39-46 | the parent as text: without trailing separators, a single name or nothing has none, and otherwise it is what stands before the last name, or the root |
| Paths.PathShape | src/path.rs:39-46 | every path has one of those two shapes |
| Paths.PopUndoesPush | src/path.rs:249-260 | the parent of a joined name has the components of the base |
| Paths.Ancestors.Next | src/path.rs:339-346 | yields the current path and moves to its parent |
| Paths.AllAncestors | src/path.rs:355-357 | the iteration ends: it is the chain of parents from the path to one without a parent, at most one longer than the path |

## Left out

- Weak memory orderings: every atomic operation is sequentially consistent.
- Raw system calls, the macOS, WASI and fallback futexes, and the assembly around threads: the futex and `mmap` contracts are assumed.
- File system, process, environment, time, sockets, printing: plumbing over the kernel.
- `Once`, `OnceLock`, `LazyLock` and the join handshake of a plain thread: three-state protocols that would only add easy members.
- `notify_one` with several waiters, `Condvar::wait_while` and poisoning; the condition variable appears only inside the barrier and the channel.
- Schedules with unboundedly many new calls or spurious returns: the `EveryScheduleEnds` lemmas are about the calls already made, so starvation by newcomers is not excluded.
- Memory of a scope touched by a child after `scope` has returned.
- `HashSet`, the other map iterators and `and_modify`: thin layers over what is modelled.
- HashMaps.CapacityFor: integers are unbounded, so overflow of `usize` in table sizes is not modelled.
- Allocators.Allocator.Alloc: calls run one at a time, as under the spinlock, which is not modelled; memory is a map of words, so overlapping writes of different widths are not, and neither is address-space overflow or the wasm `map`.
- UTF-8 validation in `read_line` and `lines`, and vectored, formatted and seeking I/O.
- Dns.ParseEncoded: authority and additional sections are arbitrary bytes after the answers, which the parser does not read.
- Sending the query, choosing a server and the hosts file.
- `extension`, `file_stem`, `starts_with`, `ends_with`, `strip_prefix`, `set_file_name` and `set_extension` of paths.
