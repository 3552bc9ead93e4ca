# A verified model of the chatting server's hard parts

The project models seven components of the server and of the MySQL connector headers it ships
with, each in the form its source has: shared-memory protocols as transition systems with one
step per access, and objects as classes whose methods update fields in place and are proved
against functions of the old state.

| files | component |
|---|---|
| `StackMachine`, `StackInvariant`, `StackSteps`, `StackTheorems`, `StackConservation`, `StackSolo`, `StackWrap`, `LockFreeStack` | `LockFreeStack<T>`: a stack whose head is a (pointer, ID) pair swapped by a 128-bit compare-exchange, with recycled nodes and a count that gates Pop |
| `QueueMachine`, `QueueInvariant`, `QueueSteps`, `QueueTheorems`, `QueueProgress`, `QueueSolo` | `LockFreeQ<T>` (ENQ_MODE 2): a queue whose nodes are linked by one compare-exchange and passed by the rear in another, with unique end markers, helping, recycled nodes and a count that gates DeQ |
| `RingLog`, `MemoryLog` | `MemoryLogging_New` and the two-counter `MyMemoryLog`: ticketed ring logs |
| `TlsConnector`, `TlsConnectorObject` | `TLSRedisConnector::GetPointerTLS`: one connector per thread, in a bounded shared array |
| `Variant` | `sql::Variant`: a handle that owns an impl that owns a heap value |
| `CollectionOptions` | `CollectionValidation` and `CollectionOptions`: option lists with rollback |
| `Common`, `Tallies`, `Schedules` | the machine's integers, the counting of threads that both element counters need, and calls interleaved with a schedule |
| `Settings` | `Settings_impl`: last-wins options, derived flags, in-place erasure |

`dafny verify dfyconfig.toml` checks everything.

## How to read it

**The stack.** `StackMachine.Exec` performs one access of one thread; a run is any sequence of
such accesses, so the theorems speak of every interleaving of any number of threads. The first
read of the head is torn (`_TopPtr` and `_ID` are two accesses), `_Next` is read between them and
the CAS, and the pool may overwrite a node it owns at any time. `stack`, `ops` and each thread's
`hist` are history variables: no branch reads them except to record. The invariant
`StackInvariant.Inv` ties them to the memory: the nodes reachable from the head are the abstract
stack, each node outside the pool has one holder, `m_Count` is accounted for, and a snapshot of
the head is as old as its `_ID` says. `LockFreeStackObject` then runs Push and Pop statement by
statement on mutable fields, with an arbitrary schedule of everyone else between any two accesses,
and shows each call to be such a run.

Two facts about integer widths are hypotheses of the runs (`WithinWidths`). No Pop attempts its
CAS when a positive multiple of 2^64 CASs have succeeded since its read of `_ID`: any other stale
CAS fails harmlessly and is covered. `CasHitsExactly` says when such a CAS succeeds,
`ListSurvivesExactly` when the list survives it, and `WindowIsTight` gives a run that ends in one
that destroys the list. The list stays below 2^31 - 1 nodes and there are at most 2^31 threads, so
that the 32-bit `m_Count` does not wrap.

**The queue.** The history lists every node ever linked (`chain`), and the front and the rear are
two places in it that only move forward. The last node's `_Next` holds a marker drawn for it alone,
so that what a thread knows after its torn read is the place of the ID it read. `m_Count` is what
keeps the front from passing a rear that lags: `ReservedMeansBehind` derives from the account of
the count, and from the thread that has linked but not counted yet, that a granted DeQ finds the
front strictly behind the rear. The hypotheses are those of the stack, for the front's ID only, and
that markers do not overflow 2^63. The source remarks, where DeQ meets an end marker, that the
cause would not be a recycled node; `EndMeansRecycled` shows that it always is one. DeQ goes on
with the same stale front then: `DeqReturnsExactly` says, for every reachable state, which granted
DeQs return when they run alone, and `DeqCanSpin` that one can wait for ever on a queue that is not
empty. EnQ rereads the rear in every turn, and `EnqReturns` shows that it always returns, past a
rear that another thread left behind as well.

**The ring log.** A ticket is drawn atomically; the slot is then zeroed and written one word at a
time, so writers interleave inside entries. The hypothesis is that the newest ticket stays less
than MAX_SIZE ahead of the oldest unfinished one (`WithinRing`). `SharesExactly` shows that the
next ticket shares a slot exactly when this fails, and `LappedWriterOverwrites` gives, for every
size, a run in which the result then fails. Tickets do not reach 2^64.

**The connectors.** The object's methods make the accesses of any thread on real fields and
heap objects, with an arbitrary schedule between two accesses of a call, so the destructor is
proved from every state that concurrent callers can leave. A store past the end of the array is
recorded instead of being given an effect; `OneTooManyOverruns` is an input that makes one.

**Variant.** Memory is explicit: allocation takes an unused address and deletion removes it, so
that a double delete or a read of a deleted address violates a precondition. `Effects` is the
meaning of a program when Variants are plain values; `Memory.Execute` is proved equal to it.

**Options.** An argument carries the tag of the C++ type that selects the `do_set` specialisation;
the generic one throws. LEVEL accepts `Level` and `std::string` but not a C string, as in the
source. The documentation of VALIDATION (`common_constants.h`, lines 297-298) allows a
`CollectionValidation` or a JSON string; the code has a specialisation for the former only, and the
model follows the code: `JsonTextIsRefused` shows the difference, `ValidationAlone` and
`SucceedsExactly` what is accepted. That LEVEL or SCHEMA before VALIDATION is refused, and accepted
after it when the value did not carry them, is in the code only.

**Settings.** The comment on `has_option` explains the was-set flags of the three list options;
`erase` does not reset them, so such an option can be reported as present after being erased.
`HasOptionAfterErase` says exactly when.

## Model

| member | source | states |
|---|---|---|
| `StackTheorems.RunsAreLifo` | SingleThread_ChattingServer_LoginVer/LockFreeStack.h:112-168 | Every run of any number of threads from an empty stack is a LIFO history of its successful CASs (each popped value is the one a sequential stack has on top), and each thread's Push arguments and Pop results are, in order, its own operations in that history. |
| `StackTheorems.StepRefines` | SingleThread_ChattingServer_LoginVer/LockFreeStack.h:131-135 | One access refines at most one abstract operation: a Push takes effect at its successful CAS, a Pop at its own, where the node it unlinks carries the value on top; no other access is visible. |
| `StackTheorems.PushRefines` | SingleThread_ChattingServer_LoginVer/LockFreeStack.h:131-135 | A Push CAS that succeeds puts its argument on top, nothing else. |
| `StackTheorems.PopRefines` | SingleThread_ChattingServer_LoginVer/LockFreeStack.h:155-158 | A Pop CAS that succeeds removes exactly the top, and the data it will read is the removed value. |
| `StackSteps.NoABA` | SingleThread_ChattingServer_LoginVer/LockFreeStack.h:153-164 | Whenever a Pop's CAS succeeds, its node is the one on top now and the _Next it installs is the true successor, whatever was recycled since its torn first read. |
| `StackSteps.IdWraps` | SingleThread_ChattingServer_LoginVer/LockFreeStack.h:60-64 | Two 64-bit _ID values are equal if and only if the numbers of successful CASs behind them agree modulo 2^64. |
| `StackTheorems.CasHitsExactly` | SingleThread_ChattingServer_LoginVer/LockFreeStack.h:153-157 | A Pop CAS on the head's pointer succeeds if and only if its snapshot is a multiple of 2^64 successful CASs old; under the hypothesis of the runs, if and only if it is not stale. |
| `StackTheorems.ListSurvivesExactly` | SingleThread_ChattingServer_LoginVer/LockFreeStack.h:153-157 | A Pop CAS that succeeds, at whatever age of its snapshot, keeps the whole invariant if and only if the _Next it read is still the successor of the node on top. |
| `StackWrap.WindowIsTight` | SingleThread_ChattingServer_LoginVer/LockFreeStack.h:60-64 | The hypothesis cannot be dropped: a run within it ends one step before a CAS at a distance of exactly 2^64 that succeeds and leaves the head on a node the pool owns. |
| `StackSteps.StepInv` | SingleThread_ChattingServer_LoginVer/LockFreeStack.h:112-168 | Every access of every thread, and every write of the pool to its own nodes, keeps the invariant (chain, ownership, count account, per-thread snapshots, call histories). |
| `StackSteps.RunInv` | SingleThread_ChattingServer_LoginVer/LockFreeStack.h:112-168 | The invariant holds in every state of every run within the integer widths; a Pop whose CAS fails at any distance is among them. |
| `StackInvariant.InitInv` | SingleThread_ChattingServer_LoginVer/LockFreeStack.h:85-94 | The constructed stack (null top, _ID -1, count 0) meets the invariant. |
| `StackSteps.CountAccount` | SingleThread_ChattingServer_LoginVer/LockFreeStack.h:137-149 | The interlocked increments and decrements of m_Count never wrap and keep its account: linked minus uncounted pushers minus reserved poppers minus failing poppers. |
| `StackTheorems.CountGate` | SingleThread_ChattingServer_LoginVer/LockFreeStack.h:145-157 | m_Count plus failing poppers equals linked minus uncounted minus reserved and is never negative; hence a reserved Pop never meets a null top, and at rest m_Count is the length. |
| `StackInvariant.ReservedMeansLinked` | SingleThread_ChattingServer_LoginVer/LockFreeStack.h:145-157 | A Pop that passed the gate guarantees a linked node, with a written _Next, until its CAS. |
| `StackTheorems.NeverCrashes` | SingleThread_ChattingServer_LoginVer/LockFreeStack.h:142-168 | In no reachable state does a thread read _Next or data at null or at an address that was never a node, or free a node that is already in the pool. |
| `StackTheorems.ExclusiveOwnership` | SingleThread_ChattingServer_LoginVer/LockFreeStack.h:120-164 | A node is outside the pool if and only if it is linked or held by a thread; never both, never by two threads, never linked twice. |
| `StackTheorems.LinkedNodesAreStable` | SingleThread_ChattingServer_LoginVer/LockFreeStack.h:124-135 | While a node stays linked, no access of anyone changes its _Next or its data. |
| `StackTheorems.ListInMemory` | SingleThread_ChattingServer_LoginVer/LockFreeStack.h:50-64 | Following _Next from _TopPtr in memory visits exactly the abstract stack's nodes and values, without repetition, and ends at null. |
| `StackTheorems.LengthAndId` | SingleThread_ChattingServer_LoginVer/LockFreeStack.h:85-94 | Length is pushes minus pops; _ID + 1 is their sum modulo 2^64, and equal to it before the first wrap. |
| `StackTheorems.ProgressBound` | SingleThread_ChattingServer_LoginVer/LockFreeStack.h:129-157 | Inside one call at most as many CASs fail as other threads completed since the call read _TopPtr, the attempt after the torn read included. |
| `StackTheorems.AttemptsAreCounted` | SingleThread_ChattingServer_LoginVer/LockFreeStack.h:129-157 | The failures counted are the failed CASs, from zero at the read of _TopPtr on; that read and the reads of _ID, a failed CAS's reload included, note how many CASs had succeeded. |
| `StackTheorems.CasByOthersIs` | SingleThread_ChattingServer_LoginVer/LockFreeStack.h:129-157 | The bound counts exactly the successful CASs of other threads since then. |
| `StackTheorems.CallsAreRecorded` | SingleThread_ChattingServer_LoginVer/LockFreeStack.h:112-168 | What the theorems call a thread's arguments, results and refusals is what its calls were given, handed out and refused. |
| `StackTheorems.PoolIsArbitrary` | SingleThread_ChattingServer_LoginVer/LockFreeStack.h:120-164 | The pool may hand out any node that is in nobody's hands and may write anything to its own. |
| `StackTheorems.UndisturbedCasSucceeds` | SingleThread_ChattingServer_LoginVer/LockFreeStack.h:129-157 | A CAS with no success by anyone since its snapshot succeeds, be it a retry or a first attempt whose two reads were not torn apart by a success. |
| `StackTheorems.WeakEmptiness` | SingleThread_ChattingServer_LoginVer/LockFreeStack.h:145-149 | Pop is refused if and only if the linked nodes are no more than uncounted pushers, reserved poppers and other failing poppers; with nobody in between, if and only if the list is empty. |
| `StackConservation.ValuesConserved` | SingleThread_ChattingServer_LoginVer/LockFreeStack.h:112-168 | In every reachable state the multiset of linked-so-far values equals handed out plus unlinked but unread plus still linked. |
| `StackConservation.ReplayConserves` | SingleThread_ChattingServer_LoginVer/LockFreeStack.h:112-168 | For every LIFO history: pushed equals popped plus what is left. |
| `StackConservation.PoppedAreHeldOrHanded` | SingleThread_ChattingServer_LoginVer/LockFreeStack.h:155-164 | What the first n threads popped is what they handed out plus what they hold unread. |
| `StackSolo.SoloPush` | SingleThread_ChattingServer_LoginVer/LockFreeStack.h:112-140 | A Push that runs undisturbed puts its value on top, counts it, and uses the node it was given. |
| `StackSolo.SoloPop` | SingleThread_ChattingServer_LoginVer/LockFreeStack.h:142-168 | A Pop that runs undisturbed with a positive count returns and frees the top. |
| `StackSolo.SoloRefusal` | SingleThread_ChattingServer_LoginVer/LockFreeStack.h:145-149 | A Pop that runs undisturbed with a count of zero returns false and changes nothing. |
| `StackSolo.SequentialStack` | SingleThread_ChattingServer_LoginVer/LockFreeStack.h:142-181 | With no other call in flight, Pop returns the top when the list is not empty and false when it is empty. |
| `LockFreeStackObject.LockFreeStack.constructor` | SingleThread_ChattingServer_LoginVer/LockFreeStack.h:85-94 | The new object is the initial state of the transition system. |
| `LockFreeStackObject.LockFreeStack.Push` | SingleThread_ChattingServer_LoginVer/LockFreeStack.h:112-140 | Push, with an arbitrary schedule of the others in every gap between its accesses, returns true, is a run of the transition system, and adds exactly its argument to its thread's operations. |
| `LockFreeStackObject.LockFreeStack.Pop` | SingleThread_ChattingServer_LoginVer/LockFreeStack.h:142-168 | Pop, with an arbitrary schedule of the others in every gap between its accesses, is a run of the transition system, never faults, and returns exactly the value its own operation took from the abstract stack. |
| `LockFreeStackObject.LockFreeStack.PushExchange` | SingleThread_ChattingServer_LoginVer/LockFreeStack.h:135 | The 128-bit compare-exchange of Push: it succeeds if and only if both halves match, and reloads both halves when it fails. |
| `LockFreeStackObject.LockFreeStack.PopExchange` | SingleThread_ChattingServer_LoginVer/LockFreeStack.h:157 | The 128-bit compare-exchange of Pop, likewise. |
| `LockFreeStackObject.ForeignKeeps` | SingleThread_ChattingServer_LoginVer/LockFreeStack.h:112-168 | Whatever other threads and the pool do between two accesses, a thread's own locals stay as they were. |
| `LockFreeStackObject.CallEffect` | SingleThread_ChattingServer_LoginVer/LockFreeStack.h:112-168 | A completed call's arguments and results are exactly the operations recorded for its thread. |
| `LockFreeStackObject.LockFreeStack.GetStackCount` | SingleThread_ChattingServer_LoginVer/LockFreeStack.h:177-181 | Returns m_Count, which is the list's length when nobody is inside a call. |
| `LockFreeStackObject.LockFreeStack.Destroy` | SingleThread_ChattingServer_LoginVer/LockFreeStack.h:96-110 | At rest the destructor frees every linked node exactly once, in list order, and leaves no node outside the pool. |
| `RingLog.LastEntriesSurvive` | SingleThread_ChattingServer_LoginVer/MemoryLog.h:325-335 | When all calls have returned, after n calls the buffer holds exactly the last min(n, MAX_SIZE) entries: the k-th entry logged, word for word, in slot k mod MAX_SIZE, but for the stamp in its first word, and zeros elsewhere; for every interleaving of word-sized writes inside the window. |
| `RingLog.PayloadIsKept` | SingleThread_ChattingServer_LoginVer/MemoryLog.h:332-334 | The entry of every ticket stays that of the call that drew it, but for its stamp. |
| `RingLog.TicketIsDrawn` | SingleThread_ChattingServer_LoginVer/MemoryLog.h:332 | Every call of a free thread whose entry fits draws the next ticket. |
| `RingLog.NoSharing` | SingleThread_ChattingServer_LoginVer/MemoryLog.h:332-334 | Two unfinished writers never have the same slot. |
| `RingLog.SharesExactly` | SingleThread_ChattingServer_LoginVer/MemoryLog.h:332 | The next ticket has the slot of an unfinished writer if and only if it is MAX_SIZE tickets ahead of it. |
| `RingLog.LappedWriterOverwrites` | SingleThread_ChattingServer_LoginVer/MemoryLog.h:325-335 | Beyond the window the result fails: in a run within it up to the one ticket that is MAX_SIZE ahead of a stalled writer, that writer ends with its old entry in the newer ticket's slot, for any MAX_SIZE and any two different entries. |
| `RingLog.RunInv` | SingleThread_ChattingServer_LoginVer/MemoryLog.h:325-335 | The ring invariant (each slot zeroed, half written or complete as its writer's position says) holds in every state of every run. |
| `RingLog.InitInv` | SingleThread_ChattingServer_LoginVer/MemoryLog.h:268-273 | The constructed log meets the invariant. |
| `RingLog.StampsAreDistinct` | SingleThread_ChattingServer_LoginVer/MemoryLog.h:391-404 | With the second counter, the stamps 1..n are dealt to the n calls one to one, in every run, however far apart the tickets. |
| `RingLog.StampsAgreeExactly` | SingleThread_ChattingServer_LoginVer/MemoryLog.h:398-400 | Ticket k carries stamp k, for every k, if and only if every call drew its number while as many numbers had been drawn as tickets precede its own. |
| `RingLog.StampsCanDisagree` | SingleThread_ChattingServer_LoginVer/MemoryLog.h:391-404 | Ticket order and stamp order can differ: for any MAX_SIZE of at least two and any two entries of four to ten words, two overlapping calls end with stamp 2 on ticket 1 and stamp 1 on ticket 2. |
| `MemoryLogObject.MemoryLogging.constructor` | SingleThread_ChattingServer_LoginVer/MemoryLog.h:268-273 | The new object is the initial state of the transition system. |
| `MemoryLogObject.MemoryLogging.Append` | SingleThread_ChattingServer_LoginVer/MemoryLog.h:325-335 | A call with an arbitrary schedule of the others in every gap between its accesses takes the next ticket; within the ring it ends with its entry, stamped where there is a stamp, in slot ticket mod MAX_SIZE, word for word and zeros behind it. |
| `MemoryLogObject.MemoryLogging.ZeroMemory` | SingleThread_ChattingServer_LoginVer/MemoryLog.h:333 | Zeroing, word by word under interference, ends with the slot ready for the stamp or the entry. |
| `MemoryLogObject.MemoryLogging.Assign` | SingleThread_ChattingServer_LoginVer/MemoryLog.h:334 | The assignment, word by word under interference, leaves the whole entry in the slot of the call's ticket. |
| `MemoryLogObject.MemoryLogging.DrawStamp` | SingleThread_ChattingServer_LoginVer/MemoryLog.h:400 | The number drawn from m_Count becomes the first word of the entry. |
| `MemoryLogObject.ForeignKeeps` | SingleThread_ChattingServer_LoginVer/MemoryLog.h:325-335 | Other calls never move a thread that is inside its own. |
| `MemoryLogObject.MemoryLogging.Clear` | SingleThread_ChattingServer_LoginVer/MemoryLog.h:337-343 | While nobody logs, everything is zero and both counters start again. |
| `TlsConnectorModel.IndicesInBounds` | SingleThread_ChattingServer_LoginVer/RedisConnector.cpp:118-137 | With at most threadCount distinct callers, no store leaves the array at any moment of any run. |
| `TlsConnectorModel.OneConnectorPerThread` | SingleThread_ChattingServer_LoginVer/RedisConnector.cpp:118-137 | In every run each thread always gets the one connector it created, and no two threads get the same. |
| `TlsConnectorModel.CallIsRecorded` | SingleThread_ChattingServer_LoginVer/RedisConnector.cpp:118-121 | A call that finds a connector returns it; one that does not returns nothing yet. |
| `TlsConnectorModel.StepIsRecorded` | SingleThread_ChattingServer_LoginVer/RedisConnector.cpp:133-136 | A first call returns the connector it enters as the thread's, and no other access returns anything. |
| `TlsConnectorModel.OverrunExactly` | SingleThread_ChattingServer_LoginVer/RedisConnector.cpp:123-124 | Once all callers are back, a store has overrun the array if and only if there were more callers than threadCount; otherwise slot i holds the connector of the i-th thread to take an index. |
| `TlsConnectorModel.OneTooManyOverruns` | SingleThread_ChattingServer_LoginVer/RedisConnector.cpp:123-124 | For every threadCount, the first calls of threadCount + 1 threads, even one after another, store outside the array. |
| `TlsConnectorModel.ConnectorsAreFiled` | SingleThread_ChattingServer_LoginVer/RedisConnector.cpp:118-137 | Once all callers are back, if they fit: the index is in range, the slots up to it are pairwise distinct, each holds a connector some thread made, and every connector ever created is in one. |
| `TlsConnectorModel.RunInv` | SingleThread_ChattingServer_LoginVer/RedisConnector.cpp:118-137 | The allocator's invariant holds in every state of every run. |
| `TlsConnectorObject.TLSRedisConnector.constructor` | SingleThread_ChattingServer_LoginVer/RedisConnector.cpp:139-152 | The new object is the initial state of the transition system. |
| `TlsConnectorObject.TLSRedisConnector.GetPointerTLS` | SingleThread_ChattingServer_LoginVer/RedisConnector.cpp:118-137 | A call with an arbitrary schedule of the others in every gap between its accesses is a run of the transition system and returns its thread's own, connected connector: the one it had, or a fresh one. |
| `TlsConnectorObject.TLSRedisConnector.Store` | SingleThread_ChattingServer_LoginVer/RedisConnector.cpp:124 | The store puts the connector at the index taken, or is recorded as an overrun when that is past the end. |
| `TlsConnectorObject.ForeignKeeps` | SingleThread_ChattingServer_LoginVer/RedisConnector.cpp:118-137 | Other threads never change where a thread is or what its thread-local value is. |
| `TlsConnectorObject.AllVisited` | SingleThread_ChattingServer_LoginVer/RedisConnector.cpp:154-165 | In any state that concurrent callers leave, if none overran, the indices the destructor visits hold every connector on the heap, each once. |
| `TlsConnectorObject.TLSRedisConnector.ConnectUntilItSucceeds` | SingleThread_ChattingServer_LoginVer/RedisConnector.cpp:129-132 | The retry loop, interleaved with everyone else, ends connected after any number of refusals. |
| `TlsConnectorObject.TLSRedisConnector.Destroy` | SingleThread_ChattingServer_LoginVer/RedisConnector.cpp:154-165 | From any state that concurrent callers leave, if none overran, every connector ever created is disconnected and deleted, each exactly once (a second delete would violate a precondition). |
| `VariantModel.Memory.Execute` | SingleThread_ChattingServer_LoginVer/MYSQLLib/Connector C++ 8.0/include/jdbc/cppconn/variant.h:258-319 | Any program of construct, copy, assign (to itself too), write-through and destroy behaves as if Variants were plain values; once no Variant is left, nothing is live and every allocation was deleted once. |
| `VariantModel.Memory.ExecuteOne` | SingleThread_ChattingServer_LoginVer/MYSQLLib/Connector C++ 8.0/include/jdbc/cppconn/variant.h:258-319 | One step on memory: an assignment or a copy leaves its target with the source's value, a construction with the given one, a store with the stored one under the old type, a destruction without the Variant; all others as they were. |
| `VariantModel.EffectIs` | SingleThread_ChattingServer_LoginVer/MYSQLLib/Connector C++ 8.0/include/jdbc/cppconn/variant.h:258-319 | What a step means for values, case by case, and that a step that names an absent Variant or a refused type changes nothing. |
| `VariantModel.LastCommand` | SingleThread_ChattingServer_LoginVer/MYSQLLib/Connector C++ 8.0/include/jdbc/cppconn/variant.h:258-319 | A program takes effect step by step: its last command on what the others left. |
| `VariantModel.ConstructibleExactly` | SingleThread_ChattingServer_LoginVer/MYSQLLib/Connector C++ 8.0/include/jdbc/cppconn/variant.h:261-289 | Which kind of value a Variant holds under which type name: what the ten constructors build, no more and no less. |
| `VariantModel.ExclusiveMeans` | SingleThread_ChattingServer_LoginVer/MYSQLLib/Connector C++ 8.0/include/jdbc/cppconn/variant.h:98-101 | Live Variants, impls and values correspond one to one: no sharing, no leak. |
| `VariantModel.Added` | SingleThread_ChattingServer_LoginVer/MYSQLLib/Connector C++ 8.0/include/jdbc/cppconn/variant.h:261-302 | A Variant on a new impl and value keeps exclusive ownership and leaves all others as they were. |
| `VariantModel.Dropped` | SingleThread_ChattingServer_LoginVer/MYSQLLib/Connector C++ 8.0/include/jdbc/cppconn/variant.h:291-296 | Destroying one Variant deletes its impl and value only, and keeps exclusive ownership. |
| `VariantModel.Written` | SingleThread_ChattingServer_LoginVer/MYSQLLib/Connector C++ 8.0/include/jdbc/cppconn/variant.h:63-96 | A store through the pointer get returned changes that Variant and no other. |
| `VariantModel.NothingLeft` | SingleThread_ChattingServer_LoginVer/MYSQLLib/Connector C++ 8.0/include/jdbc/cppconn/variant.h:291-296 | With no Variant left no impl or value is live, and as many deletes as allocations have run. |
| `VariantModel.OthersDoNotShow` | SingleThread_ChattingServer_LoginVer/MYSQLLib/Connector C++ 8.0/include/jdbc/cppconn/variant.h:298-310 | A Variant is not changed by anything done to others, its copies and its original among them. |
| `VariantModel.GetsByFamily` | SingleThread_ChattingServer_LoginVer/MYSQLLib/Connector C++ 8.0/include/jdbc/cppconn/variant.h:63-96 | get<T> succeeds if and only if T is void, the stored type, or its counterpart among the three pairs of std::string and SQLString, their lists and their maps. |
| `VariantModel.Memory.NewVariantImpl` | SingleThread_ChattingServer_LoginVer/MYSQLLib/Connector C++ 8.0/include/jdbc/cppconn/variant.h:104-108 | The impl is allocated first and its constructor then allocates the value. |
| `VariantModel.Memory.New` | SingleThread_ChattingServer_LoginVer/MYSQLLib/Connector C++ 8.0/include/jdbc/cppconn/variant.h:261-289 | A constructor adds one Variant with the given value. |
| `VariantModel.Memory.Clone` | SingleThread_ChattingServer_LoginVer/MYSQLLib/Connector C++ 8.0/include/jdbc/cppconn/variant.h:104-130 | Cloning allocates one impl and one value; the base copy constructor's alias of the content pointer is gone when it returns. |
| `VariantModel.Memory.CopyMap` | SingleThread_ChattingServer_LoginVer/MYSQLLib/Connector C++ 8.0/include/jdbc/cppconn/variant.h:187-199 | The insert loop makes an equal map at a new address, whatever the iteration order. |
| `VariantModel.Memory.CopyList` | SingleThread_ChattingServer_LoginVer/MYSQLLib/Connector C++ 8.0/include/jdbc/cppconn/variant.h:243-254 | The push_back loop makes an equal list at a new address, order kept. |
| `VariantModel.Memory.Copy` | SingleThread_ChattingServer_LoginVer/MYSQLLib/Connector C++ 8.0/include/jdbc/cppconn/variant.h:298-302 | The copy holds what its source holds; nobody else changes. |
| `VariantModel.Memory.AssignFrom` | SingleThread_ChattingServer_LoginVer/MYSQLLib/Connector C++ 8.0/include/jdbc/cppconn/variant.h:304-310 | The target ends up with the source's value, the source and all others unchanged; self-assignment changes nothing. |
| `VariantModel.Memory.Delete` | SingleThread_ChattingServer_LoginVer/MYSQLLib/Connector C++ 8.0/include/jdbc/cppconn/variant.h:291-296 | Exactly that Variant is gone. |
| `VariantModel.Memory.Get` | SingleThread_ChattingServer_LoginVer/MYSQLLib/Connector C++ 8.0/include/jdbc/cppconn/variant.h:312-315 | Returns the address of the stored value if and only if the type is accepted. |
| `VariantModel.Memory.WriteThrough` | SingleThread_ChattingServer_LoginVer/MYSQLLib/Connector C++ 8.0/include/jdbc/cppconn/variant.h:312-315 | A store through an accepted pointer changes the value and keeps the stored type. |
| `CollectionOptionsModel.SucceedsExactly` | SingleThread_ChattingServer_LoginVer/MYSQLLib/Connector C++ 8.0/include/mysqlx/xdevapi.h:482-505 | From any state, `_set` succeeds on a list if and only if the list meets a condition on counts and order read off without running it. |
| `CollectionOptionsModel.FreshSucceedsExactly` | SingleThread_ChattingServer_LoginVer/MYSQLLib/Connector C++ 8.0/include/mysqlx/xdevapi.h:1191-1267 | On a fresh object: REUSE and VALIDATION at most once, LEVEL and SCHEMA at most once counting those inside a VALIDATION value, neither before VALIDATION, all well typed; in both directions. |
| `CollectionOptionsModel.AtMostOnce` | SingleThread_ChattingServer_LoginVer/MYSQLLib/Connector C++ 8.0/include/mysqlx/xdevapi.h:1191-1267 | The counts of the condition mean that no two places of the list hold the option. |
| `CollectionOptionsModel.OneOption` | SingleThread_ChattingServer_LoginVer/MYSQLLib/Connector C++ 8.0/include/mysqlx/xdevapi.h:1191-1267 | For every option, value and state: which error the option leaves, if any, and otherwise exactly what it stores. |
| `CollectionOptionsModel.FirstRefused` | SingleThread_ChattingServer_LoginVer/MYSQLLib/Connector C++ 8.0/include/mysqlx/xdevapi.h:482-505 | A list that fails does so at its first refused option, with that option's error. |
| `CollectionOptionsModel.ValidationSucceedsExactly` | SingleThread_ChattingServer_LoginVer/MYSQLLib/Connector C++ 8.0/include/mysqlx/xdevapi.h:263-277 | The validation object alone accepts a list if and only if every option is well typed and LEVEL and SCHEMA occur at most once, those set before counted; what it then holds is read off the list. |
| `CollectionOptionsModel.SameOnValidation` | SingleThread_ChattingServer_LoginVer/MYSQLLib/Connector C++ 8.0/include/mysqlx/xdevapi.h:498-503 | On lists of its own options CollectionValidation does what CollectionOptions does to its part. |
| `CollectionOptionsModel.FinalStateOf` | SingleThread_ChattingServer_LoginVer/MYSQLLib/Connector C++ 8.0/include/mysqlx/xdevapi.h:1191-1267 | The state after an accepted list is told by which items occur in it: a text for LEVEL is stored as it is and OFF and STRICT under their names, a text for SCHEMA as its document, and a VALIDATION value where neither follows it. |
| `CollectionOptionsModel.OrderIndependent` | SingleThread_ChattingServer_LoginVer/MYSQLLib/Connector C++ 8.0/include/mysqlx/xdevapi.h:482-505 | Two accepted orderings of the same items leave the same state. |
| `CollectionOptionsModel.CallsAreOneFold` | SingleThread_ChattingServer_LoginVer/MYSQLLib/Connector C++ 8.0/include/mysqlx/xdevapi.h:464-474 | Any sequence of `set` calls equals one successful call on the concatenation of the accepted lists. |
| `CollectionOptionsModel.OneMoreCall` | SingleThread_ChattingServer_LoginVer/MYSQLLib/Connector C++ 8.0/include/mysqlx/xdevapi.h:464-474 | One more call settles on what the calls before it left, and its list counts if and only if it is accepted. |
| `CollectionOptionsModel.RollbackIsNeeded` | SingleThread_ChattingServer_LoginVer/MYSQLLib/Connector C++ 8.0/include/mysqlx/xdevapi.h:464-474 | For every accepted prefix, refused option and rest: without the rollback the changes of a non-empty prefix would always stay; with it none does, and the error is the refused option's. |
| `CollectionOptionsModel.OrderDecides` | SingleThread_ChattingServer_LoginVer/MYSQLLib/Connector C++ 8.0/include/mysqlx/xdevapi.h:1253-1267 | LEVEL before VALIDATION is refused, after it accepted. |
| `CollectionOptionsModel.JsonTextIsRefused` | SingleThread_ChattingServer_LoginVer/MYSQLLib/Connector C++ 8.0/include/mysqlx/common_constants.h:297-298 | Against the documentation, a JSON text for VALIDATION makes every list that contains it fail, with the wrong-type error unless an option before it is refused first. |
| `CollectionOptionsModel.ValidationAlone` | SingleThread_ChattingServer_LoginVer/MYSQLLib/Connector C++ 8.0/include/mysqlx/xdevapi.h:1253-1267 | A single VALIDATION option is accepted if and only if its value is a CollectionValidation and neither it nor LEVEL nor SCHEMA was set. |
| `CollectionOptionsModel.CollectionOptions.Set` | SingleThread_ChattingServer_LoginVer/MYSQLLib/Connector C++ 8.0/include/mysqlx/xdevapi.h:464-474 | Succeeds exactly on an acceptable list and then holds its values; a failing call restores the whole prior state, the nested validation data included. |
| `CollectionOptionsModel.CollectionOptions.DoSet` | SingleThread_ChattingServer_LoginVer/MYSQLLib/Connector C++ 8.0/include/mysqlx/xdevapi.h:1243-1267 | One option in place: sets value and used bit, or throws the error the source throws. |
| `CollectionOptionsModel.CollectionValidation.Set` | SingleThread_ChattingServer_LoginVer/MYSQLLib/Connector C++ 8.0/include/mysqlx/xdevapi.h:247-257 | For the validation object alone: succeeds if and only if every option is well typed and set at most once; then holds the values of the list, otherwise what it held before. |
| `CollectionOptionsModel.CollectionValidation.DoSet` | SingleThread_ChattingServer_LoginVer/MYSQLLib/Connector C++ 8.0/include/mysqlx/xdevapi.h:1191-1241 | One validation option in place: sets value and used bit, or throws. |
| `SettingsModel.ErasureIsASet` | SingleThread_ChattingServer_LoginVer/MYSQLLib/Connector C++ 8.0/include/mysqlx/devapi/common/settings.h:375-417 | After any sequence of `erase` calls the option list and every derived flag depend only on the set of options erased. |
| `SettingsModel.OrderAndRepetitionAreIrrelevant` | SingleThread_ChattingServer_LoginVer/MYSQLLib/Connector C++ 8.0/include/mysqlx/devapi/common/settings.h:363-417 | Erasing is idempotent and order-independent, although PORT clears the TCP/IP flag only when no host is counted. |
| `SettingsModel.ErasedFlagsAre` | SingleThread_ChattingServer_LoginVer/MYSQLLib/Connector C++ 8.0/include/mysqlx/devapi/common/settings.h:390-416 | Flag by flag, what any sequence of erasures leaves; PORT clears the TCP/IP flag only when no host is counted. |
| `SettingsModel.WithoutIs` | SingleThread_ChattingServer_LoginVer/MYSQLLib/Connector C++ 8.0/include/mysqlx/devapi/common/util.h:400-406 | Erasing keeps the other entries in order: of one entry all or nothing, of two lists both parts. |
| `SettingsModel.LookupIsLast` | SingleThread_ChattingServer_LoginVer/MYSQLLib/Connector C++ 8.0/include/mysqlx/devapi/common/settings.h:305-324 | What is looked up is the value of the last entry for the option, and nothing if and only if there is none. |
| `SettingsModel.LookupWithout` | SingleThread_ChattingServer_LoginVer/MYSQLLib/Connector C++ 8.0/include/mysqlx/devapi/common/settings.h:309-324 | The last value of an option not erased is the one it was, and an erased one has none. |
| `SettingsModel.HasOptionAfterErase` | SingleThread_ChattingServer_LoginVer/MYSQLLib/Connector C++ 8.0/include/mysqlx/devapi/common/settings.h:327-360 | `has_option` of an erased option is false but for the three list options, where it is the was-set flag that `erase` leaves alone. |
| `SettingsModel.Settings.Get` | SingleThread_ChattingServer_LoginVer/MYSQLLib/Connector C++ 8.0/include/mysqlx/devapi/common/settings.h:309-324 | The backward search returns the value of an entry for the option that no later entry for it follows, and nothing if and only if there is none. |
| `SettingsModel.Settings.HasOption` | SingleThread_ChattingServer_LoginVer/MYSQLLib/Connector C++ 8.0/include/mysqlx/devapi/common/settings.h:327-360 | True if and only if the option occurs, or it is TLS_VERSIONS, TLS_CIPHERSUITES or COMPRESSION_ALGORITHMS and its own was-set flag is on. |
| `SettingsModel.Settings.RemoveFrom` | SingleThread_ChattingServer_LoginVer/MYSQLLib/Connector C++ 8.0/include/mysqlx/devapi/common/util.h:400-406 | The in-place compaction keeps exactly the other options, in order. |
| `SettingsModel.Settings.Erase` | SingleThread_ChattingServer_LoginVer/MYSQLLib/Connector C++ 8.0/include/mysqlx/devapi/common/settings.h:375-417 | Every occurrence goes, and each flag follows as the switch says. |
| `SettingsModel.Settings.EraseAll` | SingleThread_ChattingServer_LoginVer/MYSQLLib/Connector C++ 8.0/include/mysqlx/devapi/common/settings.h:363-417 | A sequence of erasures in place gives the list and flags of the set erased. |

## The queue

The members about the queue model `SingleThread_ChattingServer_LoginVer/LockFreeQ.h`. That header
is encoded in code page 949 and is not valid UTF-8; its lines, counted by line feeds, are given
here apart from the table above.

| member | lines of LockFreeQ.h | states |
|---|---|---|
| `QueueTheorems.RunsAreFifo` | 284-417 | Every run of any number of threads in EnQ and DeQ is a FIFO history of its successful CASs: what left, followed by what is in the queue, is what entered, in order; and each thread's arguments and results are its own operations in that history. |
| `QueueTheorems.StepRefines` | 353-391 | One access refines at most one abstract operation: EnQ takes effect at the CAS that links its node, DeQ at its CAS on the front, which takes the oldest value. |
| `QueueSteps.LinksAtTheEnd` | 353 | The CAS on _Next succeeds only on the last node, with the rear at it: markers are never drawn twice, so neither recycling nor the torn read of the rear can make it succeed elsewhere, and no window is needed. |
| `QueueSteps.HelpSwings` | 360-368 | A helper whose CAS on the rear succeeds moves it to the true successor, with its true marker. |
| `QueueSteps.OwnerSwings` | 387-391 | So does the thread that linked the node, although it rereads its own _Next only after linking. |
| `QueueSteps.TakesTheOldest` | 521-562 | A DeQ whose CAS succeeds installs the true successor of the front and returns that node's data, read before the CAS. |
| `QueueSteps.ReservedMeansBehind` | 499-506 | A DeQ that passed the count finds the front strictly behind the rear. |
| `QueueTheorems.RearIsNeverFreed` | 562-582 | The front never passes the rear, so the rear's node is never in the pool; the rear is at the last node, or one behind while the thread that linked it is about to swing it. |
| `QueueTheorems.NeverCrashes` | 284-417 | In no reachable state does a thread read at null or at an address that was never a node, free a node twice, or find its own new node at the rear (the source's deliberate crash). |
| `QueueTheorems.ExclusiveOwnership` | 301-308 | A node is outside the pool if and only if it is in the queue or held by a thread; never both, never by two. |
| `QueueTheorems.ListInMemory` | 94-110 | Following _Next from the front visits the dummy, then exactly the queue's values in order, then an end marker. |
| `QueueTheorems.CountGate` | 410 | m_Count plus failing DeQs equals queued minus uncounted minus reserved and is never negative; at rest it is the length. |
| `QueueTheorems.WeakEmptiness` | 499-506 | DeQ is refused if and only if the queued values are no more than uncounted EnQs, reserved DeQs and other failing DeQs; with nobody in between, if and only if the queue is empty. |
| `QueueTheorems.ReplayIsFifo` | 491-591 | For every legal history: what entered is what left followed by what remains, in order. |
| `QueueTheorems.FrontHitsExactly` | 562 | A CAS on the front's pointer succeeds if and only if its snapshot is a multiple of 2^64 successes old. |
| `QueueTheorems.FullExactly` | 286-290 | EnQ gives up if and only if the count exceeds the capacity. |
| `QueueTheorems.CallsAreRecorded` | 284-591 | A call begins with its argument recorded. |
| `QueueTheorems.DeqIsRecorded` | 499-590 | What a DeQ hands out is recorded, and a refusal is counted. |
| `QueueTheorems.PoolIsArbitrary` | 301 | The pool may hand out any node that is in nobody's hands, a used one with its old contents. |
| `QueueTheorems.EndMeansRecycled` | 523-543 | DeQ meets an end marker only through a recycled node: it is the last of the queue or being enqueued, and the front is another. |
| `QueueProgress.DeqReturnsExactly` | 511-590 | From any reachable state, a granted DeQ running alone returns if and only if it is not about to follow a recycled front onto an end marker; when it returns it has taken one value. |
| `QueueProgress.StuckForEver` | 537-543 | In that case no number of its own steps ends the call, as it does not reread the front. |
| `QueueProgress.EnqReturns` | 307-416 | From any reachable state, an EnQ that has its node, running alone, returns with exactly its value appended: from any point of its loop, and whether or not another thread has left the rear behind. |
| `QueueProgress.EnqAfterLinkReturns` | 387-416 | An EnQ that has linked its node returns without changing the queue further. |
| `QueueSolo.DeqCanSpin` | 537-543 | The case is reachable: a run after which a DeQ, running alone, never returns, although the queue holds two values and nobody else is inside a call. |
| `QueueSteps.StepInv` | 284-417 | Every access of every thread keeps the invariant (ends, chain, markers, memory, ownership, lag, count, history, per-thread snapshots). |
| `QueueSteps.RunInv` | 491-591 | The invariant holds in every state of every run within the integer widths. |
| `QueueInvariant.InitInv` | 54-70 | The constructed queue, one dummy node that holds the first marker, meets the invariant. |
| `QueueSteps.CountAccount` | 410 | The interlocked accesses to m_Count never wrap and keep its account. |
| `QueueSolo.SoloEnq` | 284-417 | A whole EnQ that runs undisturbed from a state whose rear does not lag appends its value, swings the rear and counts it (`EnqReturns` covers a rear that lags). |
| `QueueSolo.SoloDeq` | 491-591 | A DeQ that runs undisturbed with a positive count returns the oldest value and frees the old dummy. |

## Left out

- LockFreeStack with `NEWDELTE == 1`, and LockFreeQ with other values of ENQ_MODE: only the builds the headers select are modelled.
- FreeList: taken by its contract, in both protocols; `Alloc` returns any node nobody owns, `Free` takes a node back and memory stays readable. For the stack the pool may also write to nodes it owns; for the queue it may not, which is what its code does, as its own link is a separate field. Its own compare-exchange list is not part of this model.
- LockFreeQ as an object: it is modelled as a transition system only, since DeQ need not return (`DeqCanSpin`) and a method for it has no proof of termination; its destructor is represented by the list it walks (`ListInMemory`). The TPS counters and the logging calls are not modelled.
- LockFreeQ's capacity check: crossing it stops the thread in the model, as the source's deliberate crash does.
- LockFreeStackObject.LockFreeStack.Destroy: requires that no call is in flight, as the source's users must ensure; freeing the head block itself is not modelled.
- StackTheorems.RunsAreLifo: assumes the two integer-width conditions described above; `WindowIsTight` is a run that breaks the first and the list with it.
- QueueTheorems.RunsAreFifo: assumes the integer-width conditions described above, and that node addresses lie below KERNEL_ADDRESS, which is 8 TB; a node above it would be read as an end marker, and nothing in the source rules one out on systems that give a process more.
- Weak memory: accesses are sequentially consistent.
- Crash, GetMemoryAllocCount, performance counters, profiler, crash dump, system log: no state of interest.
- RingLog.LastEntriesSurvive: tickets that wrap at 2^64 are not modelled; the cast of the stamp to the element type is not either.
- MemoryLogging_ST and the other MyMemoryLog overloads: the same code with other fields.
- MyMemoryLog::Clear: it zeroes MAX_SIZE of the MAX_SIZE * MAX_PROPERTY cells, so nothing is claimed about it; the Clear of MemoryLogging_New is modelled without concurrent writers.
- TlsConnectorObject.TLSRedisConnector.Destroy: requires that every call has returned and that no store overran the array; the source has no defined behaviour otherwise.
- TlsConnectorModel.OneConnectorPerThread: the wrap of the 32-bit index is not modelled, and a store outside the array is recorded rather than given an effect.
- Redis connections: Connect is an arbitrary boolean, and the retry loop is shown to end only if it is answered true at some point; address conversion, exceptions and network calls are not modelled.
- VariantImpl, VariantMap and VariantList assignment operators: Variant never calls them.
- VariantModel.Memory.CopyMap: the order in which a map is walked is arbitrary instead of sorted by key.
- VariantModel.Memory.AssignFrom: allocation failure, which would leave the deleted pointer behind, is not modelled.
- Reading a std::string through a SQLString pointer: the model stores both as text and says nothing about their layouts.
- Variant with a null impl or content pointer: the constructors never make one.
- CollectionOptionsModel.CollectionOptions.Set: a document text that does not parse, and the constructors from a document, are not modelled.
- Settings setters, clear, URI and JSON input: their bodies are not part of this model; a Settings object starts from any option list and any flags, and clearing the connection attributes empties their map.
- Iterator and Value conversions, client_kill tokens, type-list traits: not modelled.
- RingQ, packet processing, thread pool, reply builders: outside the seven components.
- message_type::push over a range: its index never advances, so nothing is claimed about it.
