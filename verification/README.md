# IndigoSCADA: shared heap, lock and queue, calendar, storage, workers

Dafny models of the parts of IndigoSCADA whose correctness rests on invariants rather than on
single functions, with proofs of what those parts are for. `dafny verify dfyconfig.toml`
verifies the whole project.

**Shared memory (`src/fifo`).** `memory.dfy`, `heap_shape.dfy`, `heap_bytes.dfy`,
`shared_heap.dfy`, `fifo.dfy`, `fifo_protocol.dfy` and `lock.dfy`. The heap is an array of
bytes in which integers and pointers (offsets from `pHdr`, 32-bit layout) are stored in place.
`HeapShape` is what the bytes mean: which addresses start a block, how long each block is,
which are free, the order of the free list and the roving pointer. `allocate` and `free` are
given there as the functions `Take` and `Release`; the methods of `SharedMemory` work on the
bytes and are proved to carry out exactly those functions, and the lemmas of `HeapShape` say
what the functions achieve. `Fifo` stores a linked queue in the heap. `Lock` and
`FifoProtocol` are state machines that take one atomic action of one thread per step, and
their lemmas speak of every run.

**Calendar (`src/common/time64.c`).** `calendar.dfy` counts days one year after the other and
proves that this is the closed form of section 4.16 of the Base Definitions of POSIX.1-2017,
extended to all years. `time64.dfy`, `safe_years.dfy` and `local_time64.dfy` hold the
conversions. The system's own `localtime` and `mktime` are taken as exact for a fixed zone
offset of less than a day.

**Storage (`src/gigabase`).** `blob.dfy` has blobs as chains of segments, with their write and
read iterators; `record.dfy` packs, unpacks and measures records with nested strings, arrays
and structures.

**Workers (`src/common/dispatch.cpp`, `src/database`).** `worker_channel.dfy` is the handshake
of `Done`, `Trigger`, the item and the event between the main thread and one worker, one
shared access at a time; `dispatch.dfy` composes two of them, `qsgigabase.dfy` one with
re-entrant requests. `escape.dfy` has the SQL text escapes of `src/database/dbase.cpp`.

## Where the code departs from its comments or its purpose

- The comment at `src/common/time64.c:804-808` expects one point in the calendar cycle where
  the safe year and the original year disagree on leap status, and corrects a 366th day there.
  `SafeYearMatches` shows that they never disagree, so the correction never applies
  (`LocalTime64.SafeLocalDate`).
- `seconds_between_years` moves a left year before 1600 with the wrong sign
  (`src/common/time64.c:528`). The distance is right exactly for left years after 1200
  (`DownwardSumExact`, `DownwardSumFails`), and with it `mktime64` (`MkTime64`).
- `UndoEscapeSQLText` scans again from the start after each replacement, so it is no inverse of
  `EscapeSQLText` on texts with `&ampe` or `&tabe`, and tabs are dropped (`RoundTrip` gives the
  exact condition).
- `calculateRecordSize` aligns absolutely where `storeRecordFields` aligns relative to the array
  element. For a given value the two are at the same place throughout exactly when each array in
  it belongs to an element whose place its alignment divides (`PredictedOnBase`). For a type, with
  alignments that are powers of two as DOALIGN demands, the prediction is right for every value of
  an array exactly when the alignments inside its elements divide the elements' alignment and
  size (`ArrayPredicted`), and for every array type inside a type exactly when this holds at every
  level (`PredictedExactly`); a record in which it does is predicted (`SizePredicted`). Otherwise
  the prediction can be too small (`SizeMispredicted`).
- A writer on a blob that `close` has cut may append a segment whose size is not whole pages;
  then `allocate` need not return the start of a page and the assertion at
  `src/gigabase/blob.cpp:183` can fail. It cannot exactly when twice the last segment's size, and
  each further doubling up to the extent, rounds up to whole pages (`ExtendableExactly`); for
  instance not after 88 bytes (`CutNotExtendable`).
- Once a transaction of the dispatcher's writer has failed, what is in its queue behind the item
  in flight is never sent, whatever happens afterwards (`FailureStalls`; reconnecting is not part
  of this model), nor is what has waited meanwhile (`ForwardedStalls`); but a request without a
  delay that finds the queue empty is (`FirstIsSent`).
- A `put` whose message does not fit beside the root object in an empty heap drops the whole
  queue and then waits for ever (`FifoObj.Put`).

## Model

| member | source | states |
|---|---|---|
| HeapShape.TakeWellFormed | src/fifo/shmem.cpp:1356-1389 | allocation keeps the tiling, the coalescing and the free list of the heap, stays inside `max_file_size`, and fails, changing nothing, exactly when no free block fits and the heap may not grow |
| HeapShape.TakeAllocates | src/fifo/shmem.cpp:1356-1399 | a successful allocation makes one new live block, 8-aligned, of at least the rounded size and at most 8 bytes more, and leaves every other live block in place |
| HeapShape.SearchAt | src/fifo/shmem.cpp:1361-1389 | next fit takes the first node behind the roving pointer that is large enough |
| HeapShape.TakeIsNextFit | src/fifo/shmem.cpp:1361-1389 | the block is the end of the first free block behind the roving pointer that fits, where the next search starts, or behind which if nothing is left of it; the heap grows, by no more than the block, only if no free block fits |
| HeapShape.ReleaseWellFormed | src/fifo/shmem.cpp:1440-1476 | freeing any live block keeps all heap invariants, complete coalescing included, and takes just that block out of the live ones |
| HeapShape.ReleaseRoves | src/fifo/shmem.cpp:1440-1476 | the next search starts at the free block that the freed one has become part of, or at the first of the list if that was cut off the end |
| HeapShape.SpaceConserved | src/fifo/shmem.cpp:342-351 | the bytes of live blocks and of free blocks add up to the heap size without the header |
| HeapShape.NothingLive | src/fifo/shmem.cpp:342-351 | a well-formed heap with no live block is the freshly initialised heap |
| HeapShape.ReleaseAllIsInitial | src/fifo/shmem.cpp:1415-1477 | freeing all live blocks in any order restores the initial heap, with an empty free list |
| HeapShape.RunsKeepWellFormed | src/fifo/shmem.cpp:1344-1477 | every run of requests and frees keeps the heap well formed and inside its limit |
| HeapBytes.Unlinked | src/fifo/shmem.h:115-118 | two pointer writes take a node out of the circular list and leave all other links |
| HeapBytes.Linked | src/fifo/shmem.h:111-114 | four pointer writes put a block behind the list head and leave all other links |
| HeapBytes.BackwardField | src/fifo/shmem.cpp:1440-1443 | the word before a block is positive exactly when the block before it is free, and is then that block's span; at the first block it is the header's barrier |
| HeapBytes.PayloadIsClients | src/fifo/shmem.cpp:1392-1399 | a client may write anything into its payload without touching tags, links, header or other payloads |
| SharedHeap.SharedMemory.constructor | src/fifo/shmem.cpp:340-351 | the header of a new file stands for the empty heap |
| SharedHeap.SharedMemory.Allocate | src/fifo/shmem.cpp:1344-1400 | the bytes after `allocate` stand for the structure `Take` gives; the pointer is the new block's payload, all live payloads and the root pointer are unchanged, and the payload is zero if asked |
| SharedHeap.SharedMemory.FindHole | src/fifo/shmem.cpp:1361-1383 | following the stored links from `free_list_pos` ends, with the block next fit selects or none |
| SharedHeap.SharedMemory.Free | src/fifo/shmem.cpp:1415-1477 | the bytes after `free` stand for the structure `Release` gives, no tag check reports, and the payloads of the remaining blocks are unchanged |
| SharedHeap.SharedMemory.Reallocate | src/fifo/shmem.cpp:1402-1413 | a block that is large enough is returned as it is and nothing changes; otherwise the old bytes are a prefix of the block that allocate makes for the new size, what is behind them is zero if asked, the old block is freed and no other payload is disturbed; it fails exactly when the new block cannot be allocated |
| SharedHeap.SharedMemory.CheckHeap | src/fifo/shmem.cpp:1480-1502 | the walk over the tags visits every block and reports nothing |
| SharedHeap.SharedMemory.SetRoot | src/fifo/shmem.h:94 | setting the root object changes nothing else |
| Fifo.OnlyRoot | src/fifo/fifo.h:81-118 | when the queue is empty the heap is the root block and nothing else, because freed blocks coalesce completely |
| Fifo.Need | src/fifo/fifo.h:36-47 | a message takes its length and 8 bytes more, rounded up to 8 |
| Fifo.EmptyQueueAllocates | src/fifo/fifo.h:81-92 | beside an empty queue a message is accepted exactly when it fits beside the root block in an empty heap |
| Fifo.TooLargeNeverFits | src/fifo/fifo.h:81-92 | a message that does not fit there is never accepted |
| Fifo.FifoObj.Enqueue | src/fifo/fifo.h:81-104 | appends the message, or resets `not_full` and changes nothing, exactly as the allocator has room |
| Fifo.FifoObj.Dequeue | src/fifo/fifo.h:106-118 | hands out the oldest message, cut to the buffer, and frees its block; -1 exactly on an empty queue |
| Fifo.FifoObj.Put | src/fifo/fifo.h:186-212 | ends with the message stored exactly when it would fit beside the root block in an empty heap; the queue is then a suffix of the old queue and the new message, every message dropped was dropped because the heap was full, and `not_full` is signalled exactly if a message was dropped or it was before |
| Fifo.FifoObj.Get | src/fifo/fifo.h:214-226 | the oldest message, or none exactly when the queue is empty |
| FifoProtocol.RunsKeepTheQueue | src/fifo/fifo.h:81-118 | in every interleaving of producers and consumers the queue length is the `not_empty` count plus what threads owe, no dequeue after a successful wait finds the queue empty, and messages leave in the order they came |
| FifoProtocol.QuietCount | src/fifo/fifo.h:186-226 | when no thread is between count and queue, `not_empty` counts the messages |
| FifoProtocol.EveryMessage | src/fifo/fifo.h:186-226 | in every interleaving each message given to `put` has been stored or is in the hands of its `put`, and each that left the queue was returned by `get`, is about to be, or was dropped |
| FifoProtocol.QuietMessages | src/fifo/fifo.h:186-226 | when all threads are idle what was given is what was received, what was dropped and what is queued |
| FifoProtocol.DropsAreNeeded | src/fifo/fifo.h:188-209 | no more messages are dropped than `enqueue` has failed, and `not_full` is signalled exactly when room was announced since it last failed |
| FifoProtocol.PutDrops | src/fifo/fifo.h:188-211 | a `put` without room, if nobody interrupts it, drops the oldest message, announces the room and stores its own |
| FifoProtocol.PutWaits | src/fifo/fifo.h:188-209 | without a counted message it waits as long as `not_full` is reset |
| FifoProtocol.GetTakes | src/fifo/fifo.h:214-226 | a `get` with a counted message, if nobody interrupts it, returns the oldest and announces the room |
| Lock.OneInside | src/fifo/shmem.cpp:26-46 | the counter and the auto-reset event admit one thread to the critical section |
| Lock.LockExcludes | src/fifo/shmem.cpp:48-202 | in every interleaving `n_writers` is 0 or 1, `n_readers` is the number of shared descriptors held, a thread that holds the lock exclusively is the only one that holds it, and no check in `lock` or `unlock` reports |
| Lock.FastPathIsOwners | src/fifo/shmem.cpp:55-74 | the path that skips the critical section is taken exactly by a thread that holds the lock exclusively |
| Lock.NoRace | src/fifo/shmem.cpp:58-74 | two threads never read or write `n_readers` or the descriptor chain at once, although the owner does so outside the critical section |
| Lock.ChainDecides | src/fifo/shmem.cpp:108-113 | with one descriptor held, the chain of the caller's process begins with one of its own if and only if an exclusive lock is compatible |
| Lock.CallsAreAnswered | src/fifo/shmem.cpp:48-202 | in every interleaving every call is answered as by a lock that decides at once: granted on the spot to a thread that has the lock exclusively, otherwise exactly if no other thread is the writer and, for an exclusive lock, no descriptor is held but a single one of the caller; refused only if it does not wait or has timed out; between calls a thread holds exactly what it was answered |
| Lock.WaitersCounted | src/fifo/shmem.cpp:78-141 | outside the critical section `n_waiters` is the number of waiters plus unused credits, timed-out waiters included; while it is positive `hEvent` is reset and the lock is taken, so no wake-up is missed |
| Lock.DrainGoesOn | src/fifo/shmem.cpp:193-200 | in every run, while `unlock` drains, some thread works for it; no step of any thread raises the number of steps left, and every step of a thread that works for it lowers it, so the loop ends; when it does no waiter and no credit is left |
| Lock.DrainEnds | src/fifo/shmem.cpp:193-200 | from every point of the drain loop the run can go on, within that number of steps, to its clean end |
| Lock.EveryCallReturns | src/fifo/shmem.cpp:26-202 | from every reachable state all calls can return without a new one, if waits may time out |
| Calendar.DaysBeforeIsPosix | src/common/time64.c:242-286 | the day count year by year is the POSIX formula with floors, for all years |
| Calendar.UtcUnique | src/common/time64.c:593-721 | an instant has one valid broken-down form |
| Time64.TimeGm64 | src/common/time64.c:242-286 | the seconds of a date on either side of 1970 |
| Time64.GmTime64 | src/common/time64.c:593-721 | the valid date of an instant, exactly when its year fits; it passes `check_tm`; with TimeGm64 the two are mutual inverses |
| Time64.DateForward | src/common/time64.c:640-668 | the loops from 1970 or the 2008 start, with the 400-year shortcut, find year, month and day |
| Time64.DateBackward | src/common/time64.c:669-694 | the same backwards from 1970 |
| SafeYears.CycleOffsetCountsExceptions | src/common/time64.c:328-361 | `cycle_offset` is 16 for each exception century between 2000 and the year |
| SafeYears.SafeYearMatches | src/common/time64.c:363-405 | for every integer year the safe year lies in 1971 to 2037, starts on the same weekday, has the same leap status and so has the year before it, and the next year starts on the same weekday |
| LocalTime64.SecondsBetweenYears | src/common/time64.c:514-549 | upwards the exact distance of two years; downwards a sum of the years left+1 to right |
| LocalTime64.DownwardSumExact | src/common/time64.c:514-549 | that sum is the exact distance if and only if the left year is after 1200 |
| LocalTime64.DownwardSumFails | src/common/time64.c:525-530 | in the year 1200 it is not |
| LocalTime64.CmpDateOrdersInstants | src/common/time64.c:189-221 | comparing dates field by field orders their instants |
| LocalTime64.MkTime64 | src/common/time64.c:552-585 | for every existing date, whatever its weekday and day of the year say: `timegm64` minus the zone offset if and only if the system can convert the date itself or the year is after 1200 |
| LocalTime64.SafeLocalDate | src/common/time64.c:786-812 | moving the safe year's local date back to its year, over a year's end in either direction, gives the local date, and the correction of a 366th day never applies |
| LocalTime64.LocalTime64 | src/common/time64.c:724-816 | field by field the UTC form of the instant plus the zone offset, for every instant whose UTC year fits; it passes `check_tm` |
| Blob.StoreAndLoad | src/gigabase/blob.cpp:17-257 | what is written to a new blob in any chunks is what is read from it after `close` in any portions, and `getSize` measures it; the quanta in use are those of its segments and of what was there before, which is untouched |
| Blob.Create | src/gigabase/blob.cpp:17-30 | a chain of one segment in space that was free, with room for the size asked for and less than a page more |
| Blob.GetSize | src/gigabase/blob.cpp:50-61 | the number of bytes the chain holds |
| Blob.WriteIterator.GetAvailableSize | src/gigabase/blob.cpp:160-196 | there is always room: in the segment, in the next one, or in a new one behind the last, which starts a page |
| Blob.WriteIterator.Grow | src/gigabase/blob.cpp:170-194 | one segment joins the chain, twice as long as the last or as long as the extent allows |
| Blob.ExtendableExactly | src/gigabase/blob.cpp:171-184 | the assertion on the place of a new segment holds for all segments a writer can append if and only if the doublings of the last segment's size up to the extent are whole pages |
| Blob.WriteIterator.Write | src/gigabase/blob.cpp:204-225 | all of the chunk is written behind what was written before, page by page and across segments, each appended segment twice as long as the one before or as the extent allows; nothing outside the blob's own segments and formerly free space is touched, and the quanta and objects in use are those that were and the chain's |
| Blob.WriteIterator.Close | src/gigabase/blob.cpp:228-257 | the chain that remains holds exactly the bytes written, and the quanta and objects in use are those of that chain and of everything else: whole quanta behind it and segments not reached are freed; nothing outside the chain is touched |
| Blob.ReadIterator.constructor | src/gigabase/blob.cpp:82-91 | everything in the chain is still to come |
| Blob.ReadIterator.GetAvailableSize | src/gigabase/blob.cpp:109-119 | 0 exactly at the end |
| Blob.ReadIterator.Read | src/gigabase/blob.cpp:127-149 | the next bytes in order, as many as asked for or as there are |
| Blob.OtherBlobKept | src/gigabase/blob.cpp:204-257 | every other blob keeps its chain of segments and its data while one is created, written or closed |
| Record.StoreFields | src/gigabase/class.cpp:285-408 | each field is stored with its variable part where the one before ends; what is fetched afterwards is what was stored, a null string coming back empty; no two variable parts at any depth have a byte in common, and nothing is written but the fixed part and the range between the first and the last offset |
| Record.StoreElems | src/gigabase/class.cpp:366-391 | the elements of an array, the variable part of each behind that of the one before and all of them behind the last element |
| Record.PartsPacked | src/gigabase/class.cpp:285-408 | the strings and array elements that a stored record refers to, at any depth, lie one behind the other with nothing between them but padding, and end where store does |
| Record.FetchFields | src/gigabase/class.cpp:205-282 | the values that the bytes hold |
| Record.StoredFetches | src/gigabase/class.cpp:205-282 | fetching undoes storing for every nested type |
| Record.StoredKept | src/gigabase/class.cpp:285-408 | a stored value depends on its fixed part and its own variable part only |
| Record.SizePredicted | src/gigabase/class.cpp:118-170 | the predicted size is where store ends, for every value, if every nested alignment divides the alignment and the size of the enclosing elements |
| Record.PredictedOnBase | src/gigabase/class.cpp:118-170 | for a value, the size pass is where store is before and behind everything inside it if and only if each array belongs to a record or element whose place its alignment divides |
| Record.ArrayPredicted | src/gigabase/class.cpp:118-133 | for an array type with well aligned elements, every value behind every offset is predicted if and only if the alignments inside divide the alignment and the size of the elements |
| Record.PredictedExactly | src/gigabase/class.cpp:118-170 | every array type inside a type is predicted if and only if its alignments match at every level |
| Record.SizeMispredicted | src/gigabase/class.cpp:118-133 | a type of that kind whose alignments do not match, and a value for which store goes past the predicted size |
| Dispatch.RunsAreSound | src/common/dispatch.cpp:96-445 | in every interleaving the asserts hold, the pending counters are the queue lengths, `SetNotif` is never called on a busy worker, and items are executed at most once and in queue order |
| Dispatch.NothingLost | src/common/dispatch.cpp:352-445 | in every run the waiter is given what was requested with a delay, in order, and the writer what was requested without and what has waited, each in its order |
| Dispatch.EveryRequestSettles | src/common/dispatch.cpp:96-445 | from every reachable state the steps of the workers and the main thread alone can bring every request to its end: all that was delayed has waited, and, if nothing failed, all that was requested has been executed |
| Dispatch.FailsExactly | src/common/dispatch.cpp:155-159 | the writer has failed exactly if a transaction or the connector has |
| Dispatch.NeverStuck | src/common/dispatch.cpp:317-445 | unless the writer has failed, a queue that is not empty has its head in flight |
| Dispatch.FirstIsSent | src/common/dispatch.cpp:417-441 | a notification that joins an empty queue is sent, even after a failure |
| Dispatch.FailureStalls | src/common/dispatch.cpp:326-345 | once the writer has failed, in every continuation it executes at most the item in flight, and the rest of its queue stays queued |
| Dispatch.ForwardedStalls | src/common/dispatch.cpp:368-375 | a notification that has waited is never sent if the writer has failed meanwhile |
| QSGigabase.RunsAreSound | src/database/qsgigabase.cpp:25-49 | in every interleaving, re-entrant requests included, `SetQuery` never finds the worker busy, the counter is the queue length, transactions are executed in order, and each that is past, with the one being handled, was reported once, in order and with its own result stored |
| QSGigabase.EveryRequestEnters | src/database/qsgigabase.cpp:291-315 | in every run what was enqueued, with what is in hand, is what DoExec was called with, from outside or from handlers, in order |
| QSGigabase.EveryRequestIsReported | src/database/qsgigabase.cpp:25-49 | from every reachable state the requests made so far can all be executed and reported, in order, by steps of the worker and the main thread alone |
| QSGigabase.HandlersSeeTheirResult | src/database/qsgigabase.cpp:31-36 | while handlers of `TransactionDone` run, the stored result is that of the head transaction and the worker sleeps, whatever the handlers request |
| QSGigabase.NeverStuck | src/database/qsgigabase.cpp:36-44 | between events the queue is not empty exactly when its head is in flight |
| Escape.EscapeSQLText | src/database/dbase.cpp:315-347 | the text with each character replaced by its code |
| Escape.UndoEscapeSQLText | src/database/dbase.cpp:356-392 | the four loops end, with the result of replacing leftmost occurrences until there are none |
| Escape.EscapedIsSafe | src/database/dbase.cpp:315-347 | escaped text has no quote, no newline and no tab |
| Escape.UndoingMeets | src/database/dbase.cpp:356-392 | rescanning comes to the same end whether a code or the character it stands for was written |
| Escape.UndoneEscaped | src/database/dbase.cpp:315-392 | what every text becomes on the way there and back |
| Escape.RoundTrip | src/database/dbase.cpp:315-392 | it comes back if and only if it has no tab, no `&ampe` and no `&tabe` |
| Escape.RoundTripFails | src/database/dbase.cpp:377-382 | a text that does not come back |

## Left out

- The POSIX branch of `src/fifo/shmem.cpp`, opening, closing, mapping and flushing of files, error returns of Win32 calls and the limit MAX_SEM_VALUE on semaphore counts.
- Based pointers, the 64-bit layout, heaps of 2 GB and more, and requests above 2 GB less 8 bytes, for which the unsigned sum of sizes in `allocate` could wrap.
- Liveness of the lock and of `put` with several threads: two readers that upgrade without a timeout wait for each other for ever, and producers may wait on `not_full`. The theorems about runs are safety properties, with what can still happen from every reachable state (`EveryCallReturns`, `DrainEnds`). The single-thread `put` is proved to end or to wait for ever.
- The checks in `allocate` and `free` that the caller holds the exclusive lock and the file is not read-only: they only write to a log.
- The scratch buffer `gl_buf` of `put`: dropped bytes are discarded.
- Thread death inside a lock, and `unlock` of a lock the caller does not hold.
- SharedHeap.SharedMemory.Reallocate: a failed allocation is reported as None; the source goes on to copy to a null pointer.
- Time64.TimeGm64: overflow of `tm_year + 1900` at the very end of the range of int is not modelled; years are unbounded.
- LocalTime64.LocalTime64: daylight saving time, zone names and the year overflow of the local date at the last instants of the range are not modelled.
- LocalTime64.MkTime64: what is written back into the argument is not modelled, nor fields out of their range, which the system's `mktime` would carry over.
- `asctime64_r`, `ctime64_r` and the fake system functions of `src/common/time64.c`.
- Blob.WriteIterator.Write: committed blobs and their copied bitmaps are not modelled; of the blobs that were already cut, those are whose last segment can be extended (`ExtendableExactly`) and whose segments behind the first hold data.
- Mapping of blob buffers for direct access, and `free` of a whole blob.
- Record.StoreFields: autoincrement fields and arrays copied in one piece (OneToOneMapping) are not modelled; the latter store the same bytes as element by element. Alignments that are not powers of two, as raw binary fields of odd sizes have, are rounded up to rather than masked.
- `convertRecord`, `calculateNewRecordSize`, schema matching and symbol tables of `src/gigabase/class.cpp`; B-trees and the query compiler.
- Dispatch.RunsAreSound: connection, reconnection and shutdown of the workers are not modelled; events of the two workers may be delivered in either order, which includes the order of Qt's queue.
- QSGigabase.RunsAreSound: the execution of statements by the worker is one step with an opaque result.
- The queries themselves, drivers, user interface, Kermit packets, alarm classification and configuration.
