# Verification of the Huawei Y210 device support code

This project models the stateful cores of the device support code in Dafny 4.11 and proves what they are
relied on for. `dafny verify dfyconfig.toml` checks all of it.

| file | subject |
|---|---|
| `HeapModel`, `HeapLaws`, `HeapRuns` | the best-fit pmem heap as a sequence of blocks: allocation against a bitmap of free units, freeing, whole runs |
| `BestFit` | the same heap as the source has it: a doubly linked chunk list changed in place, proved equal to the sequence |
| `Pmem` | pmem buffers on that heap, with every device call free to fail |
| `LockWord` | the lock word of a gralloc handle, at compare-and-swap granularity |
| `FramePost` | the asynchronous framebuffer posting protocol of two threads |
| `Civil`, `Nmea`, `NmeaBuffer`, `NmeaFix`, `NmeaDates`, `Rollover` | calendar arithmetic, the NMEA date repair on a buffer, what it does to the cells of a sentence, and the timestamp repair |
| `Xtra` | block-wise injection of predicted orbits, with retries |
| `TimerRuns`, `RilRings` | the timers and pending callbacks of the RIL event loop: whole runs on values, and the linked lists |
| `WatchTable` | its descriptor watches: whole runs, and the table in memory with the list it queues into |
| `LoopRuns`, `EventReplay` | timers, watches and callbacks in one run, and every such run on the lists and the table in memory |
| `WakeLock`, `WakeThreads` | the wake lock and its release timers: calls that are not interrupted, and every interleaving of their single accesses |
| `TokenTable`, `ShimRuns`, `ShimCopies` | the RIL shim: pending requests, their heap copies, and how the copies are laid out |
| `Copybit`, `CopybitBlit` | blit rectangles under scaling, rotation and flips, and the batches sent to the driver |
| `Seqs`, `Words`, `Bits` | sequences with one element put in or taken out; 32-bit arithmetic; bytes as words of bits |

Code that changes things step by step is a class or a method on arrays, proved equal to a function of the old
state; protocols between threads are state machines over single accesses to shared data, and their theorems hold of
every schedule or say of exactly which ones. Integer widths are written out where the source depends on them:
`size_t` wraps at 2^32, copybit fields are 32-bit unsigned, the XTRA offset has 16 bits and its part number 8.

Where the code does not do what one would expect, the model follows the code, and a lemma says exactly when it does:

* A heap request within 31 bytes of 2^32 wraps to zero units and succeeds (`HeapRuns.AllocSoundIff`); freeing it does
  no harm (`HeapRuns.WrappedUndone`).
* A pmem request of zero bytes is given offset 0 without reserving it; if its setup fails, or when it is given
  back, whatever starts at offset 0 is freed (`Pmem.StepKeepsIff`, `Pmem.ZeroSizeSafeIff`).
* `free_pmem_buffer` returns 0 even when the unmap failed, because the inner `err` hides the outer one
  (`PmemBuffers.BufferAllocator.FreeBuffer`).
* A second NMEA pass changes ZDA dates from before 1999-08-22 once more (`NmeaBuffer.SecondPass`, with a sentence
  of 1980 in `NmeaBuffer.OldDateMovesTwice`), and the two rollover repairs agree from that day on only
  (`Rollover.RepairsAgree`).
* For every length over 65536 there is XTRA data that is sent wrongly (`Xtra.CoversIff`), and with more than 255
  parts a try does not end unless the engine refuses one (`Xtra.EndsIff`, `Xtra.UncountableEndsIff`).
* `ril_event_del` of an event that is not watched returns with the mutex taken (`WatchTable.Table.Del`), a ninth
  watch is dropped silently, and a second watch of one descriptor undoes the table (`WatchTable.Table.Add`).
* A watch that is deleted while its callback is pending is called back all the same (`LoopRuns.DeletedStillCalled`).
* A 65th request is not tracked by the shim; its completion is passed on untranslated and its copy is never freed
  (`ShimRuns.PairedIff`, `ShimRuns.StrayNeverFreed`, and a run in `ShimRuns.SixtyFiveRequests`).
* Responses and timer callbacks share `s_last_wake_timeout_info` without a lock. Five kinds of steps undo the
  protocol, and no others do (`WakeThreads.OrderlyIff`, `WakeThreads.HazardBreaks`): a callback compares a record
  whose address is not stored yet, clears a name that a response has tested, or frees a record that a response is
  about to mark; a response stores its name between the comparison and the clearing, or while another response is
  between loading the old name and storing its own. Runs that end with the name of a freed record, a store through
  NULL, a store into a freed record and two release timers are given.
* The wake lock is given up early by a response that cannot be marshalled and by a callback that runs while a
  later response needs the lock (`WakeThreads.AwakeIff`).
* A compositor call ends unless spurious wake-ups go on for ever (`FramePost.CallEnds`, `FramePost.SpuriousCircle`).
* A region rectangle outside the blit destination is not recognised as empty (`Copybit.DstWithinIff`).
* A stretch of a part of the source reads another part if scaling moves the origin of that part
  (`Copybit.PartReadIff`), and a rotated one does unless the part starts as far down as it starts to the right
  (`Copybit.RotatedPartIff`).

## Model

| member | source | states |
|---|---|---|
| HeapModel.Units | libgralloc/allocator.cpp:84-84 | the least number of 32-byte units that holds the request, if rounding up does not wrap |
| HeapModel.HostInBest | libgralloc/allocator.cpp:85-102 | the search loop picks the first of the smallest free blocks that can hold the aligned request, and none exactly when there is none |
| HeapModel.BestHost | libgralloc/allocator.cpp:85-102 | the same for the whole list: fits, minimal size, lowest address among equals; -1 iff nothing fits |
| HeapModel.ExactFitSettles | libgralloc/allocator.cpp:92-100 | leaving the loop at an exact fit never changes the choice |
| HeapModel.Find | libgralloc/allocator.cpp:133-136 | the first block that starts at the offset, or none |
| HeapLaws.AllocComplete | libgralloc/allocator.cpp:79-129 | allocation fails if and only if the bitmap of free 32-byte units has no page-aligned free run of the requested length |
| HeapLaws.RunInOneBlock | libgralloc/allocator.cpp:89-102 | a free run lies within one block, which is why looking at single blocks is enough |
| HeapLaws.PlaceWellFormed | libgralloc/allocator.cpp:104-127 | carving keeps the blocks tiling the heap in address order, with no two free neighbours and used blocks aligned |
| HeapLaws.PlaceBitmap | libgralloc/allocator.cpp:104-127 | carving takes exactly the units handed out from the bitmap, and they were free |
| HeapLaws.ReleaseIsCoalesced | libgralloc/allocator.cpp:141-154 | the merging loop fuses the freed block with its free neighbours and no others |
| HeapLaws.ReleaseWellFormed | libgralloc/allocator.cpp:131-165 | freeing keeps the tiling, with no two free neighbours |
| HeapLaws.ReleaseBitmap | libgralloc/allocator.cpp:131-165 | freeing returns exactly the units of the freed block |
| HeapLaws.ZeroRoundTrip | libgralloc/allocator.cpp:141-154 | freeing a block of no units restores the identical block sequence: it goes into the block below even if that is used |
| HeapLaws.AllocFreeRoundTrip | libgralloc/allocator.cpp:104-164 | freeing the block just carved restores the identical block sequence, head and tail splits merged back |
| HeapRuns.AllocBySize | libgralloc/allocator.cpp:79-129 | when n is the least number of units for the size, allocation fails if and only if the bitmap has no free run of n units on a page boundary, and otherwise takes exactly such a run |
| HeapRuns.AllocKeeps | libgralloc/allocator.cpp:79-129 | allocation, successful or not, keeps the heap in order and its used blocks equal to the live ones |
| HeapRuns.FreeKeeps | libgralloc/allocator.cpp:131-165 | freeing a live offset keeps that and ends the life of that block alone |
| HeapRuns.RunKeeps | libgralloc/allocator.cpp:60-165 | so does every run of allocations and frees of live offsets |
| HeapRuns.RunSafe | libgralloc/allocator.cpp:60-165 | after any run from a fresh heap live blocks are page aligned, inside the heap, disjoint, and large enough with less than a unit to spare |
| HeapRuns.LiveSafe | libgralloc/allocator.cpp:60-165 | the same from any heap in order |
| HeapRuns.AllocThenFree | libgralloc/allocator.cpp:60-77 | allocate followed by deallocate of the returned offset is the identity on any reachable heap |
| HeapRuns.FreeAllRestores | libgralloc/allocator.cpp:131-165 | freeing all live blocks in any order leaves the single initial free block |
| HeapRuns.AllocSoundIff | libgralloc/allocator.cpp:84-84 | a successful allocation has the least number of units for its size, and keeps the heap in order, if and only if rounding up does not wrap at 2^32 |
| HeapRuns.WrappedUndone | libgralloc/allocator.cpp:84-165 | freeing the offset that a wrapped request returned finds its block and restores the block sequence |
| HeapRuns.WrappedRequestSucceeds | libgralloc/allocator.cpp:84-84 | a request of 2^32 - 1 bytes succeeds on any fresh heap and reserves nothing |
| BestFit.RoundToPage | libgralloc/allocator.cpp:43-52 | the least multiple of 4096 that holds the size, and 0 if rounding wraps |
| BestFit.ChunkList.InsertAfter | libgralloc/allocator.h:47-53 | the list, linked both ways, with the new node right after the given one |
| BestFit.ChunkList.InsertBefore | libgralloc/allocator.h:55-61 | the list, linked both ways, with the new node right before the given one |
| BestFit.ChunkList.InsertHead | libgralloc/allocator.h:63-73 | the list, linked both ways, with the new node in front |
| BestFit.ChunkList.Remove | libgralloc/allocator.h:86-92 | the list, linked both ways, without the node |
| BestFit.Allocator.SetSize | libgralloc/allocator.cpp:43-52 | the first call makes one free block of the rounded size; later ones are refused |
| BestFit.Allocator.Scan | libgralloc/allocator.cpp:85-102 | the loop with its early exit returns the chunk of the best host |
| BestFit.Allocator.Carve | libgralloc/allocator.cpp:104-127 | splitting in place gives the carved block sequence |
| BestFit.Allocator.Lookup | libgralloc/allocator.cpp:133-136 | the walk along the list stops at the first chunk that starts at the offset, or at its end |
| BestFit.Allocator.Allocate | libgralloc/allocator.cpp:60-129 | every outcome: no heap, size 0, no room, or the offset of the carved block with the list changed accordingly; by size: -ENOMEM if and only if there is no free run of the least number of units on a page boundary, else the byte offset of the run taken |
| BestFit.Allocator.MergeAround | libgralloc/allocator.cpp:144-154 | the merging loop on the list does what it does on the sequence |
| BestFit.Allocator.Absorb | libgralloc/allocator.cpp:147-152 | the chunk below grows by the chunk that is unlinked |
| BestFit.Allocator.Deallocate | libgralloc/allocator.cpp:68-165 | every outcome: no heap, unknown offset, or the block released |
| BestFit.Replay | libgralloc/allocator.cpp:43-165 | any legal run on the linked list leaves it linked, with the blocks of the run on values, which tile the heap |
| Pmem.ReserveGives | libgralloc/pmemalloc.cpp:145-160 | a request gives a buffer if and only if it is of zero bytes or there is a free run of the least number of units for it, which it takes |
| Pmem.StepKeepsIff | libgralloc/pmemalloc.cpp:145-213 | a step of any call, whatever the device answers, keeps the buffers in one-to-one correspondence with live heap blocks if and only if it does not give back an empty buffer while a buffer starts at offset 0 |
| Pmem.RunKeepsIff | libgralloc/pmemalloc.cpp:145-213 | a run keeps that at every step if and only if it has no such step |
| Pmem.BuffersDisjoint | libgralloc/pmemalloc.cpp:145-213 | on every such run buffers handed out, being set up or stranded by a failed unmap, empty ones included, are aligned, inside the heap, disjoint, and large enough with less than a unit to spare |
| Pmem.StrandedForever | libgralloc/pmemalloc.cpp:201-209 | a buffer whose unmap failed keeps its record in every later run, and as long as no empty buffer is given back over another its units are neither free nor in another buffer |
| Pmem.FailedSetupUndoes | libgralloc/pmemalloc.cpp:174-180 | a failed sub-heap setup restores the pool exactly |
| Pmem.GivenBackExactly | libgralloc/pmemalloc.cpp:174-209 | giving a buffer back frees its own units and disturbs no other buffer, unless it is empty and a buffer starts at offset 0 |
| Pmem.ZeroSizeSafeIff | libgralloc/pmemalloc.cpp:151-209 | a request of zero bytes whose setup fails, or that is set up, freed and unmapped, leaves the pool in order if and only if no buffer starts at offset 0 |
| Pmem.ZeroSizeOverlap | libgralloc/pmemalloc.cpp:151-180 | a legal run that ends with two buffers at the same offset |
| PmemBuffers.AllocIsSteps | libgralloc/pmemalloc.cpp:145-193 | what alloc_pmem_buffer does to the chunk list and the offset it uses are those of the steps of the interleaved model, for every device outcome |
| PmemBuffers.FreeIsSteps | libgralloc/pmemalloc.cpp:196-213 | so is what free_pmem_buffer does |
| PmemBuffers.BufferAllocator.AllocBuffer | libgralloc/pmemalloc.cpp:145-193 | success if and only if room, open, connect and map are given; on failure what was taken is freed, and for a proper size the heap is as before |
| PmemBuffers.BufferAllocator.FreeBuffer | libgralloc/pmemalloc.cpp:196-213 | the block is freed only after a successful unmap, and 0 is returned in any case |
| LockWord.EncodeInjective | libgralloc/gralloc_priv.h:117-121 | the 32-bit word holds write bit, mapped bit and count without loss |
| LockWord.SwapCompares | libgralloc/mapper.cpp:229-233 | comparing the encoded integers, as the swap does, is comparing the words, since counts stay below 2^30 |
| LockWord.StepKeeps | libgralloc/mapper.cpp:190-323 | every single step of every session, successful swap or not, keeps the protocol invariant |
| LockWord.RunKeeps | libgralloc/mapper.cpp:190-323 | so does every schedule of any number of sessions |
| LockWord.MutualExclusion | libgralloc/mapper.cpp:203-237 | the count equals the number of holders, a holder for software writing or rendering holds alone, and the write bit is set if and only if there is one |
| LockWord.RefusedIff | libgralloc/mapper.cpp:203-221 | a lock is refused if and only if a holder may write, or it is for writing and anybody holds |
| LockWord.TakenIff | libgralloc/mapper.cpp:223-233 | the swap takes the lock if and only if the word is the one read, and otherwise the word is read again |
| LockWord.UsageAsked | libgralloc/mapper.cpp:190-237 | a session in a lock works with the usage that this lock was asked for |
| LockWord.UnlockSucceeds | libgralloc/mapper.cpp:281-320 | a writer's unlocking swap never fails and clears the write bit, after exactly one flush if the lock was for software writing to a pmem buffer that is not the framebuffer and none otherwise; no unlock of a held lock is refused |
| LockWord.MappedStaysRun | libgralloc/mapper.cpp:246-267 | once mapped, a handle keeps mapping and address under every schedule |
| LockWord.SameAddress | libgralloc/mapper.cpp:246-267 | a handle is mapped at most once, and all locks for software access that return 0 see the address it is mapped at |
| LockWord.OnlySoftwareMaps | libgralloc/mapper.cpp:251-263 | only a lock for software access maps the handle |
| LockWord.ErrorMeans | libgralloc/mapper.cpp:256-269 | a lock returns an error only if its own call of gralloc_map has failed |
| LockWord.AddressChanges | libgralloc/mapper.cpp:251-266 | the address changes only in that call, to what mmap returns or to 0, and never for the framebuffer |
| LockWord.StepAdvances | libgralloc/mapper.cpp:190-323 | every step brings a session further, except for a failed swap and the wait for sMapLock while another session has it |
| LockWord.FailedSwap | libgralloc/mapper.cpp:203-237 | a swap fails only if, since its load, another session has taken the lock, given it back or mapped the handle |
| FramePost.RunKeeps | libgralloc/framebuffer.cpp:126-206 | every step of compositor and poster, with spurious wake-ups, keeps the posting invariant |
| FramePost.PannedInOrder | libgralloc/framebuffer.cpp:126-206 | frames are panned in post order, once each, at most one on its way; a buffer stays locked until its pan has returned; close comes after the last pan |
| FramePost.EveryFrameHandedOver | libgralloc/framebuffer.cpp:159-206 | on every run, between calls the frames handed over are those of all calls of fb_post so far, in order, and the buffer of the last call is current and the only one locked; when fb_close has returned all of them have been panned |
| FramePost.NoLostWakeup | libgralloc/framebuffer.cpp:126-157 | the poster never sleeps on a handed-over frame or a quit, the compositor never on an idle poster |
| FramePost.NeverStuck | libgralloc/framebuffer.cpp:126-206 | inside any call one of the two threads can move |
| FramePost.StepsRunOut | libgralloc/framebuffer.cpp:126-206 | every step of a thread lowers a rank |
| FramePost.CallEnds | libgralloc/framebuffer.cpp:126-206 | inside one call of fb_post, its wait or fb_close the effective steps of any schedule are at most a fixed number plus 23 for each spurious wake-up |
| FramePost.CallReturns | libgralloc/framebuffer.cpp:126-206 | when neither thread can move the call has returned |
| FramePost.SpuriousCircle | libgralloc/framebuffer.cpp:151-157 | spurious wake-ups lead a waiting compositor in a circle, so the bound cannot do without them |
| Civil.DateRoundTrip | gps/libloc_api/loc_eng.cpp:1307-1328 | every date of the Gregorian calendar, in any year, is recovered from its day number |
| Civil.DaysRoundTrip | gps/libloc_api/loc_eng.cpp:1307-1328 | every day number, negative ones included, gives a valid date with that number |
| Civil.TomorrowIsNext | gps/libloc_api/loc_eng.cpp:1307-1315 | the calendar successor of a date has the next day number |
| Civil.CountsDays | gps/libloc_api/loc_eng.cpp:1307-1315 | day number n is n days after 1970-01-01 |
| Nmea.PutRead | gps/libloc_api/loc_eng.cpp:1341-1354 | digits that are written are read back |
| Nmea.MovedDays | gps/libloc_api/loc_eng.cpp:1389-1394 | a stale date moves on by 7168 days and stays readable in the width it has |
| Nmea.StaleFixed | gps/libloc_api/loc_eng.cpp:1366-1405 | one iteration on a stale sentence moves its date, keeps its layout, makes its checksum field match and changes nothing else |
| Nmea.FixChecksumHolds | gps/libloc_api/loc_eng.cpp:1396-1405 | the checksum field holds the exclusive or of the body |
| Nmea.SecondPassAt | gps/libloc_api/loc_eng.cpp:1366-1405 | repeating an iteration is the identity if and only if the sentence settles; an RMC sentence always does |
| NmeaBuffer.BufferMended | gps/libloc_api/loc_eng.cpp:1360-1406 | the in-place loop repairs every sentence as if it were alone, and no other cell |
| NmeaBuffer.BufferFixed | gps/libloc_api/loc_eng.cpp:1360-1406 | in the repaired buffer each stale date parses to exactly 7168 days later and each rewritten checksum field holds |
| NmeaBuffer.OnlyStaleCells | gps/libloc_api/loc_eng.cpp:1360-1406 | a cell that changes is a date or checksum digit of a sentence dated before 2019-04-07 |
| NmeaBuffer.StaleAfter | gps/libloc_api/loc_eng.cpp:1360-1406 | a sentence is still stale after the repair if and only if 1024 weeks do not suffice |
| NmeaBuffer.SecondPass | gps/libloc_api/loc_eng.cpp:1360-1406 | a second pass is the identity if and only if every sentence settles |
| NmeaBuffer.OldDateMovesTwice | gps/libloc_api/loc_eng.cpp:1360-1406 | a ZDA sentence of 1980-01-01 that a second pass changes again |
| NmeaBuffer.AnyBuffer | gps/libloc_api/loc_eng.cpp:1360-1406 | in any buffer, overlapping sentences included, only decimal and hexadecimal digits change, to such digits |
| NmeaFix.FindField | gps/libloc_api/loc_eng.cpp:1332-1340 | the start of field n, or -1 when the sentence ends first |
| NmeaFix.ReadDigits | gps/libloc_api/loc_eng.cpp:1341-1350 | the value of the digits, or -1 |
| NmeaFix.PutDigits | gps/libloc_api/loc_eng.cpp:1351-1354 | the buffer with the value written in place |
| NmeaFix.FindDate | gps/libloc_api/loc_eng.cpp:1370-1384 | where the date fields of an RMC or ZDA sentence are, with every reason to skip it |
| NmeaFix.SumBody | gps/libloc_api/loc_eng.cpp:1396-1398 | the end of the body and its exclusive or |
| NmeaFix.PatchChecksum | gps/libloc_api/loc_eng.cpp:1396-1405 | the two hexadecimal digits after the body are rewritten if they are there |
| NmeaFix.FixSentence | gps/libloc_api/loc_eng.cpp:1367-1405 | the array after one iteration of the loop, for every reason to skip the sentence and for a stale one |
| NmeaFix.FixDates | gps/libloc_api/loc_eng.cpp:1360-1406 | the array holds the repaired buffer, sentence by sentence for sentences that do not overlap |
| NmeaDates.LocateIff | gps/libloc_api/loc_eng.cpp:1366-1384 | counted over the cells: the date of an RMC sentence is behind its ninth comma, in six cells before a comma, that of a ZDA sentence behind its second, third and fourth, and there is none in every other case |
| NmeaDates.StaleIff | gps/libloc_api/loc_eng.cpp:1366-1389 | the sentences repaired are exactly those whose digits there make a day, a month and a year before 2019-04-07 |
| NmeaDates.DateRepaired | gps/libloc_api/loc_eng.cpp:1360-1406 | in the repaired buffer the digits in the same fields make the date 7168 days later |
| NmeaDates.SumRepaired | gps/libloc_api/loc_eng.cpp:1396-1405 | and the two cells behind the star spell, in upper case, a number each bit of which is the parity of that bit over the new body |
| NmeaDates.SumBit | gps/libloc_api/loc_eng.cpp:1396-1398 | a bit of the sum is set if and only if an odd number of cells have it set |
| NmeaDates.OthersUntouched | gps/libloc_api/loc_eng.cpp:1360-1406 | a cell changes only if the sentence it belongs to carries such a date |
| NmeaDates.RmcDateRepaired | gps/libloc_api/loc_eng.cpp:1360-1406 | an RMC sentence of 2005-08-25 that carries 2025-04-10 afterwards |
| Rollover.FixTimestamp | gps/libloc_api/loc_eng.cpp:1000-1004 | the loop ends and computes the repaired instant |
| Rollover.FixedWindow | gps/libloc_api/loc_eng.cpp:1000-1004 | an instant between 1970 and 2019-04-07 becomes the only one in the 1024 weeks from then on that differs by whole periods, any other stays; repairing again changes nothing |
| Rollover.RepairsAgree | gps/libloc_api/loc_eng.cpp:1000-1004 | both repairs give the same day if and only if the instant is not before 1999-08-22 |
| Rollover.DatesAgree | gps/libloc_api/loc_eng.cpp:1389-1394 | on a stale NMEA date the repaired instant falls on the repaired date if and only if it is not before 1999-08-22 |
| Xtra.PlanCovers | gps/libloc_api/loc_eng_xtra.cpp:124-183 | up to 65536 bytes the blocks run together are exactly the data |
| Xtra.CoversIff | gps/libloc_api/loc_eng_xtra.cpp:118-183 | that bound is tight: all data of a length is sent right if and only if the length is at most 65536 |
| Xtra.PlanNumbered | gps/libloc_api/loc_eng_xtra.cpp:133-136 | the blocks are numbered from 1 if a byte can count them |
| Xtra.EndsIff | gps/libloc_api/loc_eng_xtra.cpp:133-183 | a try ends if and only if there are at most 255 parts or the engine refuses one |
| Xtra.CountableEnds | gps/libloc_api/loc_eng_xtra.cpp:133-196 | with at most 255 parts all tries end, whatever the engine answers |
| Xtra.UncountableEndsIff | gps/libloc_api/loc_eng_xtra.cpp:133-196 | with more parts the tries end if and only if the engine refuses one call for each |
| Xtra.InjectOne | gps/libloc_api/loc_eng_xtra.cpp:111-186 | a try that ends sends the blocks up to its end in order, and returns 0 if the last one was accepted and EIO otherwise |
| Xtra.TryMeans | gps/libloc_api/loc_eng_xtra.cpp:111-186 | with at most 255 parts that is a prefix of the whole up to the first refusal, and success if and only if all blocks are accepted |
| Xtra.Inject | gps/libloc_api/loc_eng_xtra.cpp:187-196 | at most three tries, each from the first block on; success if and only if the last one gets every block accepted, and all earlier ones failed; asked only of the tries that are made is that they end |
| TimerRuns.RunKeeps | ril/libril/ril_event.cpp:159-214 | every run of rounds and timer additions, also from callbacks, keeps the loop invariant |
| TimerRuns.TimersFireInOrder | ril/libril/ril_event.cpp:159-214 | the list is sorted; timers fire once at most, after their deadline, in deadline order with ties newest first; a round starts with nothing pending |
| TimerRuns.NoneLeftExpired | ril/libril/ril_event.cpp:159-181 | a timeout pass leaves no expired timer in the list |
| TimerRuns.NoneLost | ril/libril/ril_event.cpp:159-214 | every timer ever added is in the list, pending or fired |
| TimerRuns.DeadlinesKept | ril/libril/ril_event.cpp:159-313 | every timer that waits, is pending or has fired has the deadline it was added with |
| TimerRuns.WatchesOnce | ril/libril/ril_event.cpp:183-214 | over any run every queued watch is called back or pending, once each, in the order of queueing, and none is left when a round starts |
| RilRings.AddToList | ril/libril/ril_event.cpp:116-123 | the ring, linked both ways, with the event before the given one |
| RilRings.RemoveFromList | ril/libril/ril_event.cpp:125-134 | the ring, linked both ways, without the event |
| RilRings.TimersAreMicros | ril/libril/ril_event.cpp:287-313 | the timer macros on normal time values add and compare microseconds |
| RilRings.EventLists.FindSlot | ril/libril/ril_event.cpp:302-306 | the walk stops at the first timer not due earlier, or at the list head |
| RilRings.EventLists.AddTimer | ril/libril/ril_event.cpp:287-313 | the timer goes before the first one that is not due earlier, and the list stays sorted |
| RilRings.EventLists.Expire | ril/libril/ril_event.cpp:171-177 | one turn of the loop moves the first timer to the end of the pending list, both rings staying linked |
| RilRings.EventLists.ProcessTimeouts | ril/libril/ril_event.cpp:159-181 | exactly the timers past their deadline move, in order, to the end of the pending list |
| RilRings.EventLists.NextTimeout | ril/libril/ril_event.cpp:216-242 | select sleeps until the first of all timers is due, not at all if one is overdue, and for ever without timers |
| RilRings.EventLists.Queue | ril/libril/ril_event.cpp:190-191 | a ready watch goes to the end of the pending list that timers use |
| RilRings.EventLists.Unlink | ril/libril/ril_event.cpp:206-210 | the first pending event is unlinked, and the successor saved before is the new first one |
| RilRings.EventLists.FirePending | ril/libril/ril_event.cpp:203-214 | with timers added by every callback, following the saved successors fires all that was pending, in order, and leaves the list empty |
| WatchTable.TableAgrees | ril/libril/ril_event.cpp:137-201 | over every run of additions, deletions and wake-ups the select set is exactly the watched descriptors, no two alike, and the bound is the greatest plus one |
| WatchTable.WatchedAfter | ril/libril/ril_event.cpp:137-329 | adding puts a watch into the table if there is room, deleting takes out that watch, a wake-up takes out those it serves that are not persistent, and no other watch comes or goes |
| WatchTable.WakeQueuesAll | ril/libril/ril_event.cpp:183-201 | with the count that select reports, a wake-up queues a watch in its round if and only if it is ready |
| WatchTable.QueuedAtMostAdded | ril/libril/ril_event.cpp:183-284 | on every run a watch that is not persistent is queued no more often than it was added |
| WatchTable.ServeMeans | ril/libril/ril_event.cpp:183-201 | the loop serves the first n ready watches in slot order, and those that are not persistent leave the table |
| WatchTable.AllReadyServed | ril/libril/ril_event.cpp:183-201 | with the count that select reports every ready slot is served |
| WatchTable.ServedIsCut | ril/libril/ril_event.cpp:188-197 | with any count, that many watches or all ready ones are served |
| WatchTable.AddedIff | ril/libril/ril_event.cpp:266-284 | adding a watch keeps table, select set and bound in agreement if and only if its descriptor is not watched yet |
| WatchTable.Table.Add | ril/libril/ril_event.cpp:266-284 | the first empty slot takes the watch, with descriptor set, bound and index to match; a full table changes nothing; the table stays valid if and only if it is full or the descriptor was new |
| WatchTable.Table.Greatest | ril/libril/ril_event.cpp:145-153 | the greatest watched descriptor, counting from 0 |
| WatchTable.Table.RemoveWatch | ril/libril/ril_event.cpp:137-157 | slot, index, descriptor set and bound go together |
| WatchTable.Table.Del | ril/libril/ril_event.cpp:316-329 | a watched event leaves the table; the mutex stays taken if and only if the event holds no slot |
| WatchTable.Table.ProcessReadReadies | ril/libril/ril_event.cpp:183-201 | table, select set, bound and indices are those of the run on values, and the watches served are linked to the end of the pending list in slot order |
| LoopRuns.Projects | ril/libril/ril_event.cpp:159-329 | a run of the whole loop, with timers and watches added and watches deleted between any two steps, is a run of the lists and a run of the table |
| LoopRuns.LoopKeeps | ril/libril/ril_event.cpp:159-329 | the invariants of the lists and of the table hold on every such run |
| LoopRuns.CalledInOrder | ril/libril/ril_event.cpp:183-214 | whatever callbacks add and delete, watches are called back in the order in which they were queued, once for each time, and all of them by the end of the round |
| LoopRuns.CalledAtMostAdded | ril/libril/ril_event.cpp:183-284 | a watch that is not persistent is called back no more often than it was added |
| LoopRuns.RoundFires | ril/libril/ril_event.cpp:203-214 | between the wake-up and the end of firePending nothing joins or leaves the round: what was pending is called back, in order, and nothing else is |
| LoopRuns.DeletedStillCalled | ril/libril/ril_event.cpp:203-329 | deleting a watch takes it out of the table at once and does not take back its pending callback |
| LoopRuns.DeletedWhilePending | ril/libril/ril_event.cpp:183-329 | a run that reaches such a deletion, for any persistent watch |
| EventReplay.Add | ril/libril/ril_event.cpp:287-313 | one addition on the lists is one addition in the run on values |
| EventReplay.Timeouts | ril/libril/ril_event.cpp:159-181 | so is a timeout pass |
| EventReplay.Readies | ril/libril/ril_event.cpp:183-201 | so is a wake-up, on the table and on the pending list at once |
| EventReplay.Fire | ril/libril/ril_event.cpp:203-214 | so is a turn of firePending from its saved successor |
| EventReplay.Watching | ril/libril/ril_event.cpp:266-329 | so are adding and deleting a watch |
| EventReplay.Replay | ril/libril/ril_event.cpp:137-329 | after any legal run of the loop, with watches added and deleted while others are pending, the timer and pending lists, linked both ways, and the table with select's arguments are those of the run on values, and the saved successor is the next to fire |
| TokenTable.Pending.Add | ril/rilshim/rilshim.c:119-136 | the first empty slot takes the request; a full table is unchanged |
| TokenTable.Pending.Take | ril/rilshim/rilshim.c:138-156 | the slot of the token is emptied and its contents returned, or -1 and no copy |
| TokenTable.RoomIff | ril/rilshim/rilshim.c:119-136 | there is room if and only if fewer tokens than slots are in the table |
| TokenTable.PutTake | ril/rilshim/rilshim.c:119-156 | what is filed under a token is what is taken out, and other tokens are not disturbed |
| TokenTable.NullTakesStale | ril/rilshim/rilshim.c:138-156 | a NULL token would be answered from an empty slot with a copy already freed |
| ShimRuns.RunKeeps | ril/rilshim/rilshim.c:119-156 | every interleaving of requests and completions keeps table, flights and copies consistent |
| ShimRuns.PairedIff | ril/rilshim/rilshim.c:287-311 | a completion is translated by its own request and frees its own copy if and only if its token was filed or needed no filing |
| ShimRuns.CompletionPairedIff | ril/rilshim/rilshim.c:287-311 | so is what the completion then works on, and otherwise it works on no request and no copy |
| ShimRuns.CompletionAlone | ril/rilshim/rilshim.c:287-311 | a completion goes through, its token is answered and forgotten, and the copy is freed if and only if the request had one and was filed |
| ShimRuns.OutstandingAfter | ril/rilshim/rilshim.c:287-311 | every request, tracked or not, is outstanding until its completion |
| ShimRuns.CopiesMade | ril/rilshim/rilshim.c:119-136 | a run makes as many copies as it has requests that need one |
| ShimRuns.TrackedAfter | ril/rilshim/rilshim.c:119-156 | a request is filed if and only if fewer than 64 are, and stays filed until its completion |
| ShimRuns.FreedOnce | ril/rilshim/rilshim.c:287-311 | on every run no copy is freed twice, nor while its request or completion still needs it |
| ShimRuns.AllFreed | ril/rilshim/rilshim.c:287-311 | with at most 64 tracked at a time every completion works on its own request and copy, and once all is answered exactly the copies made have been freed |
| ShimRuns.OverflowStrays | ril/rilshim/rilshim.c:119-136 | the copy of a request that a full table refuses is a stray |
| ShimRuns.SixtyFiveRequests | ril/rilshim/rilshim.c:119-136 | 65 requests that are not answered reach that |
| ShimRuns.StrayNeverFreed | ril/rilshim/rilshim.c:138-156 | a stray copy is never freed, whatever follows |
| ShimCopies.CopyStr | ril/rilshim/rilshim.c:340-354 | the string and its terminator stand at the cursor, the cursor has moved past them, and no other byte changed |
| ShimCopies.StringsWithAid | ril/rilshim/rilshim.c:404-423 | one allocation of exactly the computed size holds the pointers, as words in memory, and behind them all strings and the AID |
| ShimCopies.SimIoToQc | ril/rilshim/rilshim.c:362-385 | the ten words of the vendor's layout in memory, with pointers to the four strings packed behind them |
| ShimCopies.PackedReadsBack | ril/rilshim/rilshim.c:340-423 | following the pointer read from a word of the header in memory gives the original string back, and absent strings have a NULL pointer |
| ShimCopies.StringsReadBack | ril/rilshim/rilshim.c:404-423 | read through its own pointers, the copy holds the strings with the AID behind them |
| ShimCopies.SimIoReadsBack | ril/rilshim/rilshim.c:362-385 | read through its own pointers, the vendor's layout gives back every field and all four strings of the SIM access |
| ShimCopies.PackedApart | ril/rilshim/rilshim.c:340-423 | the copies are disjoint, behind the header and inside the allocation |
| WakeThreads.OrderlyIff | ril/libril/ril.cpp:2777-2926 | from an orderly state a single access of any response or callback leads out of order if and only if it is a hazard: a callback compares a record not yet stored, clears a name just tested, or frees a record a response is about to mark; a response stores between comparison and clearing, or while another one is between loading the old name and storing its own |
| WakeThreads.ScheduleIff | ril/libril/ril.cpp:2777-2926 | a schedule of any number of response threads and the loop stays in order throughout if and only if it has no hazard |
| WakeThreads.HeldOnlyWithTimer | ril/libril/ril.cpp:2777-2926 | on every schedule without a hazard no store misses, the name is never that of a freed record and no release timer goes astray; between calls the lock is held only with exactly one release timer, the named one |
| WakeThreads.HazardBreaks | ril/libril/ril.cpp:2878-2926 | after a hazard at most three steps of the calls under way lead to a bad store, a freed name or a second release timer |
| WakeThreads.HazardousBreaks | ril/libril/ril.cpp:2878-2926 | so every schedule with a hazard has a continuation from its first one that breaks |
| WakeThreads.SeparateNoHazard | ril/libril/ril.cpp:2475-2489 | from an orderly state in which no response is about to mark the record being freed there is no hazard if callbacks do not compare or clear while a response is between its test and its store, and no two responses are there at once |
| WakeThreads.FreedNameReached | ril/libril/ril.cpp:2883-2922 | a schedule that ends with the name of a freed record |
| WakeThreads.NullStoreReached | ril/libril/ril.cpp:2879-2880 | a schedule that ends with a store through NULL |
| WakeThreads.FreedStoreReached | ril/libril/ril.cpp:2879-2880 | a schedule that ends with a store into a freed record |
| WakeThreads.TwoTimersReached | ril/libril/ril.cpp:2879-2885 | a schedule of two responses that ends with two release timers |
| WakeThreads.AwakeIff | ril/libril/ril.cpp:2765-2895 | the lock is given up while it is needed by exactly two kinds of steps: a response that cannot be marshalled and the callback of a timer, each while another response or a later timer needs the lock |
| WakeThreads.ResponseAlone | ril/libril/ril.cpp:2777-2895 | the accesses of a response without interruption are the single step of WakeLock, without a hazard |
| WakeThreads.CallbackAlone | ril/libril/ril.cpp:2475-2489 | so are those of a callback |
| WakeThreads.VendorAlone | ril/libril/ril.cpp:2928-2934 | so is a timer of the vendor library |
| WakeLock.RunKeeps | ril/libril/ril.cpp:2475-2489 | every run of responses, vendor timers and callbacks that do not interrupt each other keeps the protocol invariant, with record addresses used again |
| WakeLock.HeldOnlyWithTimer | ril/libril/ril.cpp:2777-2895 | on such runs the lock is held only with exactly one release timer, the one `s_last_wake_timeout_info` names, which is never a freed record |
| WakeLock.ResponseWakes | ril/libril/ril.cpp:2777-2895 | a waking response leaves the lock held with its own timer the only one to release it if it is marshalled, and gives the lock up if not |
| WakeLock.TimersMean | ril/libril/ril.cpp:2475-2489 | a vendor timer releases nothing; a callback frees its own record and gives the lock up if and only if its timer was to release it |
| WakeLock.TimersRelease | ril/libril/ril.cpp:2765-2774 | once the outstanding timers have fired the lock is free and nothing is left |
| WakeLock.AwakeIff | ril/libril/ril.cpp:2891-2895 | between calls the lock is kept until the timer fires, except if and only if a waking response cannot be marshalled while one is outstanding |
| WakeLock.LockLostEarly | ril/libril/ril.cpp:2891-2895 | two responses that show it |
| WakeLock.Daemon.OnUnsolicitedResponse | ril/libril/ril.cpp:2777-2926 | the code of a response, run without interruption, does what its step says and keeps the invariant |
| WakeLock.Daemon.UserTimerCallback | ril/libril/ril.cpp:2475-2489 | so does the code of a timer callback |
| Copybit.ScaledWithin | libcopybit/copybit.cpp:104-109 | scaling the two fields of a span does not wrap and stays within the source |
| Copybit.BlitInside | libcopybit/copybit.cpp:162-229 | under every scale, rotation and flip a full-surface blit with a non-empty clip reads inside the source and writes inside the destination; YUV sizes are even |
| Copybit.ScaledFloor | libcopybit/copybit.cpp:104-109 | within 4096 pixels scaling gives the floor of the exact value, without wrapping |
| Copybit.ScaledReads | libcopybit/copybit.cpp:162-229 | at any scale, rotation and flip the part of the source read for a clip starts and is as long as the clip, scaled and rounded down, and to even numbers for YUV |
| Copybit.WholeSurface | libcopybit/copybit.cpp:162-229 | a clip of the whole destination reads the whole source and writes the whole destination at any scale, up to the last odd row and column for YUV |
| Copybit.StretchReads | libcopybit/copybit.cpp:162-193 | for any parts of source and destination the offset of the clip is added to the origin of the source part before scaling |
| Copybit.PartReadIff | libcopybit/copybit.cpp:162-193 | as much of the source is read as asked for, and in the right place if and only if scaling moves the origin up by less than a pixel and not down |
| Copybit.RotatedPartIff | libcopybit/copybit.cpp:173-192 | an unscaled rotated stretch reads the part asked for if and only if its left and top edges have the same coordinate, because the axes take each other's origin |
| Copybit.UnscaledPixels | libcopybit/copybit.cpp:162-229 | without scaling the pixels read are exactly those the transform takes the written pixels from |
| Copybit.FlippedStart | libcopybit/copybit.cpp:222-228 | a flipped YUV span starts on an odd pixel if and only if the image size is odd |
| Copybit.DstWithinIff | libcopybit/copybit.cpp:167-220 | an axis is written inside the destination if and only if the clip is not inverted along it or the YUV clamp cuts it back |
| Copybit.SentInsideIff | libcopybit/copybit.cpp:502-513 | an RGB request that passes the test for empty ones is inside the destination if and only if its clip is not empty |
| Copybit.OutsideClipSent | libcopybit/copybit.cpp:502-513 | a region rectangle outside the destination that passes the test |
| CopybitBlit.SetRects | libcopybit/copybit.cpp:162-229 | the field updates in source order give the request computed axis by axis |
| CopybitBlit.SendSizes | libcopybit/copybit.cpp:515-522 | batches hold 12 requests, the last at least one; only the last may fail, and its status is the result |
| CopybitBlit.SendFlat | libcopybit/copybit.cpp:515-522 | the batches run together are the requests in order, all of them on success and up to the first failing batch otherwise |
| CopybitBlit.SendRegion | libcopybit/copybit.cpp:496-522 | the loop over a fixed array of twelve sends the requests of the region that move something, batch by batch, until one fails |
| CopybitBlit.Stretch | libcopybit/copybit.cpp:443-527 | the checks, with their numbers and formats written out, refuse with -EINVAL and send nothing; otherwise the result is that of the loop |
| CopybitBlit.Blit | libcopybit/copybit.cpp:530-539 | the same for the whole of both surfaces |
| CopybitBlit.BlitRequestsInside | libcopybit/copybit.cpp:530-539 | if every region rectangle meets the destination all requests of a blit stay inside both images, and those of 4:2:0 and 4:2:2 sources have even sizes |
| CopybitBlit.SentAs | libcopybit/copybit.cpp:502-513 | for an RGB source a clip inside the destination is sent, as it is, if and only if it reads at least a pixel |
| CopybitBlit.BlitDraws | libcopybit/copybit.cpp:496-539 | for an RGB source the pixels written are exactly those of the region rectangles that read at least a pixel |

## Left out

- Logging, GL, thread priorities, properties, mmap and ioctl are results handed to the model or are not in it.
- The audio, lights, recovery, wpa, FM, camera and tool directories: tables and calls into code that is not part of this model.
- The RPC stubs, network-initiated requests and deferred actions of the GPS library, and how NMEA sentences reach the listener.
- Parcel marshalling, dispatch tables and the debug socket of the RIL daemon.
- The translation of card status and data call lists in the shim, and the choice of which requests are copied.
- `init_pmem_area` and its degraded mode: the pool starts after a clean initialisation.
- LOG_FATAL_IF checks: they are not in release builds, so no operation of the model aborts.
- LockWord.StepKeeps: the flag update that marks a handle for flushing, and the test before the flush, are one step each; clients unlock what they locked, on the same thread, and there are fewer than 2^30 of them.
- FramePost.RunKeeps: covers the asynchronous mode only, and takes the lock of the posted buffer to succeed.
- NmeaBuffer.BufferMended: asks that no sentence has a second dollar sign in its body, because overlapping sentences are repaired one after the other over shared cells; NmeaBuffer.AnyBuffer says what holds then.
- Pmem.StepKeepsIff: asks that sizes do not wrap when rounded up; HeapRuns.AllocSoundIff says what happens otherwise.
- RilRings.EventLists.AddTimer: deadlines are microseconds, which RilRings.TimersAreMicros justifies, and the event is in neither list before; a NULL time value, for which the call does nothing, has no counterpart.
- WatchTable.Table.ProcessReadReadies: the list fields of a watched event are a linked object of their own, and the watches of the table must not be on a list already, which holds because the pending list is fired empty every round (EventReplay.Replay shows it).
- ShimCopies.StringsWithAid: asks that the allocation lies below 2^32, which malloc promises, so that `size_t` sums do not wrap; memory is made of bytes with words stored low byte first.
- ShimRuns.RunKeeps: the AID cache and a second completion of one token are not in the model.
- WakeLock.RunKeeps: calls do not interrupt each other there; WakeThreads has the interleavings. Only waking responses are in WakeThreads, and malloc with ril_timer_add is one step, since the record is private until then.
- Xtra.InjectOne: asks that the try ends; Xtra.EndsIff says when it does not.
- EventReplay.Replay: a new event is made for every timer, no two watches share an event, a descriptor is watched once at a time, and only watched events are deleted; a call of ril_event_add or ril_event_del falls between the steps of the loop: the list mutex sees to that, and firePending, which does not take it, works on the pending list alone, as no other thread does.
- CopybitBlit.Stretch: asks that scaling does not divide by zero, which the source leaves to its caller; containment for a scaled stretch with a source origin other than 0 is not claimed, since the origin is scaled with the offset (Copybit.PartReadIff).
