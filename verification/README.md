# A verified model of Dandelion's worker node

Dandelion is a serverless worker node. Functions run in isolated memory contexts, exchange sets of
items, and are composed into dataflow graphs. This project models the parts of the node whose logic
needs neither hypervisor nor network, in Dafny, and proves what they are for:

- **KVM contexts** (`Overlay`, `Contexts`, `KvmContext`, `EmptyWrite`, `Copying`, `Remapping`, `Transfer`,
  `DirtyLog`, `Execution`, `Lifecycle`, `Frames`). A context is a sparse map of page segments over a local
  byte array; a segment is local or borrowed from another context. Reading, writing, inserting segments,
  transferring data and absorbing the dirty pages of a run together act like one flat partial byte memory,
  and every borrowed page stays one step away from the bytes. Where the code does not keep this, the exact
  condition is proved.
- **Guest memory** (`Paging`, `PageTables`, `Guest`, `Boot`). Mixed 4 KiB and 2 MiB mappings are built in
  a joint array of p2 and p1 tables with arbitrary old contents. A four-level walk as in section 4.5 of
  the Intel 64 and IA-32 Architectures Software Developer's Manual, Volume 3A, gives exactly the intended
  mapping. A new guest sees exactly the bytes of its context, and any run of loads and stores, with all
  the page faults it causes, acts on a plain memory. After the run and the scan of the dirty log, the
  context itself has changed by exactly these stores.
- **Compositions** (`Composition`, `Dispatcher`, `Sharding`). Whatever order functions finish in, a
  composition yields the outputs of topological evaluation, and exactly the functions whose required inputs
  hold items are run. Sharding with cross joins enumerates every
  way to pick one shard per set, each once.
- **Promises and work queue** (`Promise`, `FreeList`, `WorkQueue`). Lock-free protocols as interleavings
  of their atomic accesses, with safety over all runs.
- **Allocators** (`RangePool`, `Occupation`). Two redundant indexes that stay consistent, and best-fit
  allocation over a sorted interval list.
- **Wire format** (`Bson`, `Utf8`, `RoundTrip`, `Grammar`, `Response`, `Stream`, `Reader`). The response encoder, the
  zero-copy streaming buffer and the request reader, against the texts of the "Non-terminals" grammar of the
  BSON Specification, version 1.1, and table 3-7 of the Unicode Standard, version 15.0. The request reader
  works on any list of frames. It is proved which frame lists it can read, which bytes it accepts, and for
  which fault it refuses the others.

Modelling conventions. A context behind an `Arc` can no longer change, so it is a value (`Context`); a
context that is written to is a class. Integers are unbounded; a place where the program would abort
(an overflow of an unsigned subtraction, a failed assertion, an `unwrap`) is the result `Err(Panic)`,
debug assertions included; a loop that makes no progress is the result `Err(Stuck)`. Concurrent code is a set of atomic steps on a shared state, and statements
about it are about every sequence of steps. The completion order of futures is an arbitrary choice.
Page tables count pages, not bytes: all addresses in that code are multiples of the page size.

## Model

| member | source | states |
|---|---|---|
| KvmContexts.KvmContext.InsertIntoOverlay | machine_interface/src/memory_domain/kvm.rs:69-137 | the scan with its splits, merges and removals is pointwise map update: each address of the range resolves to the new item at the right distance, every other address as before; segments stay disjoint and page aligned |
| Overlay.SplicedUpdates | machine_interface/src/memory_domain/kvm.rs:69-137 | left part, new segment and right part, with local neighbours absorbed, resolve addresses like a map update, and stay disjoint and aligned |
| Overlay.ExitSplices | machine_interface/src/memory_domain/kvm.rs:87-135 | however the scan ends, applying its removals and insertions gives left part, new segment and right part |
| KvmContexts.KvmContext.Write | machine_interface/src/memory_domain/kvm.rs:159-296 | afterwards the view holds the data on the range, keeps every other defined byte, has zeros for undefined bytes of touched pages and nothing else; exact error cases; on errors the view is unchanged; well-formedness kept; no error when no references are chained; an empty write inside a page makes that page local; one at the beginning of a page aborts at 0 and elsewhere keeps the context if and only if a byte beside it is local |
| KvmContexts.KvmContext.ScanOverlay | machine_interface/src/memory_domain/kvm.rs:184-277 | the scan of a write saves the bytes that survive on the first and last page and ends with the overlay changes that make the touched pages local |
| KvmContexts.KvmContext.KeepPartialPages | machine_interface/src/memory_domain/kvm.rs:223-255 | bytes before and behind the data on partially overwritten pages are in the local array afterwards if they were defined |
| KvmContexts.KvmContext.KeepBytes | machine_interface/src/memory_domain/kvm.rs:228-233 | the bytes of a segment are in the local array afterwards, local bytes stay in place |
| KvmContexts.ScanSegment | machine_interface/src/memory_domain/kvm.rs:236-276 | one segment is removed, shortened, extended or absorbed so that the scan's invariant holds for the next |
| KvmContexts.KvmContext.FillIn | machine_interface/src/memory_domain/kvm.rs:289-294 | zeros, data, zeros, and every other byte unchanged |
| EmptyWrites.ScanNothing | machine_interface/src/memory_domain/kvm.rs:184-286 | the scan of a write of no bytes at the beginning of a page: if a byte beside it is local, nothing changes and the segments stay disjoint and aligned; otherwise what the segment before it holds there is lost and a segment that ends before it begins is left |
| EmptyWrites.LostExample | machine_interface/src/memory_domain/kvm.rs:198-286 | behind one borrowed page, writing nothing at the next page loses every byte of it |
| Contexts.Read | machine_interface/src/memory_domain/kvm.rs:298-355 | returns exactly the bytes of the view and succeeds if and only if all of them are defined and the offset is aligned |
| Contexts.GetChunkRef | machine_interface/src/memory_domain/kvm.rs:357-392 | returns a nonempty prefix of the view of the range; fails only when part of it is undefined |
| Frames.Read | machine_interface/src/memory_domain/bytes_context.rs:30-65 | reads across frames exactly the slice of their concatenation, with the exact condition for success |
| Frames.GetChunkRef | machine_interface/src/memory_domain/bytes_context.rs:66-77 | returns a nonempty contiguous piece of the concatenation from the offset on |
| Transfer.TransferInto | machine_interface/src/memory_domain/kvm.rs:525-669 | exact error cases; it succeeds if and only if the range is in bounds, the copied bytes are defined and the loop over the source segments gets through; if everything behind the first source segment is local, the destination then shows a copy of the source range, every other defined byte is unchanged and no reference chain arises; otherwise borrowed pages are not mapped to where their bytes live |
| Transfer.TransferPages | machine_interface/src/memory_domain/kvm.rs:579-655 | header and trailer are copied and the pages between them borrowed: a byte copy without reference chains if everything behind the first source segment is local, and not faithful otherwise; the exact conditions for `InvalidRead` and for the aborting assertions |
| Remapping.RemapPages | machine_interface/src/memory_domain/kvm.rs:612-654 | for any source, the loop gets through if and only if its byte counts work out, and then every byte is mapped to where the source has it if and only if everything behind the first segment is local |
| Remapping.PiecesRight | machine_interface/src/memory_domain/kvm.rs:612-654 | all pieces that the loop maps are right if and only if everything behind the first segment of the range is local |
| Remapping.OneSegmentRemaps | machine_interface/src/memory_domain/kvm.rs:612-654 | a range in one segment meets both conditions: the loop gets through and its piece is right |
| Remapping.CompletesIff | machine_interface/src/memory_domain/kvm.rs:614-653 | the loop gets through if and only if it meets some number of segments without a gap or an underflow whose counts, each twice the one before and the distance of its end, add up to the range |
| Remapping.TwoSegmentsAbort | machine_interface/src/memory_domain/kvm.rs:627-653 | a range over exactly two segments always fails the last assertion |
| Remapping.ChainArises | machine_interface/src/memory_domain/kvm.rs:629-646 | if the second segment is local and something behind it is not, the destination always refers to pages that are themselves borrowed |
| Remapping.SecondShifted | machine_interface/src/memory_domain/kvm.rs:629-646 | if the second segment is borrowed, its first byte is mapped below where it lives, by the length of the first part |
| Remapping.ChainExample | machine_interface/src/memory_domain/kvm.rs:612-654 | segments of one borrowed, one local and two borrowed pages: the loop gets through and leaves a reference chain |
| Remapping.WrongBytesExample | machine_interface/src/memory_domain/kvm.rs:612-654 | segments of one local, one borrowed and two local pages: the loop gets through and the destination shows a 0 where the source has a 1 |
| Remapping.OwnerDirect | machine_interface/src/memory_domain/kvm.rs:629-646 | a byte that the source borrows is local where it is borrowed from, and the same byte |
| Remapping.MirrorsNoChains | machine_interface/src/memory_domain/kvm.rs:629-646 | mapping pages to where their bytes live adds no reference chain |
| Copying.CopyChunks | machine_interface/src/memory_domain/kvm.rs:553-578 | chunk by chunk copy equals a byte copy; on failure a proper prefix has been copied |
| Copying.CopiedIsReadThenWrite | machine_interface/src/memory_domain/kvm.rs:525-669 | a byte copy is the same as reading the source and writing what was read |
| Transfer.RemapCompletes | machine_interface/src/memory_domain/kvm.rs:579-655 | after header and trailer, mapping the pages between them completes the copy |
| DirtyLog.MarkDirty | machine_interface/src/function_driver/compute_driver/kvm.rs:244-291 | a page is local afterwards if and only if it was dirty or local before; every other page resolves as before, runs over word boundaries included |
| DirtyLog.ScanMixed | machine_interface/src/function_driver/compute_driver/kvm.rs:258-283 | the loop over runs of zeros and ones settles all pages of a word, up to a pending run |
| DirtyLog.ScanRun | machine_interface/src/function_driver/compute_driver/kvm.rs:268-274 | skipping zeros and counting ones moves to the end of the next dirty run |
| Execution.RunGuest | machine_interface/src/function_driver/compute_driver/kvm.rs:84-291 | a run on a context, from the page tables to the scan of the log of written pages, is for the bytes of the context below the stack base the same loads and stores on a plain memory: all of them if all are below the base, otherwise those before the first that is not; bytes of pages without an access keep their definedness too; no reference chain arises; all data lies below the stack; with enough room for data, windows, handlers, tables and a large page it is always run |
| Execution.RunSeen | machine_interface/src/function_driver/compute_driver/kvm.rs:196-291 | once exactly the written pages are local, the context shows the final memory of the guest, and every page not written shows what it showed before |
| Lifecycle.Live | machine_interface/src/memory_domain/kvm.rs:629-651 | over all runs of writes, transfers of any source whose pages are borrowed faithfully, and guest runs: each has its effect on the bytes, one after the other, and at all times every page is undefined, local, or borrowed from a page that is local where it is; only a remapping beyond one segment aborts |
| Paging.SetRange | machine_interface/src/function_driver/compute_driver/kvm/x86_64.rs:397-457 | over arbitrary old p1 contents, every page of the installed ranges is translated to base plus distance with its flags, every page of none of them is absent |
| Paging.GetP2 | machine_interface/src/function_driver/compute_driver/kvm/x86_64.rs:387-391 | the p2 and p1 slots of the page's large page |
| Paging.LastSlot | machine_interface/src/function_driver/compute_driver/kvm/x86_64.rs:451-455 | the closed form used for clearing is the p1 slot of the page |
| Paging.SlotsApart | machine_interface/src/function_driver/compute_driver/kvm/x86_64.rs:387-391 | slots of different large pages never coincide |
| Paging.StartRange | machine_interface/src/function_driver/compute_driver/kvm/x86_64.rs:412-424 | the p1 table of the first large page is set up exactly when it is needed and not there |
| Paging.SetLarge | machine_interface/src/function_driver/compute_driver/kvm/x86_64.rs:429-435 | a whole large page is translated as the range says |
| Paging.SetSmall | machine_interface/src/function_driver/compute_driver/kvm/x86_64.rs:436-446 | one more small page is translated as the range says |
| Paging.EndRange | machine_interface/src/function_driver/compute_driver/kvm/x86_64.rs:448-456 | the rest of the last p1 table is absent |
| PageTables.SetPageTable | machine_interface/src/function_driver/compute_driver/kvm/x86_64.rs:462-604 | a four-level walk from the root gives, for every page, exactly what the data, stack, table, interrupt and window ranges say; stack pages are zero; it succeeds if and only if tables and data fit below the stack's large page |
| PageTables.WalkIsView | machine_interface/src/function_driver/compute_driver/kvm/x86_64.rs:498-521 | walking from the root is the translation by p2 and p1 tables |
| PageTables.WireTables | machine_interface/src/function_driver/compute_driver/kvm/x86_64.rs:498-522 | root tables point to all p2 tables, which map nothing |
| PageTables.SetPresent | machine_interface/src/function_driver/compute_driver/kvm/x86_64.rs:524-557 | the pages that hold data are translated in place or to their windows |
| PageTables.SetSystem | machine_interface/src/function_driver/compute_driver/kvm/x86_64.rs:559-603 | stack, tables, interrupt handlers and windows are added behind the data |
| Guests.Guest.HandleFault | machine_interface/src/function_driver/compute_driver/kvm/x86_64_asm.rs:81-287 | below the stack start the faulting page is mapped to itself and writable, every other page as before, no page changes for the guest, and only that page is written; faults on system pages are refused; behind the last page the handler maps a page that does not exist |
| Guests.Guest.PrepareTable | machine_interface/src/function_driver/compute_driver/kvm/x86_64_asm.rs:147-224 | demand tables and split large pages translate every page as before; the frame to copy from is found |
| Guests.DemandTable | machine_interface/src/function_driver/compute_driver/kvm/x86_64_asm.rs:163-183 | installing a cleared p1 table changes no translation |
| Guests.SplitLarge | machine_interface/src/function_driver/compute_driver/kvm/x86_64_asm.rs:207-224 | splitting a read-only large page changes no translation |
| Guests.FaultInvisible | machine_interface/src/function_driver/compute_driver/kvm/x86_64_asm.rs:184-260 | filling a page's own frame with what the page shows is invisible, as only read-only windows are shared |
| Guests.HandlerSlots | machine_interface/src/function_driver/compute_driver/kvm/x86_64_asm.rs:120-148 | the handler's address computation finds the p2 and p1 entries of the page |
| Guests.Guest.Run | machine_interface/src/function_driver/compute_driver/kvm/x86_64_asm.rs:81-287 | any sequence of loads and stores below the stack start, with the faults it causes, behaves as on a plain memory; the pages reported as written are mapped to themselves, all others keep mapping and frame |
| Guests.StoredLast | machine_interface/src/function_driver/compute_driver/kvm/x86_64_asm.rs:81-287 | after a run every byte holds what was stored to it last, and without a store what it held before |
| Guests.LoadsReturn | machine_interface/src/function_driver/compute_driver/kvm/x86_64_asm.rs:81-287 | every load returns what its byte holds after the accesses before it, in order, and nothing else is returned |
| Boot.PlaceWindows | machine_interface/src/function_driver/compute_driver/kvm.rs:109-164 | every page is placed as the overlay resolves it; windows are congruent modulo 2 MiB to the pages they stand for, every window lies below all earlier ones so that no two overlap, and they hold what is borrowed; it succeeds if and only if every segment in turn has room, and always if the borrowed pages and one large page per borrowed segment fit into memory |
| Boot.PlaceSegment | machine_interface/src/function_driver/compute_driver/kvm.rs:114-160 | a borrowed segment gets the highest window that is congruent to its pages and lies below the earlier ones, filled from its source; it fails exactly when there is no such window |
| Boot.Congruent | machine_interface/src/function_driver/compute_driver/kvm.rs:120-132 | the additional offset makes window and pages congruent modulo 2 MiB |
| Boot.HighestWindow | machine_interface/src/function_driver/compute_driver/kvm.rs:114-133 | there is room for a window exactly if some congruent window fits, and the highest is taken |
| Boot.RoomFrom | machine_interface/src/function_driver/compute_driver/kvm.rs:109-164 | windows take at most the borrowed pages and one large page per borrowed segment; with that much memory all are placed |
| Boot.RoomyStarts | machine_interface/src/function_driver/compute_driver/kvm.rs:109-195 | if data, borrowed pages, a large page per borrowed segment, handlers, tables and the large page of the stack fit into memory, a guest can be started, with a base as high as that |
| Boot.StartGuest | machine_interface/src/function_driver/compute_driver/kvm.rs:84-195 | a new guest is ready for its fault handler and sees, below its stack base, exactly the bytes of the context and zeros where it has none; its stack is mapped, zero, and above all data; the base lies below tables and handlers of the stated sizes; it is started if and only if windows, handlers, tables and data fit, and always with the room that `RoomyStarts` names |
| Boot.GuestSees | machine_interface/src/function_driver/compute_driver/kvm.rs:109-190 | tables, windows and zeroed stack pages together show the bytes of the context |
| Dispatchers.QueueComposition | dispatcher/src/dispatcher.rs:160-338 | for every completion order: composition inputs keep their values, a function is started if and only if every input that is not optional holds items, each once; every function started is run exactly once, on exactly the values of its inputs, and its outputs are its results; the outputs of all others are none; no function is left waiting; the outputs of the composition are these values |
| Dispatchers.Begin | dispatcher/src/dispatcher.rs:191-253 | with the composition inputs alone every function waits, is started or is skipped, as topological evaluation requires |
| Dispatchers.Collect | dispatcher/src/dispatcher.rs:196-239 | the inputs that are there are collected, the others recorded as missing; the function is skipped if and only if an input that is not optional is there without items |
| Dispatchers.RunLaws | dispatcher/src/dispatcher.rs:205-224 | what skipping and collected inputs mean in terms of items |
| Dispatchers.Deliver | dispatcher/src/dispatcher.rs:273-328 | offering one set to all waiting functions keeps the invariant; a function leaves the list when it is started or cancelled |
| Dispatchers.BalancedTaken | dispatcher/src/dispatcher.rs:261-272 | what was started is at all times what has run together with what is still awaited |
| Dispatchers.ReceivedOk | dispatcher/src/dispatcher.rs:276-312 | a delivered set fills exactly the inputs that wait for it |
| Dispatchers.CancelSkips | dispatcher/src/dispatcher.rs:282-312 | a function is cancelled only when topological evaluation skips it |
| Dispatchers.AllFinished | dispatcher/src/dispatcher.rs:261-337 | when nothing is awaited every function has delivered all its outputs |
| Compositions.EvaluatedSolution | dispatcher/src/dispatcher.rs:160-338 | topological evaluation satisfies the equations of all functions: a function whose required inputs all hold items has its results for its inputs as outputs, any other has none |
| Compositions.SkipRule | dispatcher/src/dispatcher.rs:209-224 | a function is skipped if and only if some input that is not optional is absent or has no items |
| Compositions.EvaluationUnique | dispatcher/src/dispatcher.rs:160-338 | the result does not depend on the topological order |
| Sharding.ShardByKey | machine_interface/src/composition.rs:100-119 | one nonempty group per distinct key, from the highest key down; together the groups are the set |
| Sharding.ShardsOf | machine_interface/src/composition.rs:95-130 | the whole set as its only shard; one shard per item, in order; or the groups of `ShardByKey` |
| Sharding.KeyShardsAre | machine_interface/src/composition.rs:100-119 | the shards by key are one group per key from the highest down and together the set |
| Sharding.Combine | machine_interface/src/composition.rs:132-146 | the items of both sets, sorted by key; fails if and only if the set indexes differ |
| Sharding.FromContexts | machine_interface/src/composition.rs:148-166 | all items of the set in all contexts, sorted by key |
| Sharding.GetSharding | machine_interface/src/composition.rs:196-245 | with cross joins every way to pick one shard of each set that is there and not empty occurs exactly once, each row holds the shards of its pick and nothing for the other sets, the rows come in lexicographic join order, and there are none if no set is there; a single set sharded by item gives one row per item, in order, and a whole set one row |
| Sharding.AdvanceRest | machine_interface/src/composition.rs:452-487 | advancing drops the current combination and says whether there is another |
| Sharding.FillInRow | machine_interface/src/composition.rs:331-346 | the row filled in is that of the current combination |
| Sharding.CombosComplete | machine_interface/src/composition.rs:196-245 | exactly the choices of one shard per set occur |
| Sharding.CombosOrdered | machine_interface/src/composition.rs:196-245 | combinations come in lexicographic order, so none comes twice |
| Sharding.RowOf | machine_interface/src/composition.rs:331-346 | a row holds the chosen shard of every set that takes part and none for every other set |
| Sharding.AxesExact | machine_interface/src/composition.rs:208-229 | join order and missing sets together give exactly the sets that are there and not empty, each once, with all their shards |
| Sharding.PicksOfAll | machine_interface/src/composition.rs:196-245 | the picks of all combinations are all picks, none of them twice |
| Sharding.MergeResults | dispatcher/src/dispatcher.rs:403-429 | every output holds the items that all runs together put into it, sorted by key |
| Promises.Safety | machine_interface/src/promise.rs:162-256 | in every interleaving the two sides touch different wakers, at most one result is returned and only after it was stored, a promise whose last poll was pending is woken for it once the debt is fulfilled, the slot is recycled once and only when both sides are gone |
| Promises.ReturnsWhatWasPaid | machine_interface/src/promise.rs:162-226 | the result returned is the one stored |
| Promises.InvStep | machine_interface/src/promise.rs:162-256 | what every atomic step of either side keeps |
| Promises.FlagOperations | machine_interface/src/promise.rs:14-18 | the bit operations on the flag byte set, clear and flip the intended flags |
| Promises.DropGuardNeverHolds | machine_interface/src/promise.rs:239-243 | the guard that should resolve a promise when its debt is dropped is never true |
| Promises.NeverResolves | machine_interface/src/promise.rs:235-256 | after a debt is dropped without being fulfilled no poll ever returns a result and nobody is woken |
| Promises.AbandonedArises | machine_interface/src/promise.rs:162-256 | a run that gets there: a poll finds nothing and waits with its waker, then the debt is dropped |
| Promises.ResolvesIffPaid | machine_interface/src/promise.rs:162-193 | once the debt is gone, the next poll returns a result if and only if the debt was fulfilled |
| FreeLists.RunInv | machine_interface/src/promise.rs:65-101 | with one allocating thread and any number of recycling threads the links from the head form a list without cycles that holds exactly the free slots |
| FreeLists.HandedOutWhenFree | machine_interface/src/promise.rs:65-82 | a slot is handed out only while it is free |
| FreeLists.AllocAlone | machine_interface/src/promise.rs:65-82 | in every reachable state an undisturbed allocation hands out a free slot, and fails only if none is free |
| FreeLists.RecycleAlone | machine_interface/src/promise.rs:84-101 | a slot that is put back undisturbed is free and at the head of the list |
| FreeLists.InvStep | machine_interface/src/promise.rs:65-101 | what every load, link and swap keeps |
| FreeLists.NewList | machine_interface/src/promise.rs:45-63 | a new buffer links all slots in order |
| WorkQueues.RunInv | dispatcher/src/queue.rs:76-163 | in every interleaving tickets that are out are distinct and complete, and every pushed element is queued or was handed to exactly one engine, all of whose flags it has |
| WorkQueues.OneInSection | dispatcher/src/queue.rs:113-163 | at most one engine is in the ticketed section, and it holds the ticket whose turn it is |
| WorkQueues.TakesEarliest | dispatcher/src/queue.rs:131-136 | what is taken has all flags of the engine and is the earliest pushed of the queued elements that have |
| WorkQueues.AloneGetsWork | dispatcher/src/queue.rs:113-139 | in every reachable state without tickets out, an engine gets in without waiting, takes exactly the first queued element it can do, if there is one, and leaves no ticket out |
| WorkQueues.MatchesBits | dispatcher/src/queue.rs:131-136 | the mask test holds if and only if every flag of the engine is set in the element |
| RangePools.RangePool.Get | dandelion_commons/src/range_pool.rs:30-56 | the block is taken from the end of the smallest range that fits, where a range of exactly the size must not begin before the minimum; exactly its indexes stop being free; fails only when no such range exists; the size index stays exact |
| RangePools.RangePool.Insert | dandelion_commons/src/range_pool.rs:58-101 | exactly the returned indexes become free, ranges stay disjoint and never adjacent, the size index stays exact |
| RangePools.Canonical | dandelion_commons/src/range_pool.rs:21-101 | pools with the same free indexes are equal |
| RangePools.Run | dandelion_commons/src/range_pool.rs:21-101 | over any run of requests and returns each has its effect, free and allocated indexes partition the initial range, and returning everything restores the initial pool |
| Occupations.Occupation.Insert | machine_interface/src/memory_domain.rs:143-168 | the list afterwards, for every place behind the given entry, with at most one entry joined; it stays sorted if and only if the block does not begin inside the entry and is not an empty entry of its own; aborts if and only if the next entry begins before the block |
| Occupations.InsertedClaims | machine_interface/src/memory_domain.rs:143-168 | exactly the bytes of the block become taken, unless the next entry ends inside the block: then only the bytes up to its end do |
| Occupations.FindGap | machine_interface/src/memory_domain.rs:191-209 | the smallest gap that fits at a suitable place |
| Occupations.Occupation.Allocate | machine_interface/src/memory_domain.rs:191-212 | the block is suitably placed, in bounds, free before and the only bytes taken now, in the best gap; for a positive size it fails only when no free block of the size begins at a suitable place; a request for no bytes aborts if and only if the smallest gap has no suitable place |
| Occupations.Occupation.GetFreeSpace | machine_interface/src/memory_domain.rs:191-212 | as `Allocate`, for multiples of an alignment |
| Occupations.Occupation.GetTransferSpace | machine_interface/src/memory_domain/kvm.rs:486-523 | as `Allocate`, for the distance into a page that the source has |
| Occupations.Occupation.OccupySpace | machine_interface/src/memory_domain.rs:170-189 | for every range in bounds: exactly the given bytes become taken if and only if the range does not reach over all of the entry behind its beginning, and the list stays sorted if and only if the range does not begin inside an entry and is not empty apart from entries; free ranges meet both; fails if and only if out of bounds |
| Occupations.OccupyExample | machine_interface/src/memory_domain.rs:157-189 | with bytes 10 and 11 taken, occupying 5 to 24 leaves 12 to 24 free |
| Occupations.NothingExample | machine_interface/src/memory_domain.rs:191-212 | a request for no bytes aborts although a suitable place is free |
| Occupations.Run | machine_interface/src/memory_domain.rs:143-212 | over any run of requests and of markings of free bytes each gets its block or there is none that suits, the blocks are pairwise disjoint and in bounds, the list is sorted with strict gaps and takes exactly their bytes |
| Occupations.CandidateLeast | machine_interface/src/memory_domain/kvm.rs:498-507 | the candidate is the first suitable address of the gap |
| Responses.Writer.EncodeItem | server/src/lib.rs:51-105 | what is written, read with the data in place, is the element of the item, lengths included |
| Responses.Writer.EncodeSet | server/src/lib.rs:122-171 | what is written is the element of the set with its array of items |
| Responses.Writer.EncodeSets | server/src/lib.rs:107-174 | the elements of all sets that have items, numbered from zero |
| Responses.Writer.EncodeResponse | server/src/lib.rs:176-224 | the response, read with the item data at its offsets, is the document of the sets, in which every length is that of its document; the returned size is that of the item data |
| Responses.TextJoin | server/src/lib.rs:51-224 | splicing data into bytes commutes with appending |
| Responses.AppendedPatch | server/src/lib.rs:100-102 | filling in a length that was reserved changes only these four bytes of the text |
| Streams.DandelionBuf.constructor | server/src/lib.rs:386-405 | everything is ahead: the encoded bytes with each item's data at its offset; the cursor is on bytes unless the first item is at the very beginning and empty |
| Streams.DandelionBuf.Advance | server/src/lib.rs:339-358 | drops exactly that many bytes of what is ahead, skips items without data, terminates; the remaining count is exact |
| Streams.AdvanceAhead | server/src/lib.rs:280-329 | one step of the descriptor drops exactly the bytes it reports |
| Streams.SamePlace | server/src/lib.rs:280-358 | the cursor is determined by how much is left |
| Streams.AdvanceInTwo | server/src/lib.rs:339-358 | advancing by a and then by b leads to the same state as advancing by a + b |
| Streams.DandelionBuf.GetChunk | server/src/lib.rs:255-279 | a piece of what is ahead, nonempty unless nothing is left of it |
| Streams.DandelionBuf.ChunksVectored | server/src/lib.rs:364-382 | nonempty pieces that together are a prefix of what is ahead, and all of it when slots are left |
| Streams.Send | server/src/lib.rs:339-405 | sending chunk by chunk sends exactly the document of the sets |
| RoundTrips.RequestRoundTrip | machine_interface/src/memory_domain/bytes_context.rs:323-375 | for every layout of frames: a request is read back, with its name and sets, if and only if every empty frame lies at its end or in the data of an item; the data of every item is where the reader says |
| RoundTrips.ResponseRoundTrip | server/src/lib.rs:176-224 | reading the array of sets of a response gives its sets back |
| RoundTrips.ReadSetsOk | machine_interface/src/memory_domain/bytes_context.rs:269-320 | reading the text of sets consumes exactly that text and reports them, exactly if no empty frame lies outside of item data |
| RoundTrips.ReadItemOk | machine_interface/src/memory_domain/bytes_context.rs:224-267 | reading the text of an item reports its name, key and the position of its data, exactly if no empty frame lies outside of its data |
| RoundTrips.SetsClearIff | machine_interface/src/memory_domain/bytes_context.rs:80-112 | the parts of the text that are read byte by byte are free of empty frames if and only if every empty frame lies in the data of an item |
| Bson.LeRoundTrip | machine_interface/src/memory_domain/bytes_context.rs:150-155 | little-endian numbers are read back |
| Bson.LeInverse | machine_interface/src/memory_domain/bytes_context.rs:150-155 | every byte string is the little-endian form of the number it stands for |
| Bson.LeByte | server/src/lib.rs:51-105 | byte by byte, lowest first |
| Bson.Digits | server/src/lib.rs:62 | names of array elements are decimal numerals without leading zeros |
| Utf8.ValidEncoded | machine_interface/src/memory_domain/bytes_context.rs:205-207 | every byte string that is accepted encodes a sequence of characters |
| Utf8.EncodedValid | machine_interface/src/memory_domain/bytes_context.rs:205-207 | the encoding of every sequence of characters is accepted |
| Readers.FrameBuf.Advance | machine_interface/src/memory_domain/bytes_context.rs:92-107 | drops exactly that many bytes of what is ahead, over frame boundaries and empty frames; it comes to rest in a frame or right behind one that is not empty |
| Readers.FrameBuf.Chunk | machine_interface/src/memory_domain/bytes_context.rs:109-111 | a prefix of what is ahead that reaches to where the next frame begins; empty exactly where the cursor has come to rest on an empty frame |
| Readers.FrameBuf.ReadLength | machine_interface/src/memory_domain/bytes_context.rs:150-155 | reads what the specification on bytes and frame layout says, with the same errors, and never ends exactly on an empty frame within the four bytes |
| Readers.FrameBuf.ReadCString | machine_interface/src/memory_domain/bytes_context.rs:157-175 | reads up to and including the first zero, or everything; aborts exactly if the part of some frame is not UTF-8 by itself, a character cut by a frame boundary included, and never ends exactly on an empty frame |
| Readers.FrameBuf.ReadString | machine_interface/src/memory_domain/bytes_context.rs:191-209 | reads what the specification on bytes and frame layout says, with the same errors, invalid UTF-8 included |
| Readers.FrameBuf.ReadDataItem | machine_interface/src/memory_domain/bytes_context.rs:224-267 | reads what the specification on bytes and frame layout says, with the same errors |
| Readers.FrameBuf.ReadDataSet | machine_interface/src/memory_domain/bytes_context.rs:269-320 | reads what the specification on bytes and frame layout says, with the same errors |
| Readers.FromFrames | machine_interface/src/memory_domain/bytes_context.rs:323-375 | for every list of frames the outcome is that of the reader on the concatenated bytes and the places where frames begin and where they are empty; whatever is accepted has the grammar of a request without fault, with all keys below 2^32 and all data where it is reported; in frames none of which is empty, a request with ASCII names is refused for its first fault and accepted without one |
| Grammar.RequestRead | machine_interface/src/memory_domain/bytes_context.rs:122-375 | with every type byte, name, key, length and closing byte as a variable: the reader refuses for the first wrong one, with the error stated for it, and otherwise reports the request |
| Grammar.RequestWas | machine_interface/src/memory_domain/bytes_context.rs:122-375 | however the bytes are cut into frames, what is accepted is a request without fault, and what is reported is what it says |
| Grammar.OnlyRequests | machine_interface/src/memory_domain/bytes_context.rs:323-375 | accepted bytes are those of a request without fault, all keys are below 2^32, and in one piece they are accepted with the same report |
| Grammar.RequestData | machine_interface/src/memory_domain/bytes_context.rs:252-266 | all sets and items of a request are reported, with the data where the report says |
| Grammar.KeyRefused | machine_interface/src/memory_domain/bytes_context.rs:248-250 | a key of 2^32 or more gives `MalformedMessage`, also one that is negative as a signed number |
| Grammar.ItemEndRefused | machine_interface/src/memory_domain/bytes_context.rs:141-148 | a wrong closing byte of an item gives `ViolatedSpec` |
| Grammar.SetEndRefused | machine_interface/src/memory_domain/bytes_context.rs:141-148 | a wrong closing byte of a set gives `ViolatedSpec` |
| Grammar.EndRefused | machine_interface/src/memory_domain/bytes_context.rs:359-368 | a wrong last byte of a request gives `ViolatedSpec` |
| Grammar.PrefixRefused | machine_interface/src/memory_domain/bytes_context.rs:335-340 | no proper prefix of an accepted request is accepted |
| Readers.FramesAgree | machine_interface/src/memory_domain/bytes_context.rs:323-375 | a request in frames is read like one in one piece if and only if every empty frame lies behind its last byte or in the data of an item; so it is when no frame is empty |
| Readers.StuckExample | machine_interface/src/memory_domain/bytes_context.rs:150-155 | behind an empty first frame no message is ever read |
| Readers.RestedStop | machine_interface/src/memory_domain/bytes_context.rs:92-111 | a cursor at rest sees an empty chunk exactly where the frame list has an empty frame |
| Readers.RoundTrip | machine_interface/src/memory_domain/bytes_context.rs:30-65 | the data of any item of a request, empty data included, read from the frames it arrived in, is the data that was sent |

## Where the code differs from its documentation

- The comment in `Drop for Debt` says that a dropped debt resolves its promise. The guard compares a masked
  bit with 1 and never holds (`Promises.DropGuardNeverHolds`); a promise resolves if and only if its debt is
  fulfilled (`Promises.ResolvesIffPaid`, `Promises.NeverResolves`).
- Data inside the large page that holds the stack start is rejected by a debug assertion only; the model
  contains that assertion (`PageTables.SetPageTable` succeeds only when data ends below that large page). The
  only check in a release build is that data ends below the stack start.
- An empty frame on which the request reader comes to rest before the end makes it abort or loop for ever
  (`Readers.StuckExample`). A request is read if and only if its empty frames lie behind the last byte or in
  the data of items (`Readers.FramesAgree`).
- Array lengths matter only for where an array of items ends: an array whose length ends in its last item is
  accepted without its closing zero, and a request without sets is accepted without the length of the array of
  sets (`Grammar.RequestWas`, `Grammar.RequestRead`).
- A transfer that borrows pages is described as zero copy of the same bytes. Over several source segments the
  byte count and the offset of the loop are right only for the first. It may abort
  (`Remapping.TwoSegmentsAbort`), show other bytes (`Remapping.WrongBytesExample`) or leave a reference chain
  (`Remapping.ChainExample`); it is faithful if and only if everything behind the first segment is local
  (`Remapping.RemapPages`).
- `occupy_space` is documented to mark all given bytes, ignoring overlaps. It does so if and only if the range
  does not reach over all of the entry behind its beginning (`Occupations.Occupation.OccupySpace`,
  `Occupations.OccupyExample`).
- A write of no bytes at the beginning of a page can lose borrowed bytes before it (`EmptyWrites.LostExample`);
  it keeps the context if and only if a byte beside it is local (`KvmContexts.KvmContext.Write`).

## Left out

- Transfer.TransferInto: the state in which an aborted transfer leaves the destination.
- Execution.RunGuest: the guest stops at the first access it may not make; the log is the one of the pages written below the stack start and arbitrary pages from there on; the pages of the guest are a copy of the byte array that is written back, where the code has one memory; nothing is said about the bytes when a guest is not started.
- Occupations.Occupation.Allocate: contexts of size zero, and the list after an empty block was put apart from other entries.
- Sharding.GetSharding: inner, left, right and outer joins; iterators are values because each is owned by the next, so update in place is not captured.
- Dispatchers.QueueComposition: functions that fail, functions that return fewer sets than the composition uses, recorders, nested compositions as anything but a function.
- Dispatchers.Begin: functions that are ready are started during the scan instead of after it, which no completion order can tell.
- Guests.Guest.HandleFault: one atomic step; registers, the interrupt stack, copying in 256-byte pieces and the translation cache are not modelled.
- Boot.StartGuest: page tables and interrupt tables are not themselves bytes of guest memory, their pages are only unreachable for the guest.
- Promises.Safety: abort handles; the memory order of accesses that are not atomic.
- FreeLists.RunInv: several allocating threads.
- Streams.DandelionBuf.ChunksVectored: for an item without data whose position is undefined the outcome is `Err(Panic)`.
- Responses.Writer.EncodeResponse: timestamps in responses.
- Wrap-around of addresses, tickets and 32-bit lengths beyond the stated bounds.
- mmap, memfd, KVM ioctls, register, GDT and IDT setup, CHERI, processes, HTTP and memcached engines, configuration, logging.
- The `dparser` grammar, the ELF parser, function registry, resource pool, and malloc, read-only and mmu contexts: they would only add easy members.
