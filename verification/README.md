# Memory areas, growable arrays and string streams of my_jvm, in Dafny

This project models the utility layer of the JVM skeleton and proves what that layer is for:

* an **arena** is a bump-pointer allocator over a linked list of heap chunks. Its clients are promised
  separate blocks that keep their bytes, whatever the others do, and **marks** that take back exactly what
  came after them;
* a **growable array** is a sequence, and any number of them in one arena are separate sequences;
* a **string stream** holds the text that was put into it and knows the column it is at;
* the alignment macros and the **mark word** encoders are exact about bits.

## How it is organised

| file | module | what it holds |
|---|---|---|
| `Words.dfy` | `Words` | 64-bit words with wrap-around, bitwise "and" digit by digit, multiples of 16 |
| `Alignment.dfy` | `Alignment` | the alignment macros against divisibility |
| `MarkWord.dfy` | `MarkWord` | the mark word on 64-bit vectors |
| `Memory.dfy` | `Memory` | bytes at addresses, C-heap regions, the contract of `malloc`, `memcpy` |
| `ArenaModel.dfy` | `ArenaModel` | the arena as a value, every operation as a step on the whole process (`World`) |
| `ArenaSafety.dfy` | `ArenaSafety` | every step keeps the invariant `Inv` |
| `ArenaRuns.dfy` | `ArenaRuns` | whole runs: safety, refinement of independent objects, nested marks |
| `ArenaMarks.dfy` | `ArenaMarks` | which blocks undoing a mark drops, and whose memory it takes back |
| `ArenaFacts.dfy` | `ArenaFacts` | accounting, `contains`, what a request obtains |
| `Arena.dfy` | `Arenas` | `Chunk`, `Arena`, `ResourceMark` as objects with pointers, tied to the model's steps |
| `ArrayMemory.dfy` | `ArrayMemory` | fixed-size elements in memory and the element loops |
| `ArrayModel.dfy` | `ArrayModel` | capacity and `grow` |
| `ArrayRuns.dfy` | `ArrayRuns` | every array operation, against sequences |
| `ArraySystems.dfy` | `ArraySystems` | runs of many arrays, marks and other clients |
| `ArrayMarks.dfy` | `ArrayMarks` | arrays across a mark |
| `Ownership.dfy` | `Ownership` | who holds each region of the C heap: nothing leaks |
| `GrowableArray.dfy` | `GrowableArrays` | the array as an object over memory |
| `TextStream.dfy` | `TextStream` | columns, and what writes, resets and blanks do to a stream |
| `StringStream.dfy` | `StringStreams` | the stream as an object over a character buffer |

The three central state spaces are `ArenaModel.World` (C-heap regions, memory, arena fields, the clients'
blocks, the open marks), `ArraySystems.Sys` (a world and its arrays) and `TextStream.Stream`. Classes hold the
source's fields; their methods state the new state as a function of the old one, and the properties are
proved about those functions, for all inputs and over all runs. `Arenas.Arena.StillSound` carries the
invariant from the functions back to the objects.

## What is assumed

* `malloc` is the parameter `at` of the operations that may call it: the address it returns. `MallocOk`
  states its contract (not null, 16-aligned, below 2^63, disjoint from all allocated regions). A null return
  aborts the process in `AllocateHeap`, so nothing follows it; the `RETURN_NULL` branch of `Arena::grow`
  cannot be reached.
* `size_t` and pointers are 64-bit words; additions and doublings wrap around and this is written out.
  Operations are defined for every word. Runs use requests of at most 2^63 - 16 bytes, and
  `AmallocObtainsExactly` shows that this bound is the exact one.
* A client passes back the size it asked for, names only its own blocks, and releases marks in LIFO order.
* Elements of an array are values: byte strings of one size. `E()` is such a string, `zero`.
* `World.live`, `World.marks`, block depth and block home are bookkeeping; no operation's result depends on
  them.

## Where the code does not keep a promise

* **A mark on an empty area.** Undoing it after an allocation leaves a non-empty list with a null current
  chunk. `ResetSoundExactly` gives the exact condition, `EmptyMarkBreaksArea` an instance.
* **A mark does not always take back what came after it.** If the last block is freed and begins below the mark,
  or a block enlarged since is shrunk to an end no higher than it, the release raises the high-water mark over blocks that
  are younger: their memory stays in use. `TakesAllExactly` shows that these two calls are the only causes,
  `TakenBackExactly` which blocks it concerns, `GapBlockKeepsMemory` and `ShrunkBlockKeepsMemory` instances.
* **Destruction under an open mark.** The mark puts freed chunks back unless it saved none:
  `DestructSoundExactly`.
* **Huge requests.** From 2^63 - 15 bytes up, `Amalloc` can return without having the bytes:
  `AmallocObtainsExactly`, `HugeRequestLeavesChunk`, `WrappedRequestIsEmpty`; or it lowers the high-water mark
  into live blocks: `HugeRequestLowersMarkExactly`, `LoweredMarkOverlaps`, `LoweredMarkInstance`.
* **`contains` has an inclusive top.** It errs exactly on the first byte of a foreign region that begins where
  a chunk ends (`ContainsOtherRegion`, with the instance `ContainsErrs`), never on another chunk's data
  (`ContainsNoOtherChunk`).
* **`markWord_biased`.** Its comment says 256-byte alignment of the thread suffices. The epoch sits in bits 8
  and 9, so it does not: `ByteAlignedThreadsCollide`, `BiasedByteAligned`. Ten zero bits do: `BiasedInjective`.
* **`as_string` without a terminator.** The copy of a new stream is one uninitialised character, and after
  `reset` the terminator moves with the next write only. `CopyTerminatedExactly` says over all runs when the copy
  is a C string, `UnterminatedCopies` gives both instances. A one-character fixed buffer is never terminated by a
  non-empty write.
* **`cr` on a full fixed stream** sets the column to 0 although the newline is lost: `CrColumn`,
  `CrOnFullStream`. `ColumnRunExactly` says over whole runs when the column is right. On such a stream `fill_to`
  stops short: `FillToColumn`.
* **`grow` overflows its int.** The capacity is doubled without a check: `NewMaxIsInt` says exactly when the result is
  an int, `GrowOverflows` gives an array of 2^30 elements that cannot grow.
* **The doubling loop of `write` can be endless:** for a buffer of size 0, and for needs from 2^63 characters up,
  as `print_raw` with length -1 has them: `DoublingEnds`, `OwningLoopEnds`, `MinusOneNeverEnds`.

## Model

| member | source | states |
|---|---|---|
| `Alignment.AlignDownGreatest` | src/utilities/globalDefinitions.hpp:103-116 | masked align_down is the greatest multiple not above the size, for every power of two below 2^64 |
| `Alignment.AlignUpLeast` | src/utilities/globalDefinitions.hpp:103-121 | masked align_up is the least multiple not below the size exactly when size <= 2^64 - alignment; above that it is 0 |
| `Alignment.IsAlignedIsDivisibility` | src/utilities/globalDefinitions.hpp:106-131 | masked is_aligned is divisibility |
| `Alignment.AlignUpCompose` | src/utilities/globalDefinitions.hpp:105-121 | aligning to a power of two and then to a larger one is aligning to the larger one |
| `Alignment.IsPowerOf2Exact` | src/utilities/globalDefinitions.hpp:175-177 | the bit trick holds exactly for the numbers 2^k |
| `Words.AndBits` | src/utilities/globalDefinitions.hpp:103-131 | the "and" of the macros is the one of each binary digit |
| `ArenaModel.ArenaAlign` | src/memory/arena.hpp:18-21 | the result is a multiple of 16 in [x, x+16), or 0 for the fifteen sizes that wrap |
| `ArenaModel.ArenaAlignIsMasked` | src/memory/arena.hpp:18-21 | the masked macro computes that rounding for every word |
| `ArenaModel.OverheadIsAlignedHeader` | src/memory/arena.hpp:61 | the aligned size of a two-word chunk header is 16 |
| `MarkWord.ExactlyOneState` | src/oops/markOop.hpp:38-58 | every word satisfies exactly one of the five state predicates; is_locked is lightweight, heavyweight or marked |
| `MarkWord.WithHashRoundTrip` | src/oops/markOop.hpp:62-119 | a hash reads back its low 31 bits, the last write wins, writing the present hash changes nothing |
| `MarkWord.WithHashKeepsRest` | src/oops/markOop.hpp:114-119 | state, age and all bits outside the hash field stay |
| `MarkWord.HeavyweightRoundTrip` | src/oops/markOop.hpp:92-94 | which monitor addresses give a heavyweight lock, and which can be recovered |
| `MarkWord.BiasedPattern` | src/oops/markOop.hpp:104-110 | the bias pattern survives exactly when bit 1 of the thread is clear |
| `MarkWord.BiasedAge` | src/oops/markOop.hpp:68-110 | the age reads back exactly when it fits four bits and the thread adds none to them |
| `MarkWord.BiasedEpoch` | src/oops/markOop.hpp:101-110 | the epoch reads back exactly when it fits two bits and the thread adds none to them |
| `MarkWord.BiasedInjective` | src/oops/markOop.hpp:100-110 | with ten zero low bits the word determines thread, age and epoch, and is in the biased state |
| `MarkWord.ByteAlignedThreadsCollide` | src/oops/markOop.hpp:102-110 | 256-byte alignment is not enough: two threads share a word |
| `MarkWord.BiasedByteAligned` | src/oops/markOop.hpp:102-110 | for a 256-byte aligned thread every epoch reads back exactly when bits 8 and 9 are clear |
| `MarkWord.StatesInNumbers` | src/oops/markOop.hpp:38-58 | the states by the remainders of the word modulo 4 and 8 |
| `MarkWord.FieldsInNumbers` | src/oops/markOop.hpp:62-70 | age and hash are fields of weight 8 and 256, of 4 and 31 bits |
| `MarkWord.BiasedInNumbers` | src/oops/markOop.hpp:100-110 | for arguments that fit, the biased word is thread + 256 epoch + 8 age + 5 |
| `MarkWord.EncodersInNumbers` | src/oops/markOop.hpp:92-119 | writing a hash into a word without one adds 256 times it; the monitor pattern adds 2 |
| `Memory.MallocKeepsRegionsOk` | src/memory/allocation.hpp:54-62 | an address that malloc may return keeps the allocated regions disjoint |
| `Memory.CHeap.AllocateHeap` | src/memory/allocation.hpp:54-62 | the region is allocated and nothing else changes |
| `Memory.CHeap.FreeHeap` | src/memory/allocation.hpp:64-66 | null is ignored; otherwise the region, which must be allocated, is released |
| `ArenaSafety.SumBounded` | src/memory/arena.cpp:70 | the total size of distinct chunks fits the address space, so the byte counter never wraps |
| `ArenaSafety.AmallocArea` | src/memory/arena.hpp:86-96 | Amalloc keeps the area sound, only appends chunks, and hands out an aligned piece ending at the new mark |
| `ArenaSafety.FreshBlockApart` | src/memory/arena.hpp:86-96 | a new block shares no byte of its footprint with any earlier block |
| `ArenaSafety.AllocInv` | src/memory/arena.hpp:86-96 | allocation keeps the invariant of the whole process |
| `ArenaSafety.GrowArea` | src/memory/arena.cpp:53-86 | an appended chunk has room for the request and the area stays sound |
| `ArenaSafety.FreeInv` | src/memory/arena.hpp:105-110 | freeing keeps every other block at or below the mark |
| `ArenaSafety.MoveNeverFrees` | src/memory/arena.cpp:109-119 | on the copy path the final Afree changes nothing: the old block does not end at the new mark |
| `ArenaSafety.ReallocInv` | src/memory/arena.cpp:88-122 | all four ways through Arealloc keep the invariant |
| `ArenaSafety.ResetRestores` | src/memory/resourceArea.hpp:51-68 | a reset restores the saved area and chunk list exactly and frees exactly the chunks appended since |
| `ArenaSafety.ResetInv` | src/memory/resourceArea.hpp:51-68 | undoing the innermost mark keeps the invariant, outer marks and older blocks included |
| `ArenaSafety.ReleaseInv` | src/memory/resourceArea.hpp:47-49 | the destructor does too |
| `ArenaSafety.DestructSoundExactly` | src/memory/arena.cpp:42-51 | giving all chunks back leaves a sound process iff no open mark saved a chunk |
| `ArenaSafety.DestructInv` | src/memory/arena.cpp:42-51 | the same, the half that runs use: the invariant is kept if no open mark saved a chunk |
| `ArenaSafety.StepInv` | src/memory/arena.cpp:42-122 | every enabled operation keeps the invariant |
| `ArenaRuns.RunSafe` | src/memory/arena.cpp:42-122 | every run from a sound state ends in a sound state |
| `ArenaRuns.BlockPlaced` | src/memory/arena.hpp:86-110 | a non-empty arena block lies in one listed chunk, below the high-water mark in the current one, at an aligned non-null address |
| `ArenaRuns.BlocksSeparated` | src/memory/arena.hpp:86-110 | distinct live blocks share no byte |
| `ArenaRuns.ReachableBlockPlaced` | src/memory/arena.hpp:86-110 | placement and alignment of every non-empty block in every state reachable from the start |
| `ArenaRuns.ReachableAligned` | src/memory/arena.hpp:86-110 | in every reachable state the high-water mark and the addresses of all blocks, empty ones included, are multiples of 16 |
| `ArenaRuns.ReachableBlocksSeparated` | src/memory/arena.hpp:86-110 | distinct live blocks share no byte in every state reachable from the start |
| `ArenaRuns.ReallocRep` | src/memory/arena.cpp:88-122 | Arealloc keeps the first min(old, new) bytes of its block and all bytes of every other block |
| `ArenaRuns.ReallocOthers` | src/memory/arena.cpp:88-122 | Arealloc leaves every other block at its address with its bytes |
| `ArenaRuns.RunRefines` | src/memory/arena.cpp:53-122 | over every run memory agrees with a store of independent byte objects that knows no addresses |
| `ArenaRuns.ArenaIsObjectStore` | src/memory/arena.cpp:53-122 | the same from the start |
| `ArenaRuns.BracketRestores` | src/memory/resourceArea.hpp:40-68 | after any run inside a mark, nested marks included, release restores chunk, mark, limit, size and list exactly; it may be released iff the area had a chunk at the mark or has none yet |
| `ArenaRuns.BracketKeepsBlock` | src/memory/resourceArea.hpp:40-68 | a block live at the mark that no call names in between is there after the release, same address, same bytes; of the blocks of an arena destroyed in between, this leaves out the empty ones only |
| `ArenaRuns.ResetFrees` | src/memory/resourceArea.hpp:51-68 | the freed chunks are those appended since, each allocated, each once, none of the older |
| `ArenaRuns.ResetTwice` | src/memory/resourceArea.hpp:47-68 | a second reset, or the destructor after a reset, changes nothing more |
| `ArenaRuns.ResetSoundExactly` | src/memory/resourceArea.hpp:51-68 | a reset leaves a sound area iff the mark saved a chunk or the area has none |
| `ArenaRuns.EmptyMarkBreaksArea` | src/memory/resourceArea.hpp:53-64 | marking an empty area, allocating 8 bytes and resetting breaks it |
| `ArenaMarks.AgeRun` | src/memory/resourceArea.hpp:40-68 | over any stretch of a run that keeps more than d marks open: an arena block is no younger than mark d at the end iff it was so at the beginning and was not enlarged in between; then it has not moved |
| `ArenaMarks.BracketDropsYounger` | src/memory/resourceArea.hpp:40-68 | over any run inside a mark: the arena blocks left after the release are exactly those that were there at the mark and were not enlarged since, where they were |
| `ArenaMarks.TakenBackExactly` | src/memory/resourceArea.hpp:51-68 | after a release some next allocation, in the arena or on the C heap, can be given memory of a block iff the block was in a chunk appended since the mark or ended above the saved high-water mark |
| `ArenaMarks.BelowMarkExactly` | src/memory/arena.hpp:86-110 | whatever the arena may hand out next would be taken back by a mark iff its high-water mark is not below the saved one |
| `ArenaMarks.TakesAllExactly` | src/memory/resourceArea.hpp:40-68 | over any run: the mark would at every moment take back the memory of all younger blocks, the next one included, iff no call undercuts it: frees a last block that begins below the mark, or shrinks a younger block to an end no higher than the mark |
| `ArenaMarks.BracketTakesAllExactly` | src/memory/resourceArea.hpp:40-68 | the same for a run inside a mark, from the moment the mark is opened |
| `ArenaMarks.BracketTakesBack` | src/memory/resourceArea.hpp:40-68 | if no call undercuts the mark, the release takes back the memory of exactly the blocks allocated or enlarged since, which are exactly those it drops |
| `ArenaMarks.GapBlockKeepsMemory` | src/memory/resourceArea.hpp:51-68 | an instance where a call does: free below the mark, allocate again; the block allocated under the mark keeps its memory after the release |
| `ArenaMarks.ShrunkBlockKeepsMemory` | src/memory/resourceArea.hpp:51-68 | another: extend over the mark and shrink again |
| `ArenaFacts.Conservation` | src/memory/arena.cpp:124-134 | the byte counter is the sum over chunks of length and header, and equals used + free at the end + headers |
| `ArenaFacts.RunConserves` | src/memory/arena.cpp:53-134 | the same in every reachable state |
| `ArenaFacts.AmallocInNumbers` | src/memory/arena.hpp:86-96 | a request needs a chunk iff fewer bytes are free than its size rounded up to 16; if not, the mark moves by just that |
| `ArenaFacts.NewChunkInNumbers` | src/memory/arena.cpp:53-86 | a new chunk has 32728 data bytes for sizes up to 16352 and twice the rounded size above; the block is 16 bytes after its base; all fields |
| `ArenaFacts.FreeLowersExactly` | src/memory/arena.hpp:105-110 | a free lowers the mark to the block iff it is the last one, and changes nothing else in arena, regions and memory |
| `ArenaFacts.ReallocAreaExactly` | src/memory/arena.cpp:88-122 | Arealloc leaves the arena alone when the rounded size need not grow, moves the mark by the difference when the last block has room, and else allocates as Amalloc and frees nothing |
| `ArenaFacts.ReallocKeepsBytes` | src/memory/arena.cpp:88-122 | the first min(old, new) bytes are at the new address what they were at the old |
| `ArenaFacts.NullCalls` | src/memory/arena.cpp:88-90 | freeing null does nothing, resizing null is allocating |
| `ArenaFacts.DestructFrees` | src/memory/arena.cpp:42-51 | a destruction frees every listed chunk, each once, and no other region |
| `ArenaFacts.ContainsLive` | src/memory/arena.cpp:136-143 | contains accepts every byte of every live arena block |
| `ArenaFacts.ContainsNoOtherChunk` | src/memory/arena.hpp:53-55 | contains accepts no data byte of a chunk outside the list |
| `ArenaFacts.ContainsOtherRegion` | src/memory/arena.hpp:53-55 | for a byte of any other region it answers yes exactly on a first byte that is some chunk's top |
| `ArenaFacts.ContainsErrs` | src/memory/arena.hpp:53-55 | an instance: a run in which contains accepts the address of a C-heap block |
| `ArenaFacts.ContainsExactly` | src/memory/arena.hpp:53-55 | over all addresses contains accepts exactly the data bytes of listed chunks, from 16 bytes after the base, and the first address behind each |
| `ArenaFacts.ContainsOwnHeader` | src/memory/arena.hpp:53-55 | a listed chunk's own header is refused, but for its first byte when another listed chunk ends there |
| `ArenaFacts.AmallocObtainsExactly` | src/memory/arena.hpp:86-96 | over all sizes the bytes asked for lie in one listed chunk iff the size is at most 2^63 - 16 |
| `ArenaFacts.HugeRequestLeavesChunk` | src/memory/arena.cpp:53-86 | for sizes from 2^63 on grow obtains a shorter chunk and the mark leaves it |
| `ArenaFacts.HugeRequestLowersMarkExactly` | src/memory/arena.hpp:86-96 | a size above 2^63 - 16 that does not round to 0 stays on the fast path iff mark plus size wraps, and then lowers the mark |
| `ArenaFacts.LoweredMarkOverlaps` | src/memory/arena.hpp:86-96 | if it is lowered into the last live block, the next allocation hands out that block's bytes |
| `ArenaFacts.LoweredMarkInstance` | src/memory/arena.hpp:86-96 | an instance with size 2^64 - 16 |
| `ArenaFacts.WrappedRequestIsEmpty` | src/memory/arena.hpp:86-96 | the fifteen largest sizes succeed without setting anything aside |
| `ArenaFacts.ReallocStaysExactly` | src/memory/arena.cpp:88-122 | the address stays iff the footprint need not grow or the block is last with room; otherwise new and old are disjoint |
| `ArenaFacts.AllocThenFree` | src/memory/arena.hpp:86-110 | freeing right after allocating restores the area, but for an appended chunk, which is left empty |
| `Arenas.Chunk.constructor` | src/memory/arena.hpp:44-48 | one region for header and data, no successor |
| `Arenas.Arena.constructor` | src/memory/arena.cpp:12-19 | an empty sound area |
| `Arenas.Arena.Sized` | src/memory/arena.cpp:21-36 | a sound area of one chunk, its mark at the first data byte, or of none for size 0 |
| `Arenas.Arena.Grow` | src/memory/arena.cpp:53-86 | the list grows by one fresh chunk at its end, of 32728 or 2x data bytes, and the fields are the model's |
| `Arenas.Arena.Amalloc` | src/memory/arena.hpp:86-96 | fields, list, regions and address are the model's, for every size |
| `Arenas.Arena.Afree` | src/memory/arena.hpp:105-110 | the mark is lowered exactly as in the model |
| `Arenas.Arena.Arealloc` | src/memory/arena.cpp:88-122 | fields, regions, memory and address are the model's; memcpy's ranges never overlap |
| `Arenas.ReallocAllowed` | src/memory/arena.cpp:109-119 | for a live block the copy's ranges are disjoint and the result is sound |
| `Arenas.Arena.NewBlock` | src/memory/arena.hpp:86-96 | a client's allocation keeps the object sound and is the model's step |
| `Arenas.Arena.FreeBlock` | src/memory/arena.hpp:105-110 | a client's free keeps the object sound and is the model's step |
| `Arenas.Arena.ResizeBlock` | src/memory/arena.cpp:88-122 | a client's resize keeps the object sound and is the model's step |
| `Arenas.Arena.Used` | src/memory/arena.cpp:124-134 | the walk ends and sums what the model sums |
| `Arenas.Arena.ContainsPtr` | src/memory/arena.cpp:136-143 | the walk ends and finds a chunk iff there is one |
| `Arenas.Arena.DestructContents` | src/memory/arena.cpp:42-51 | the region of every chunk of the old list is freed, all others stay, and the area is the empty one; the object is sound iff no open mark saved a chunk |
| `Arenas.FreeChain` | src/memory/resourceArea.hpp:54-60 | deleting along next frees exactly the rest of the list, reading each link before its chunk goes |
| `Arenas.ResourceMark.constructor` | src/memory/resourceArea.hpp:40-45 | the four fields are saved and the area is unchanged |
| `Arenas.ResourceMark.FreeLaterChunks` | src/memory/resourceArea.hpp:52-61 | the list ends at the saved chunk and the later chunks are freed |
| `Arenas.ResourceMark.ResetToMark` | src/memory/resourceArea.hpp:51-68 | the whole new state is the model's |
| `Arenas.ResourceMark.SoundIsCuttable` | src/memory/resourceArea.hpp:51-68 | the innermost mark of a sound area can always be reset |
| `Arenas.ResourceMark.Release` | src/memory/resourceArea.hpp:47-49 | the whole new state is the model's |
| `Arenas.Arena.StillSound` | src/memory/arena.cpp:42-122 | an object that a model step took from a sound state is sound |
| `Arenas.ResourceMark.Undo` | src/memory/resourceArea.hpp:51-68 | on a sound area with a mark that saved a chunk, or without chunks: a reset gives back the saved area and leaves a sound object |
| `Arenas.ResourceMark.Close` | src/memory/resourceArea.hpp:47-49 | the same for the destructor |
| `ArrayMemory.CopyElemsItems` | src/utilities/growableArray.hpp:73-75 | the copy loop moves the elements and writes nowhere else |
| `ArrayMemory.FillElemsItems` | src/utilities/growableArray.hpp:77-80 | the filling loops set the slots and write nowhere else |
| `ArrayMemory.ShiftElemsSlots` | src/utilities/growableArray.hpp:222-228 | the removal loop moves the later elements down by one, leaves the last slot as it was, and writes nowhere else |
| `ArrayModel.Doubled` | src/utilities/growableArray.hpp:59-61 | the doubling loop ends above j and at most at 2j |
| `ArrayModel.DoubledFitsExactly` | src/utilities/growableArray.hpp:59-61 | doubling from m ends in a 32-bit int iff some m * 2^k is above j and below 2^31 |
| `ArrayModel.NewMaxIsInt` | src/utilities/growableArray.hpp:58-61 | the same for grow, from any old capacity |
| `ArrayModel.NewMaxFitsExactly` | src/utilities/growableArray.hpp:59-61 | from an empty array the new capacity is a 32-bit int iff j < 2^30 |
| `ArrayModel.NewMaxIsLeast` | src/utilities/growableArray.hpp:58-61 | the new capacity is the least of 2, 4, 8, ... above j for an array without capacity, of max, 2 max, 4 max, ... for one with |
| `ArrayModel.GrowOverflows` | src/utilities/growableArray.hpp:58-61 | instances at index 2^30: from capacity 2^30 the new one would be 2^31; from 3 * 2^28 it is an int |
| `ArrayModel.GrowEffect` | src/utilities/growableArray.hpp:58-92 | growing keeps the items, in a fresh block as young as the innermost mark, and leaves every other block alone |
| `ArrayRuns.FindFromLeast` | src/utilities/growableArray.hpp:203-215 | the scan's result is the only value that is the least matching index, or -1 if there is none |
| `ArrayRuns.ArrayEffect` | src/utilities/growableArray.hpp:160-233 | each operation makes of the items what it makes of a sequence, and changes nothing else in the process |
| `ArrayRuns.GrowthStamps` | src/utilities/growableArray.hpp:58-92 | only growth, which at least doubles, and deallocation change the capacity, and growth stamps it with the mark depth |
| `ArrayRuns.ItemByItem` | src/utilities/growableArray.hpp:160-233 | what each operation leaves at each position: kept order for remove_at, the first occurrence for remove, filling between the old end and the index for at_put_grow |
| `ArrayRuns.GrowConstructs` | src/utilities/growableArray.hpp:73-80 | after a growth the slots behind the items hold default-constructed elements |
| `ArrayRuns.CreateConstructs` | src/utilities/growableArray.hpp:95-112 | after a creation, too |
| `ArrayRuns.CreatedEffect` | src/utilities/growableArray.hpp:95-112 | a new array holds its filler and disturbs nothing |
| `ArrayRuns.NewItemByItem` | src/utilities/growableArray.hpp:95-112 | length, capacity, buffer size and every item of a new array |
| `ArraySystems.OtherKeepsArray` | src/memory/resourceArea.hpp:51-68 | one step of marks or of another client: an array loses its block only to a reset that undoes the mark depth it got its capacity at, or to a destruction, and otherwise keeps its items |
| `ArraySystems.ArraysRefineSequences` | src/utilities/growableArray.hpp:58-233 | over every run of many arrays, marks and other clients, each array's items are those of a sequence nobody else touches |
| `ArraySystems.ArraysAreSequences` | src/utilities/growableArray.hpp:58-233 | the same from the start |
| `ArraySystems.RunCopyCost` | src/utilities/growableArray.hpp:58-75 | in every reachable state the elements copied by grow are at most the capacity gained |
| `ArraySystems.CostRunIs` | src/utilities/growableArray.hpp:58-75 | the recorded cost is the one that the calls add up to: each call that enlarges the capacity copies the whole length |
| `ArraySystems.ReachableCopyCost` | src/utilities/growableArray.hpp:58-75 | from the start: between deallocations the elements copied by all growths are at most the capacity gained |
| `ArrayMarks.StampRun` | src/utilities/growableArray.hpp:58-70 | over any stretch that keeps more than d marks open: an arena array got its capacity at depth d or less iff it had done so before and was neither grown nor deallocated since |
| `ArrayMarks.AloneRun` | src/utilities/growableArray.hpp:160-233 | such an array's items are what its own calls make of a sequence, whatever ran in between |
| `ArrayMarks.ArrayOutlivesMark` | src/memory/resourceArea.hpp:40-68 | an array neither grown nor deallocated while a mark was open stands after the release, with the same buffer in the same place and the items that its own calls make |
| `ArrayMarks.ArrayOutlivesMarkExactly` | src/memory/resourceArea.hpp:40-68 | of the arena arrays with capacity, exactly those stand after the release that had it at the mark and were neither grown nor deallocated since |
| `ArrayMarks.ArrayMemoryTakenBack` | src/memory/resourceArea.hpp:40-68 | unless another client undercuts the mark, the release takes back an arena array's buffer iff the array does not stand |
| `Ownership.ReachableHoldings` | src/memory/arena.cpp:42-86 | nothing leaks: in every reachable state the C-heap regions in use are exactly the listed chunks and the clients' C-heap blocks, each held once and of the size its holder knows |
| `Ownership.NoLeakRun` | src/memory/resourceArea.hpp:51-68 | the induction behind it, from any state without a leak, through resets and destructions |
| `Ownership.GrowFreesOld` | src/utilities/growableArray.hpp:82-91 | growing a C-heap array gives its old buffer back |
| `Ownership.ArenaGrowKeeps` | src/utilities/growableArray.hpp:82-91 | growing an arena array leaves its old buffer a block like the others |
| `Ownership.ArrayExchanges` | src/utilities/growableArray.hpp:58-233 | over every array operation, deallocation included, exactly the old C-heap buffer goes and exactly the new one comes |
| `Ownership.HoldingsRun` | src/utilities/growableArray.hpp:58-233 | over every run of arrays and other clients nothing leaks, and the C-heap blocks that are no array's are those that others obtained and have not freed |
| `Ownership.ReachableBuffers` | src/utilities/growableArray.hpp:58-233 | from the start: the regions in use are exactly the listed chunks, the C-heap arrays' buffers and those blocks |
| `GrowableArrays.GrowableArray.constructor` | src/utilities/growableArray.hpp:95-112 | the new world and array are the model's |
| `GrowableArrays.GrowableArray.Grow` | src/utilities/growableArray.hpp:58-92 | the doubling stays within int, the new state is the model's, and an old C-heap buffer is freed |
| `GrowableArrays.GrowableArray.Append` | src/utilities/growableArray.hpp:160-164 | the new state is the model's |
| `GrowableArrays.GrowableArray.Pop` | src/utilities/growableArray.hpp:168-172 | the last element is returned and dropped |
| `GrowableArrays.GrowableArray.AtPut` | src/utilities/growableArray.hpp:179-182 | the new state is the model's |
| `GrowableArrays.GrowableArray.AtPutGrow` | src/utilities/growableArray.hpp:184-193 | the new state is the model's, in all three cases |
| `GrowableArrays.GrowableArray.TruncTo` | src/utilities/growableArray.hpp:197-200 | the new state is the model's |
| `GrowableArrays.GrowableArray.Clear` | src/utilities/growableArray.hpp:195 | the new state is the model's truncation to nothing |
| `GrowableArrays.GrowableArray.Find` | src/utilities/growableArray.hpp:203-208 | the least matching index, or -1 when there is none |
| `GrowableArrays.GrowableArray.FindFromIndex` | src/utilities/growableArray.hpp:210-215 | the least matching index from a start on, or -1 when there is none |
| `GrowableArrays.GrowableArray.RemoveAtIndex` | src/utilities/growableArray.hpp:222-228 | the new state is the model's |
| `GrowableArrays.GrowableArray.RemoveFirst` | src/utilities/growableArray.hpp:230-233 | the new state is the model's removal of the first occurrence |
| `GrowableArrays.GrowableArray.ClearAndDeallocate` | src/utilities/growableArray.hpp:120-132 | the new state is the model's; a C-heap buffer is freed once |
| `TextStream.ColumnSplit` | src/utilities/ostream.hpp:136-148 | the column of a text does not depend on how it is split |
| `TextStream.ColumnLastLine` | src/utilities/ostream.hpp:136-148 | the column depends only on the text after the last newline |
| `TextStream.ColumnPlain` | src/utilities/ostream.hpp:136-148 | every character but newline and tab takes one column |
| `TextStream.TabStop` | src/utilities/ostream.hpp:141-143 | a tab goes to the next multiple of 8 |
| `TextStream.GrownSize` | src/utilities/ostream.cpp:99-103 | the doubling ends with room for text and terminator, at most at twice the need |
| `TextStream.DoublingEnds` | src/utilities/ostream.cpp:99-103 | the doubling of a size_t, wrap-around included, ends for a need below 2^63 iff the buffer has at least one character; for any need iff one of the first 63 doublings exceeds it |
| `TextStream.PowerDoublingEnds` | src/utilities/ostream.cpp:99-103 | for a size that is a power of two it ends iff the need is below 2^63 |
| `TextStream.OwningLoopEnds` | src/utilities/ostream.cpp:80-103 | the same for an owning stream after any run of calls |
| `TextStream.WriteSize` | src/utilities/ostream.cpp:97-110 | the buffer changes only in an owning stream and only if text and terminator do not fit; then it is the least of 2, 4, 8, ... times its size in which they do |
| `TextStream.MinusOneNeverEnds` | src/utilities/ostream.hpp:51 | print_raw with length -1 on a new stream never returns |
| `TextStream.WriteSplit` | src/utilities/ostream.cpp:97-122 | splitting a write changes neither text nor column, in owning and fixed streams |
| `TextStream.DoIsWrite` | src/utilities/ostream.hpp:150-177 | sp, fill_to, cr and bol are writes of the text they ask for, as far as text, accepted text and (owning) column go |
| `TextStream.OwningRun` | src/utilities/ostream.cpp:97-122 | over any run of writes, sp, fill_to, cr, bol and resets an owning stream holds the text asked for since the last reset; its column is that of all text ever asked for, a text computed from the calls alone |
| `TextStream.FixedRun` | src/utilities/ostream.cpp:97-122 | a fixed stream of size n holds the first n-1 characters asked for since the last reset, however they were cut into calls |
| `TextStream.HistoryStep` | src/utilities/ostream.cpp:97-122 | the accepted text of any stream grows by exactly what its text gains |
| `TextStream.CopyTerminatedExactly` | src/utilities/ostream.cpp:124-128 | over any run: the copy ends in a terminator iff, since the last call that wrote one, the stream was not reset, or had no text, or a text that begins with one; with no such call it is up to what the buffer held at first |
| `TextStream.OwningCopy` | src/utilities/ostream.cpp:124-128 | over any run the copy of an owning stream is the text asked for since the last reset and one character, a terminator if there is text |
| `TextStream.FixedCopy` | src/utilities/ostream.cpp:124-128 | for a fixed one of size n it is the first n-1 characters of it and one character |
| `TextStream.CopyOfWrite` | src/utilities/ostream.cpp:124-128 | one write to a new stream, copied: the text and its terminator |
| `TextStream.UnterminatedCopies` | src/utilities/ostream.cpp:124-128 | instances: after writing "a" and a reset the copy is "a" unterminated; the copy of a new stream is what malloc left |
| `TextStream.FillToColumn` | src/utilities/ostream.hpp:157-162 | fill_to ends at max(column, col) iff there is room for the blanks, else where the buffer ends |
| `TextStream.CrColumn` | src/utilities/ostream.hpp:174-177 | after cr the column is 0, and is that of the accepted text iff the newline was kept or the column was 0 |
| `TextStream.ColumnRun` | src/utilities/ostream.hpp:136-177 | over any run of calls on an owning or fixed stream the column is that of the text accepted since the last newline for which there was no room |
| `TextStream.MeetExactly` | src/utilities/ostream.hpp:136-148 | two columns become one along a text iff they are equal, the text has a newline, or its first tab takes both to one stop |
| `TextStream.ColumnRunExactly` | src/utilities/ostream.hpp:136-177 | over any run on a new stream: the column is that of all accepted text iff the column at the last lost newline was 0 or has met column 0 since |
| `TextStream.CrOnFullStream` | src/utilities/ostream.hpp:174-177 | an instance where it is not |
| `StringStreams.CharHeap.NewChars` | src/utilities/ostream.cpp:83 | the assumed primitive: one more array in use, of unknown contents |
| `StringStreams.CharHeap.Delete` | src/utilities/ostream.cpp:92 | the assumed primitive: only an array in use may be freed |
| `StringStreams.StringStream.constructor` | src/utilities/ostream.cpp:80-84 | an empty owning stream of 1024 characters, holding one array of the C heap |
| `StringStreams.StringStream.Over` | src/utilities/ostream.cpp:86-88 | an empty stream over the caller's buffer |
| `StringStreams.StringStream.Destroy` | src/utilities/ostream.cpp:90-95 | an owned buffer is freed, another's is not |
| `StringStreams.StringStream.UpdatePosition` | src/utilities/ostream.hpp:136-148 | the loop computes the column fold; a text without newline and tab moves it by its length |
| `StringStreams.StringStream.Write` | src/utilities/ostream.cpp:97-122 | the new state, character behind the text included, is the model's; the C heap has lost the old buffer and got the new one; a write refused for lack of room leaves the buffer as it was |
| `StringStreams.StringStream.NextSize` | src/utilities/ostream.cpp:100-103 | the loop computes the model's size without wrapping |
| `StringStreams.StringStream.Enlarge` | src/utilities/ostream.cpp:105-110 | the text moves to a larger fresh buffer and the old one is freed |
| `StringStreams.StringStream.Sp` | src/utilities/ostream.hpp:168-172 | as many one-blank writes as asked for |
| `StringStreams.StringStream.Indent` | src/utilities/ostream.hpp:150-155 | as many as the indentation |
| `StringStreams.StringStream.FillTo` | src/utilities/ostream.hpp:157-162 | the new state is the model's |
| `StringStreams.StringStream.Cr` | src/utilities/ostream.hpp:174-177 | the new state is the model's |
| `StringStreams.StringStream.Bol` | src/utilities/ostream.hpp:58 | the column is 0, with a newline only if it was not |
| `StringStreams.StringStream.Reset` | src/utilities/ostream.hpp:127 | the text is empty, the column stays, and behind the text is now the first character of the old one |
| `StringStreams.StringStream.AsString` | src/utilities/ostream.cpp:124-128 | a fresh array, the caller's to free, with the characters of the buffer up to the one behind the text |

## Left out

- `Arenas.Arena.Sized`: an initial size so large that adding the header wraps is excluded, because malloc would then be asked for a few bytes only.
- `ArraySystems.ArraysRefineSequences`: a grow whose doubled capacity is not an int (`ArrayModel.NewMaxIsInt`) is not a step of a run, as its int overflow is undefined.
- `GrowableArrays.GrowableArray.AtPutGrow`: a negative index, which the source does not check and writes out of bounds, is excluded.
- `GrowableArrays.GrowableArray.FindFromIndex`: a negative start, which the source does not check, is excluded.
- `GrowableArrays.GrowableArray.constructor`: the two C++ constructors are one; the C-heap form has length 0; the byte count must fit an int, as `raw_allocate` multiplies ints.
- `StringStreams.StringStream.Write`: text and write together stay below 2^63 characters, the needs for which the doubling of an owned buffer ends (`TextStream.OwningLoopEnds`); a length that wraps around when added to the text, and writing a stream's own buffer into itself, are not modelled.
- `StringStreams.StringStream.Over`: a buffer of size 0 is excluded, because the doubling loop does not end for it (`TextStream.DoublingEnds`).
- `TextStream.OwningRun`: the column is a natural number; the int it is kept in could overflow after 2^31 characters without a newline.
- `Arenas.ResourceMark.FreeLaterChunks`: only the innermost open mark, as below.
- `Arenas.ResourceMark.ResetToMark`: only the innermost open mark; releasing marks out of order is not modelled.
- `Arenas.ResourceMark.Release`: only the innermost open mark, as above.
- `StringStreams.StringStream.Destroy`: the null that the destructor leaves in `_buffer` is not modelled; the object is not used again.
- Arrays "on the stack" use the shared resource area, which is an arena like any other; its being shared and global is not modelled.
- A process has one arena here besides the C heap; a second one would be one more client of the C heap.
- Element constructors and destructors, references into arrays, iterators, `adr_at` and `top`: elements are values.
- Foreign memory contents after `malloc`: a fresh block is simply undefined to its owner.
- `fileStream`, `fdStream`, `tty`, formatted printing: input and output.
- `Klass`, `Method`, `ConstMethod`, `Metadata`, `oopDesc`, `Array`, `constantTag`, `atomic`, `copy`: field layouts, getters and thin wrappers.
- Locking, inflation, biasing and collection protocols: the code has their bit encodings only.
