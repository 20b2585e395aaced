# Proofs about DOSBox Staging

A Dafny model of the parts of DOSBox Staging whose correctness rests on invariants that no single
function shows, with proofs of these invariants:

* **The dynamic-core code cache** (`Chains`, `LinkTables`, `CodePages`, `WriteMasks`, `Decoding`,
  `CacheInvariants`, `RunTraces`, `CodeCaches`, `CacheRuns`, `CacheLimits`): translated blocks in an
  arena, threaded on hash chains, caller lists and a free list. Main result: after any run, whose
  memory is what its writes made of it, no block that can be entered is out of date with guest memory
  and no jump of such a block leads into one that was given up, until a block that was dropped while
  it ran is linked again; exactly that ends the validity of the cache. An existing block is always
  used, so no two begin at the same place. Blocks are indices into tables; each field of the
  source's structure is one table.
* **Paging and the TLB** (`PageEntries`, `PagingUnit`, `PagingRuns`): TLB arrays and the journal of
  links over the two-level walk of the 80386. Main result: accesses end as on
  a machine without a TLB, with the exceptions stated below; what is linked is what the walk
  gives, with its protection on the processors that track it; and no accessed or dirty bit that
  an access has to set is missing.
* **Lazy flags** (`BitArithmetic`, `StatusFlags`, `FlagArithmetic`, `LazyFlags`, `Rotations`,
  `FlagMachine`, `Programs`, `BigNumbers`): recorded operands and derived flags against whole-number
  arithmetic (Intel SDM volume 1, section 3.4.3.1). Main results: programs cannot tell the lazy
  machine from one that computes every flag, and carry chains compute with big numbers.
* **Task switching** (`Descriptors`, `Tasks`, `TaskNesting`, `TaskRuns`): busy bits, back links and
  NT under nested calls and returns (80386 manual, sections 7.5 and 7.6); and real-mode interrupt
  frames (`RealMode`).
* **Encoders and the prefetch queue** (`OplTables`, `OplCaptures`, `MidiTracks`, `MidiCaptures`,
  `Prefetch`): buffered writers with players that read back what was written (Standard MIDI
  Files 1.0), and a sliding window over code memory.

Machine integers are unbounded numbers with the wrap-around written out; `x & 0x80` and the like are
single bits of a number. The three widths of an instruction are one method with a width.
`dafny verify dfyconfig.toml` checks everything.

Statements that are false of the code, each with its exact condition:

* `GrowMaskForTypeAt`'s assertion is strict (dyn_cache.h:622) and fails exactly when an existing mask
  is to end at four times its old length, as a dword 252 bytes behind the first masked byte does: `GrowMaskForTypeAt`, `StrictAssertionFails`;
  the bound that memory safety needs holds always.
* A translated byte is counted in a byte, and nobody looks whether it is full (decoder_basic.h:202-236): with 255 blocks
  over one byte, one more makes writes to it go unnoticed: `CodePages.FetchKeepsWriteMap`, `WrappedGoesStale`;
  `CacheLimits.FullCounter` gets there from the empty cache.
* ClearRelease counts one block where Clear drops two (dyn_cache.h:488-502): its count stays right iff the other half of
  the block, if there is one, is in another page: `CacheInvariants.CountStays`; where two linear pages are one physical
  page the walk runs past the hash map: `SharedPageRunsPast`.
* A write that drops the running block is reported iff the instruction pointer is in the written page
  (dyn_cache.h:181-197); a block hit in its second half runs on: `DropReported`, `ReportsMislead`, `StoreIntoSecondHalf`.
* LinkTo keeps the caller lists exact iff its source is live (dyn_cache.h:49-55); such a block that runs on is not, so its
  first new link, and nothing else in a run, ends the validity of the cache: `LinkToKeepsIff`, `CacheRuns.Session`. Its
  next use cuts the list of the block it jumped to, and the same link again turns that list into a circle of one, in which
  the search for another caller never ends: `DeadLinkCuts`, `DeadLinkCircles`. Its old jumps stay and may lead to a
  block that was cleared since: `JumpIntoDead`.
* A supervisor write to a page that is linked for reading only is stored through the read pointer (paging.cpp:566), which
  is null iff the page is not readable, and passes the page's own handler iff that is not writeable through the same
  memory: `Paging.Access`, `WriteProtectedStore`.
* Such a supervisor write does not mark its page as dirty: `WriteProtectedStore`; all other writes do: `PagingRuns.Session`.
  A page that was made writeable without a flush is linked for writing without being marked (paging.cpp:656-681), which
  leaves the TLB sound iff it was marked before: `Paging.WriteToReadOnly`.
* On the 386 fast and mixed types protection is not tracked, and a page linked by a supervisor can be
  used by everybody: `Paging.Access` says when an access follows the walk, `UntrackedBypass` gives a run.
* `get_OF` after SHR by one misses the operand that is exactly the sign bit (flags.cpp:375-383), and
  `FillFlags` keeps AF after a double shift while `get_AF` says zero: `FlagMachine.FillAgrees`; a program notices the
  former iff it asks for OF in between: `Programs.LateOnlyWhenAsked`.
* A variable-length quantity keeps 28 bits (capture_midi.cpp:50-62): `MidiTracks.TrackRoundTrip`.
* The range test of `Fetchw` and `Fetchd` wraps around at the end of the address space
  (core_prefetch.cpp:140, 167): `Prefetch.HitsLieInQueue`.
* A capture that is cut off after 30 s counts milliseconds that no delay code tells
  (opl_capture.cpp:51-60), and only such a one: `OplCaptures.Session`.
* A 16-bit IRET clears AC and ID where they can be toggled (cpu.cpp:349): `RealMode.Serve`.

## Model

| member | source | states |
|---|---|---|
| LinkTables.LinkTable.LinkTo | src/cpu/dyn_cache.h:49-55 | the source block jumps to the target and heads its caller list; the lists of all live blocks stay acyclic and exact, also for a block that links to itself, if and only if the source is live |
| LinkTables.LinkToKeepsIff | src/cpu/dyn_cache.h:49-55 | after LinkTo there are exact caller lists iff the source is live |
| LinkTables.DeadLinkCuts | src/cpu/dyn_cache.h:719-769 | a dead source that is closed again as a new block cuts the target's caller list: all other callers still jump to the target and are not in its list any more |
| LinkTables.DeadLinkCircles | src/cpu/dyn_cache.h:660-672 | when that new block is linked to the same target again, it is its own successor: the search for any other caller, all of whom still jump there, is at that block after every number of steps |
| LinkTables.JumpIntoDead | src/cpu/dyn_cache.h:644-673 | a block and then the block it jumped to are cleared: the first one, dead, still jumps to the dead second one |
| LinkTables.LinkTable.DetachCallers | src/cpu/dyn_cache.h:648-659 | every live block that jumped to the block falls back on the default link block, all other jumps are unchanged, and the caller list is empty |
| LinkTables.LinkTable.Unthread | src/cpu/dyn_cache.h:660-672 | the search for a block in the caller list of its target always finds it, and taking it out keeps every caller list exact (the "cache anomaly" branch is unreachable) |
| LinkTables.LinkTable.Retire | src/cpu/dyn_cache.h:644-673 | after the link part of Clear no live block jumps to the cleared one, and the block is gone from all caller lists |
| LinkTables.UnthreadKeeps | src/cpu/dyn_cache.h:660-672 | removing one caller from one list keeps "the list of b holds exactly the live blocks that jump to b" for every block |
| Chains.ChainSplice | src/cpu/dyn_cache.h:429-440 | unlinking the element after a known predecessor leaves the same singly linked list without that element |
| Chains.ChainInsert | src/cpu/dyn_cache.h:719-769 | inserting a fresh element behind a known one leaves an acyclic list with it in that place |
| Chains.FindLink | src/cpu/dyn_cache.h:434-439 | the pointer walk stops at the wanted element and knows its predecessor |
| CodePages.CodePageTable.AddBlock | src/cpu/dyn_cache.h:407-426 | the block becomes the head of its hash slot and the block count goes up; the hash index, the block count and the write map stay exact |
| CodePages.CodePageTable.DelBlock | src/cpu/dyn_cache.h:429-470 | a registered block disappears from its slot, from the block count and, byte by byte, from the write map, including the two loops around its mask; nothing else changes in other pages |
| CodePages.Uncount | src/cpu/dyn_cache.h:441-468 | the loops subtract one from exactly the counters of the bytes that the block covers unmasked, and never below zero |
| CodePages.UncountExact | src/cpu/dyn_cache.h:441-468 | under the invariant the `if (write_map[i])` guard never hides a counter: each covered byte loses exactly one |
| CodePages.CodePageTable.FindCacheBlock | src/cpu/dyn_cache.h:504-514 | the lookup finds a block iff some block that begins in the page starts at that offset, and then finds such a block |
| CodePages.FetchKeepsWriteMap | src/cpu/core_dynrec/decoder_basic.h:202-236 | after one, two or four more translated bytes the write map counts exactly if and only if none of their counters was full; the counters are added to as one number, with the carries that gives |
| CodePages.CountedUp | src/cpu/core_dynrec/decoder_basic.h:202-236 | adding 0x01, 0x0101 or 0x01010101 raises each counter by one, unless one is full: then the lowest full one goes to zero |
| CodePages.CodePageTable.Fetch | src/cpu/core_dynrec/decoder_basic.h:202-236 | the page tables stay valid iff the counters had room |
| CacheInvariants.WrappedGoesStale | src/cpu/dyn_cache.h:223-240 | a byte translated once more at a full counter: a write to it finds no code, drops no block, and leaves a registered block that is out of date |
| CacheLimits.FullCounter | src/cpu/core_dynrec.cpp:246-252 | from the empty cache, in either build: a run of prefix bytes with an opcode behind, 256 bytes in all, entered at each of its first 255 bytes, where each time no block begins, leads to a valid, coherent cache in which the counter of the last byte is full and that byte has no block of its own |
| CodePages.RegisterKeepsHash | src/cpu/dyn_cache.h:407-417 | registering keeps every slot of every page an exact list |
| CodePages.UnregisterKeepsWriteMap | src/cpu/dyn_cache.h:429-470 | after removal each counter is again the number of blocks that cover the byte |
| WriteMasks.GrowWriteMask | src/cpu/dyn_cache.h:578-597 | the longer mask begins with the old marks and is zero behind them |
| WriteMasks.GrowMaskForTypeAt | src/cpu/dyn_cache.h:599-624 | the mask covers the operand with its old marks kept and zeros behind; the strict debug assertion fails iff the mask existed and the operand ends exactly at four times its old length |
| WriteMasks.StrictAssertionFails | src/cpu/dyn_cache.h:599-624 | a mask made for byte 0 and then grown for a dword at byte 252 fails the assertion |
| WriteMasks.AddToWriteMaskAt | src/cpu/dyn_cache.h:626-642 | exactly the one, two or four bytes of the operand get a mark more, all other marks stay |
| Decoding.TranslatePart | src/cpu/core_dynrec/decoder_basic.h:180-300 | after any sequence of fetches whose unmasked bytes have room in their counters, the block records exactly the unmasked bytes it read, with the values in memory, and the write map counts them |
| Decoding.Seal | src/cpu/core_dynrec/decoder.h:980-997 | with `page.end` set, the recorded bytes are exactly those between start and end that the mask does not exempt |
| CodeCaches.CodeCache.Clear | src/cpu/dyn_cache.h:644-688 | the exact effect of the recursive Clear: block and other half leave pages, jumps and pairing, a second half goes to the free list, nothing else changes |
| CodeCaches.CodeCache.ClearBlock | src/cpu/dyn_cache.h:644-688 | clearing a registered block keeps the whole cache valid |
| CodeCaches.CodeCache.InvalidateRange | src/cpu/dyn_cache.h:174-208 | after the descending scan with its early exit no registered block of the page covers a byte of the range, every evicted block met the range itself or by its other half, and the others are as before |
| CodeCaches.CodeCache.IdleWrite | src/cpu/dyn_cache.h:233-243 | a write where no code is counts down only in a page without blocks, and the page is given up when one was left; the count begins at 16 and does so again with each block that is dropped |
| CodeCaches.CodeCache.Write | src/cpu/dyn_cache.h:223-305 | a guest write stores its bytes (unless ROM or fatal) and leaves only blocks whose recorded bytes equal memory; evicted blocks met the range; the page is given up iff the write changed something, the page has no block, and its count was one |
| CodeCaches.CodeCache.WriteChecked | src/cpu/dyn_cache.h:307-404 | the same for checked writes, with the outcomes told apart; `CurrentBlock` iff a block of the written page that holds the instruction pointer was evicted |
| CacheInvariants.DropReported | src/cpu/dyn_cache.h:174-208 | an invalidation that drops the running block reports it if and only if the instruction pointer lies in the written page |
| CacheInvariants.NoneEvicted | src/cpu/dyn_cache.h:174-208 | an invalidation in a page without blocks drops none and reports none |
| CacheInvariants.ReportsMislead | src/cpu/dyn_cache.h:174-208 | one running block is dropped unreported, another is reported and kept |
| CodeCaches.CodeCache.StoreIntoSecondHalf | src/cpu/dyn_cache.h:307-404 | every checked write that changes a translated byte of the second half of the running block, while the instruction pointer is in the first page, is carried out, drops the block and does not report it |
| CodeCaches.CodeCache.LinkBlocks | src/cpu/core_dynrec.cpp:155-185 | a link is made iff some enterable block of the page begins at the offset; then exactly the running block's jump changes; the cache stays valid iff no link is made or the running block is still live |
| CodeCaches.CodeCache.Follow | src/cpu/core_dynrec.cpp:155-185 | a block, live or dropped, is left by its jump or through LinkBlocks: a live one gets to live ones only, a new link leads to a block that begins at the exit's page and offset, and validity ends iff a dropped one is linked |
| CodeCaches.CodeCache.Run | src/cpu/core_dynrec.cpp:221-324 | from any block, live or dropped, control follows the jumps of the exits; each jump is as before or was linked to a block at its exit's page and offset; from live blocks it gets to live blocks only, translated from the bytes now in memory; it stops only where nothing begins at the target; the cache is spoiled iff a dropped block is linked, at the last exit |
| CodeCaches.CodeCache.OpenBlock | src/cpu/dyn_cache.h:690-717 | merging yields a cleared block of at least CACHE_MAXSIZE bytes or the last one of the arena; in the C_DYNREC build always the former; no block is registered anew; of the tiles of the arena exactly those inside the new block are gone, and each of them began while the block was still too small |
| CodeCaches.CodeCache.CloseBlock | src/cpu/dyn_cache.h:719-769 | closing shrinks the block to its aligned size, gives the rest to a new block or leaves it, opens the links and advances; the arena stays tiled and every block stays in exactly one place; gives up exactly when the code overran the block or the rest of the space needs a block and none is left |
| CodeCaches.CodeCache.SplitActive | src/cpu/dyn_cache.h:740-755 | a block from the free list takes the rest of the arena space behind the closed block |
| CodeCaches.CodeCache.GetBlock | src/cpu/dyn_cache.h:556-569 | a block from the head of the free list, or none |
| CodeCaches.CodeCache.AddSecondHalf | src/cpu/dyn_cache.h:419-426 | the second half comes from the free list, is registered in the other page in slot 0 and paired both ways |
| CodeCaches.CodeCache.Translate | src/cpu/core_dynrec/decoder.h:18-60 | creating a block (with or without a second half) ends with a valid, coherent cache, the block registered at its page and offset, its jumps on the default link blocks; all other blocks that can be entered could be before and are as they were; at most two blocks are registered and taken from the free list; in either build it cannot fail while two blocks are unused and the code has at most CACHE_MAXSIZE bytes; without a second half it succeeds in either build while the active block is cleared and has room, and leaves the rest of it to open next |
| CodeCaches.CodeCache.TakePage | src/cpu/dyn_cache.h:149-172 | setting up a page handler gives an empty page and keeps validity and coherence |
| CodeCaches.CodeCache.ClearRelease | src/cpu/dyn_cache.h:488-502 | the walk over the hash map, driven by the block count alone, visits every block of the page once and never runs past the map; afterwards the page has no block |
| CacheInvariants.CountStays | src/cpu/dyn_cache.h:488-502 | when a block is cleared, one less than the count is the number of the page's blocks iff the other half is absent or in another page |
| CacheInvariants.SharedPageRunsPast | src/cpu/dyn_cache.h:488-502 | a page with both halves of its one block, hashed and counted exactly: after its first block was cleared the count is one, but no block is left, and the slots behind held none but its other half |
| CodeCaches.CodeCache.constructor | src/cpu/dyn_cache.h:953-1068 | the initial cache satisfies all invariants |
| CacheInvariants.SweepClear | src/cpu/dyn_cache.h:184-207 | clearing a block during the scan of its slot leaves the rest of the slot list to scan |
| CacheInvariants.HighSlots | src/cpu/dyn_cache.h:174-183 | blocks hashed above the slot of the range's end start behind it, so the scan may begin there |
| CacheInvariants.Absorb | src/cpu/dyn_cache.h:690-717 | merging a block into its predecessor keeps the arena tiled |
| CacheInvariants.ArenaSplice | src/cpu/dyn_cache.h:690-717 | taking a tile out of the chain and adding its size to the one before keeps the tiling of [0, CACHE_TOTAL) |
| CacheInvariants.MergedOneMore | src/cpu/dyn_cache.h:690-717 | joining the next tile to a block that is too small keeps this so |
| CacheInvariants.TilesOrdered | src/cpu/dyn_cache.h:690-717 | the tiles lie in the arena in the order of their chain, without overlap |
| CacheInvariants.SplitKeeps | src/cpu/dyn_cache.h:740-755 | splitting a tile in two keeps the tiling with aligned starts |
| CacheInvariants.RoundedUp | src/cpu/dyn_cache.h:740-741 | the size of a closed block is the next multiple of 16 |
| CacheInvariants.ClearKeepsPlaces | src/cpu/dyn_cache.h:549-554 | every block stays in exactly one of arena, free list and live second halves when a block is cleared |
| CacheInvariants.StoreKeepsFresh | src/cpu/dyn_cache.h:223-305 | a store keeps every block true to memory if no block covers a byte it changes |
| CacheRuns.Session | src/cpu/dyn_cache.h:174-514 | every sequence of page set-ups, page releases, plain, unchecked and checked writes, executions (lookup, translation, linking, running) and continued runs, live or dropped: one report a step; memory is what the steps and reports make of it; which writes are carried out, ignored, fatal, or stop the running block; an execution does not translate where a block was entered since one was dropped or made last; counters are full or blocks used up only after as many translations as that takes; at the end the cache is valid and coherent and no two blocks begin at the same place, unless the program gave up; and it ceases to be valid iff a dropped block is linked again |
| CacheRuns.Do | src/cpu/dyn_cache.h:174-514 | each single step: its effect on memory and on the pages, how its report comes about, where blocks begin afterwards; an execution where one begins enters it and changes nothing but jumps, and translates, is full or gives up only where none begins; the trace goes through live blocks true to memory; how the running block goes on by its exits, who runs afterwards, and validity iff no dropped block was linked |
| CacheRuns.Enter | src/cpu/core_dynrec.cpp:221-324 | if a block begins at the requested page and offset, one of those is entered and no table changes; otherwise one is translated there; from it only live blocks true to memory are entered; memory is not changed; it is refused only with 255 registered blocks, and gives up only on code longer than CACHE_MAXSIZE or without two unused blocks |
| CacheRuns.LookUp | src/cpu/core_dynrec.cpp:223-224 | the lookup fails iff no block that can be entered begins at the page and offset, and otherwise finds one and changes nothing |
| CacheRuns.TalliedOn | src/cpu/core_dynrec.cpp:223-246 | one more step keeps the number of translations, the pages with code and the places where blocks begin as the reports tell them |
| RunTraces.MoreSingle | src/cpu/core_dynrec.cpp:223-246 | if no two blocks begin at the same place, a block made where none begins keeps it so |
| RunTraces.WithinSingle | src/cpu/dyn_cache.h:644-688 | dropping blocks keeps it so |
| CacheRuns.Assured | src/cpu/dyn_cache.h:174-208 | in a coherent cache each unmasked byte of each registered block equals the guest memory of its page |
| CacheRuns.CountsExact | src/cpu/dyn_cache.h:429-470 | each write-map counter is the number of blocks of the page that cover the byte unmasked, at most 255 |
| CacheRuns.JumpsStayInside | src/cpu/core_dynrec.cpp:155-185 | a jump of a live block leads to the default link block or to a registered block that can be entered |
| PageEntries.SetGet | src/cpu/paging.h:95-139 | unpacking what was packed gives the same page entry |
| PageEntries.GetSet | src/cpu/paging.h:95-139 | packing what was unpacked gives the same dword |
| PageEntries.Layout | src/cpu/paging.h:95-139 | the weight of each bit field in the dword |
| PageEntries.Indices | src/cpu/paging.cpp:193-220 | the upper ten bits of a linear address select the table, the next ten the page in it |
| PageEntries.NextIndex | src/cpu/paging.cpp:193-220 | pages of one table follow each other in it, and so do tables in the directory |
| PageEntries.Protection | src/cpu/paging.cpp:384-443 | on a 386 one of the two user bits is enough, later both are needed; writes need both write bits; which types keep track |
| PageEntries.WriteBack | src/cpu/paging.cpp:446-466 | storing an entry back with other accessed/dirty bits changes no base and no permission anywhere, even where directory and table overlap |
| PageEntries.MarkedBy | src/cpu/paging.cpp:446-466 | the two conditional stores come to adding 0x20 to each entry that is not accessed, and 0x40 to the page's own if it is to be dirty and is not, and nothing else, even where both are one dword |
| PageEntries.MarksRaise | src/cpu/paging.cpp:446-466 | after that both entries of the page are accessed, its own is dirty if it was to be and as before otherwise, and no other bit of any entry differs |
| PageEntries.MarkedBelow | src/cpu/paging.cpp:446-466 | a memory with all bits set that an access has to set covers what marking makes of any memory it covered |
| PageEntries.WalkAlike | src/cpu/paging.cpp:193-220 | memories that differ in accessed and dirty bits give walks that differ in these bits only |
| PageEntries.WalkRaised | src/cpu/paging.cpp:193-220 | more accessed and dirty bits in memory give walks with more of them, and no other difference |
| PageEntries.WalkSame | src/cpu/paging.cpp:193-220 | a memory in which no present entry changed gives the same walk to a present page |
| PagingUnit.Paging.ClearTLB | src/cpu/paging.cpp:773-784 | emptying the journal leaves every one of the 2^20 TLB entries uninitialised |
| PagingUnit.Paging.LinkPage | src/cpu/paging.cpp:808-851 | exactly the entry of the page is linked (fully or for reading) and journalled; a full journal flushes everything first; refused iff a page number is out of range |
| PagingUnit.Paging.InitPageUpdateLink | src/cpu/paging.cpp:182-191 | the last link is taken out again, and for a tracked write linked again read-only; the journal still covers the TLB |
| PagingUnit.Paging.SetAccessed | src/cpu/paging.cpp:446-466 | accessed bits are set in both entries, the dirty bit in the page's own one if it is to be, and no other bit of memory changes |
| PagingUnit.Paging.InitPage | src/cpu/paging.cpp:377-496 | faults iff the page walk does, with the walk's error code and CR2, and then changes nothing; otherwise both entries are marked as accessed, the page's own one as dirty iff it was, or the access writes, or protection is not tracked, or the page may be written by everybody; nothing else in memory changes, and the page is linked so that the update afterwards leaves a sound TLB |
| PagingUnit.Paging.InitPageCheckOnly | src/cpu/paging.cpp:497-527 | reports a fault iff InitPage raises one, with the same error code and CR2 |
| PagingUnit.Paging.WriteToReadOnly | src/cpu/paging.cpp:656-681 | a user write to a page linked read-only is decided by the walk; what it permits goes through a null pointer iff the page has no write pointer, and leaves the TLB sound iff the page was marked as accessed and dirty |
| PagingUnit.Paging.Access | src/cpu/paging.h:293-394 | an access keeps the TLB sound; on tracking processors its outcome is the walk's, except for a supervisor write to a read-only link, which ends well iff the page is readable and writeable through the same memory; on the others it is the walk's iff the page was not linked or the walk has no objection; memory changes iff it ends well and the page was not linked, and then as InitPage marks it |
| PagingUnit.Paging.CheckedAccess | src/cpu/paging.h:396-470 | checked accesses decide exactly as unchecked ones |
| PagingUnit.Paging.PlainAccess | src/cpu/paging.cpp:488-495 | without paging an access is fatal iff its physical page number is out of range |
| PagingUnit.Paging.MapLowPage | src/cpu/paging.cpp:796-806 | remapping low memory changes exactly that page, drops its link, and keeps a sound TLB sound |
| PagingUnit.Paging.SetDirBase | src/cpu/paging.cpp:963-973 | a new directory empties the TLB while paging is on |
| PagingUnit.Paging.Enable | src/cpu/paging.cpp:975-991 | a change of mode empties the TLB, and takes the directory from CR3 when paging begins; no change does nothing |
| PagingUnit.Paging.GuestStore | src/cpu/paging.cpp:193-220 | the dword is stored, and the TLB stays sound if no walk to a linked page reads it |
| PagingUnit.Paging.NotPresentIsOff | src/cpu/paging.cpp:193-220 | no walk to a linked page reads a dword that holds no present entry |
| PagingUnit.Paging.LinkedPageIsWalked | src/cpu/paging.cpp:717-738 | each linked page has the physical page that PAGING_MakePhysPage computes |
| PagingUnit.Paging.LinkedPageIsMarked | src/cpu/paging.cpp:446-466 | a linked page is marked as accessed in both entries, and as dirty if it is linked for writing |
| PagingUnit.Paging.LinkedPageIsPermitted | src/cpu/paging.cpp:377-496 | on tracking processors what is linked for reading (writing) is what a CPL 3 walk permits to read (write) |
| PagingUnit.PrivCheckMeans | src/cpu/paging.cpp:384-443 | class 3 of the privilege classification is exactly the protection fault of the walk |
| PagingUnit.CheckZero | src/cpu/paging.cpp:384-443 | a page is unclassified iff protection is not tracked or everybody may write it |
| PagingUnit.LinkedSound | src/cpu/paging.cpp:468-494 | the full link of an unclassified page and the read-only link of a write-protected one respect the walk |
| PagingUnit.UntrackedBypass | src/cpu/paging.cpp:384-443 | on processors that do not track protection a supervisor access links a page, and the next user read of it succeeds where the walk faults |
| PagingUnit.WriteProtectedStore | src/cpu/paging.cpp:558-614 | on tracking processors, for every page that users may read but not write: after any first read a supervisor write goes through a null pointer iff the page is not readable, past the page's own way to write iff it is readable but not writeable through the same memory, and never marks the page as dirty |
| PagingUnit.WriteProtectedPage | src/cpu/paging.h:95-139 | a page table in which users may read page 0 and not write it |
| PagingRuns.Session | src/cpu/paging.cpp:182-991 | every run of accesses at any privilege, directory and mode changes, remappings and stores: each access ends as a machine without a TLB says after the steps before it, in the sense of Access; not described are only accesses between a store to an entry of a present page and the next flush; at the end memory, but for accessed and dirty bits, directory, mode and mapping are those of that machine, what is linked is what its walk gives, and every accessed and dirty bit is set that a walk for each access would have set since the guest last stored there, but for supervisor writes to pages that users may read and not write |
| PagingRuns.Do | src/cpu/paging.h:293-470 | each single step does what the machine without a TLB does; the TLB goes stale only by a store to an entry of a present page, and no longer is when it was flushed |
| PagingRuns.DecidedAgrees | src/cpu/paging.cpp:193-220 | accessed and dirty bits make no difference to how an access ends: the walk of the machine without a TLB decides the same |
| PagingRuns.MarkedEnough | src/cpu/paging.cpp:446-466 | a page that was accessed is marked, whether it was linked before or not |
| LazyFlags.ParityTable | src/cpu/flags.cpp:408-425 | the parity table is the parity of its index, for all 256 entries |
| LazyFlags.PulledSum | src/cpu/flags.cpp:31-42 | for ADD and ADC the six readers give the true carry out, nibble carry, overflow, zero, sign and parity of the sum |
| LazyFlags.PulledDifference | src/cpu/flags.cpp:43-57 | for SUB, CMP and SBB they give the true borrow, nibble borrow, overflow, zero, sign and parity of the difference |
| LazyFlags.PulledIncrement | src/cpu/flags.cpp:131-136 | INC: the flags of adding one, with CF kept |
| LazyFlags.PulledDecrement | src/cpu/flags.cpp:137-142 | DEC: the flags of subtracting one, with CF kept |
| LazyFlags.PulledNegation | src/cpu/flags.cpp:79-83 | NEG: the flags of subtracting from zero |
| LazyFlags.PulledLeft | src/cpu/flags.cpp:58-67 | SHL: CF is the last bit shifted out, OF whether the sign changed |
| LazyFlags.PulledRight | src/cpu/flags.cpp:68-78 | SHR and SAR: CF is the last bit shifted out; OF of SHR by one is the sign bit except for the operand that is exactly the sign bit |
| FlagArithmetic.CarryOut | src/cpu/flags.cpp:31-42 | `res < var1 || (oldcf && res == var1)` is the carry out of a sum with carry, at each width |
| FlagArithmetic.BorrowOut | src/cpu/flags.cpp:43-57 | `var1 < res || (oldcf && var2 == all ones)` is the borrow of a difference with borrow |
| FlagArithmetic.SumOverflow | src/cpu/flags.cpp:325-333 | the sign test is signed overflow of the sum |
| FlagArithmetic.DifferenceOverflow | src/cpu/flags.cpp:334-345 | the sign test is signed overflow of the difference |
| FlagMachine.FillAgrees | src/cpu/flags.cpp:472-810 | filling in gives what reading gives, except OF exactly after a right shift by one of exactly the sign bit, and AF exactly after a double shift while AF is set; filling in twice is filling in once |
| FlagMachine.Cpu.FillFlags | src/cpu/flags.cpp:472-810 | reg_flags gets what the readers saw, with these two exceptions, and nothing stays pending |
| FlagMachine.Cpu.FillFlagsNoCFOF | src/cpu/flags.cpp:812-1034 | the same with CF and OF left as reg_flags held them |
| FlagMachine.ReadWritten | src/cpu/registers.h:99-108 | a register reads as it was written, and the byte halves do not interfere |
| FlagMachine.WriteKeeps | src/cpu/registers.h:99-108 | a write of any width changes no other dword, and in its own one no byte outside the operand |
| FlagMachine.ReadElsewhere | src/cpu/registers.h:99-108 | every register of any width that shares no byte with the operand reads as before |
| FlagMachine.HalvesJoin | src/cpu/registers.h:99-108 | a word register is its two byte halves, and a dword register continues the word |
| FlagMachine.Cpu.ADD | src/cpu/instructions.h:10-14 | register and all six visible flags are those of the eager definition: sum |
| FlagMachine.Cpu.ADC | src/cpu/instructions.h:16-21 | register and all six visible flags are those of the eager definition: sum with the pulled carry |
| FlagMachine.Cpu.SBB | src/cpu/instructions.h:23-28 | register and all six visible flags are those of the eager definition: difference with the pulled carry |
| FlagMachine.Cpu.SUB | src/cpu/instructions.h:30-34 | register and all six visible flags are those of the eager definition: difference |
| FlagMachine.Cpu.CMP | src/cpu/instructions.h:54-57 | register and all six visible flags are those of the eager definition: flags of the difference, destination unchanged |
| FlagMachine.Cpu.OR | src/cpu/instructions.h:36-40 | register and all six visible flags are those of the eager definition: bitwise or, CF = AF = OF = 0 |
| FlagMachine.Cpu.AND | src/cpu/instructions.h:48-52 | register and all six visible flags are those of the eager definition: bitwise and, CF = AF = OF = 0 |
| FlagMachine.Cpu.XOR | src/cpu/instructions.h:42-46 | register and all six visible flags are those of the eager definition: bitwise xor, CF = AF = OF = 0 |
| FlagMachine.Cpu.TEST | src/cpu/instructions.h:59-62 | register and all six visible flags are those of the eager definition: flags of the bitwise and, destination unchanged |
| FlagMachine.Cpu.INC | src/cpu/instructions.h:180-196 | register and all six visible flags are those of the eager definition: increment, CF kept through LoadCF |
| FlagMachine.Cpu.DEC | src/cpu/instructions.h:198-214 | register and all six visible flags are those of the eager definition: decrement, CF kept through LoadCF |
| FlagMachine.Cpu.SHL | src/cpu/instructions.h:366-382 | register and all six visible flags are those of the eager definition: left shift by 1..31 |
| FlagMachine.Cpu.SHR | src/cpu/instructions.h:385-401 | register and all six visible flags are those of the eager definition: right shift by 1..31, with the OF that get_OF gives; a later FillFlags sets OF in addition iff the count is one and the operand exactly the sign bit |
| FlagMachine.Cpu.SAR | src/cpu/instructions.h:404-437 | register and all six visible flags are those of the eager definition: arithmetic right shift, counts beyond the width included |
| FlagMachine.Cpu.ROL | src/cpu/instructions.h:218-246 | register and all six visible flags are those of the eager definition: rotation of the ring of bits; CF and OF replaced although the pending ones were dropped, the other flags kept |
| FlagMachine.Cpu.ROR | src/cpu/instructions.h:249-277 | register and all six visible flags are those of the eager definition: rotation to the right, likewise |
| FlagMachine.Cpu.RCL | src/cpu/instructions.h:280-323 | register and all six visible flags are those of the eager definition: rotation of the ring with CF; whole turns change nothing |
| FlagMachine.Cpu.RCR | src/cpu/instructions.h:325-364 | register and all six visible flags are those of the eager definition: rotation to the right through CF, likewise |
| FlagMachine.Cpu.NEG | src/cpu/core_normal/prefix_none.h:980-990 | register and all six visible flags are those of the eager definition: negation |
| Rotations.RolTurns | src/cpu/instructions.h:218-246 | the shift-or formula of ROL is the turned ring of bits |
| Rotations.RorTurns | src/cpu/instructions.h:249-277 | the shift-or formula of ROR is the ring turned back |
| Rotations.RclTurns | src/cpu/instructions.h:280-323 | the formula of RCL is the turned ring of operand and carry, and the tested bit is the new carry |
| Rotations.RcrTurns | src/cpu/instructions.h:325-364 | the formula of RCR is the ring of operand and carry turned back |
| Rotations.RotateBack | src/cpu/instructions.h:218-277 | ROR by the same count undoes ROL, and the other way round, for every count |
| Rotations.SarFills | src/cpu/instructions.h:404-437 | filling with ones is the arithmetic shift of a negative operand |
| Programs.Execute | src/cpu/lazyflags.h:106-127 | every program (arithmetic, logic, shifts, rotations, conditional jumps, reads of the whole flags) run on the lazy flags gives the registers, flags, jumps and observations of the machine that computes all six flags after each instruction, in which the OF of SHR by one of exactly the sign bit is shown late |
| Programs.LateOnlyWhenAsked | src/cpu/flags.cpp:375-383 | that late flag makes a difference to a program if and only if some conditional jump asks for OF while it is late |
| Programs.TflgReads | src/cpu/lazyflags.h:106-127 | each of the sixteen condition readers is the condition on the visible flags |
| Programs.Comparison | src/cpu/lazyflags.h:106-127 | after a comparison Z, B, BE, L and LE mean equal, below, below or equal, less, less or equal, and their opposites the opposite |
| Programs.Opposite | src/cpu/lazyflags.h:106-127 | of each condition and its opposite exactly one holds |
| Programs.Conditions | src/cpu/lazyflags.h:106-127 | after a comparison S, P and O tell whether the difference cut to the width is negative, has even parity, is not the true one |
| Programs.CountBits | src/cpu/instructions.h:795-890 | a shift or rotation count is the low five bits of its operand |
| Programs.TurnsMeans | src/cpu/instructions.h:280-364 | rotations are left out for no count, and those through the carry for whole turns of 9, 17 or 33 bits |
| BigNumbers.AddNumbers | src/cpu/instructions.h:16-21 | an ADC chain over digit strings of any length is big-integer addition, with CF as the carry out |
| BigNumbers.SubtractNumbers | src/cpu/instructions.h:23-28 | an SBB chain of any length is big-integer subtraction, with CF as the borrow |
| BigNumbers.DAA | src/cpu/instructions.h:441-463 | AL and the flags after DAA |
| BigNumbers.DAS | src/cpu/instructions.h:466-492 | AL and the flags after DAS |
| BigNumbers.DecimalSum | src/cpu/instructions.h:441-463 | DAA after ADC of packed digits is the decimal sum with CF as hundred |
| BigNumbers.DecimalDifference | src/cpu/instructions.h:466-492 | DAS after SBB of packed digits is the decimal difference with CF as borrow; the `al <= 5` case never arises |
| BigNumbers.AddDecimals | src/cpu/instructions.h:441-463 | ADC/DAA over packed strings of any length is decimal addition |
| BigNumbers.SubtractDecimals | src/cpu/instructions.h:466-492 | SBB/DAS over packed strings of any length is decimal subtraction |
| BigNumbers.NumberAppend | src/cpu/instructions.h:16-21 | a further top digit adds its value times the power of the base |
| Descriptors.BusyBit | src/cpu/cpu.h:540-558 | setting the busy bit of a TSS descriptor sets just that and can be undone |
| Descriptors.StaysSettled | src/cpu/cpu.cpp:2567-2677 | segment loads do not depend on busy bits |
| Descriptors.SegmentsLoad | src/cpu/cpu.cpp:2567-2677 | which code, stack and data selectors load, by the bits of the descriptor's type and the privilege levels |
| Descriptors.LdtLoads | src/cpu/cpu.h:510-532 | where a selector is looked up, and which LDT a task gets |
| Tasks.MaySwitchMeans | src/cpu/cpu.cpp:630-690 | a task can be called iff its descriptor is a present, available 386 TSS of the GDT, and returned to iff a busy one |
| Tasks.SetFlagsMasked | src/cpu/cpu.cpp:346-352 | CPU_SetFlags takes exactly the masked bits from the new word |
| Tasks.SwitchLoads | src/cpu/cpu.cpp:754-755 | a switch takes CF, PF, AF, ZF, SF, TF, IF, DF, OF, IOPL and NT from the new word, whatever was there before |
| Tasks.MaskTells | src/cpu/cpu.cpp:754-755 | words that agree in what a switch loads agree in each of these flags |
| Tasks.LinkedAddsNested | src/cpu/cpu.cpp:754-755 | a called task starts with NT set and its other flags as saved |
| Tasks.TaskMachine.LoadSelectors | src/cpu/cpu.cpp:765-811 | the selectors of the new task are loaded if all of them load; E_Exit iff the code segment fails its checks |
| Tasks.TaskMachine.HandOver | src/cpu/cpu.cpp:689-736 | the old context is saved, NT cleared for a return, the back link set for a call, and one busy bit changed |
| Tasks.TaskMachine.SwitchTask | src/cpu/cpu.cpp:630-821 | the complete effect of a call or return switch on tables, TSSs, registers and task register, and when it gives up |
| Tasks.TaskMachine.constructor | src/cpu/cpu.cpp:2095-2126 | loading the task register starts a chain of one busy task |
| TaskNesting.CallNests | src/cpu/cpu.cpp:689-735 | after a call the busy tasks are exactly the chain with the new task on top, linked back, the caller saved |
| TaskNesting.ReturnUnnests | src/cpu/cpu.cpp:689-735 | after a return they are exactly the chain without its top |
| TaskNesting.CallTask | src/cpu/cpu.cpp:630-821 | a call fails iff the target is no present, idle 386 TSS; otherwise the target runs in its saved context, each flag from CF to IOPL as saved and NT set, and the caller is on the chain |
| TaskRuns.Iret | src/cpu/cpu.cpp:1236-1250 | IRET returns to another task iff one waits; it then cannot fail, clears exactly the busy bit of the task left, and restores EIP, general registers, selectors and CF, PF, AF, ZF, SF, TF, IF, DF, OF, IOPL and NT of the innermost caller |
| TaskRuns.Interlude | src/cpu/cpu.cpp:630-821 | a call, anything the called task does at any nesting depth, and its return succeed iff every task called on the way is then idle and present; they leave the caller's context, each of these flags included, the descriptor table and the callers as they were |
| TaskRuns.Perform | src/cpu/cpu.cpp:630-821 | a script of computation and nested calls runs to its end iff each task it calls is then idle and present; it ends with the same callers, task and descriptors, and the running task in the context and with the flags that its own computations tell |
| TaskRuns.FinalAlike | src/cpu/cpu.cpp:346-352 | contexts that agree in what a task switch restores still do so after any script |
| TaskRuns.WorkedElsewhere | src/cpu/cpu.cpp:630-821 | a computation sets all flags but NT and VM |
| TaskRuns.StaysHonest | src/cpu/cpu.cpp:765-811 | which selectors a program may load does not depend on the switches in between |
| RealMode.ReadOther | src/cpu/cpu.cpp:306-314 | words pushed two or four bytes apart never overlap, wherever the stack pointer wraps |
| RealMode.MovedBack | src/cpu/cpu.cpp:306-334 | popping undoes pushing on a 16-bit and on a 32-bit stack pointer |
| RealMode.FarApart | src/cpu/cpu.cpp:306-314 | different stack offsets are different addresses modulo 2^32 |
| RealMode.SetFlagsBit | src/cpu/cpu.cpp:346-352 | which bit of the flags comes from where after a 16-bit IRET |
| RealMode.RealModeCpu.Interrupt | src/cpu/cpu.cpp:897-910 | the frame; of the flags just TF and IF are cleared; IP and CS are the two little-endian words of the vector |
| RealMode.RealModeCpu.Iret | src/cpu/cpu.cpp:1157-1171 | IP, CS and flags from the frame |
| RealMode.Serve | src/cpu/cpu.cpp:897-910 | an interrupt whose handler keeps its frame comes back to CS:IP, the stack pointer and all loadable flags; AC and ID survive iff they were clear or cannot be toggled |
| OplTables.Tables.constructor | src/audio/opl_capture.cpp:123-187 | MakeTables makes 122 codes, in one-to-one correspondence with exactly the registers listed |
| OplTables.EntryKeepsInverse | src/audio/opl_capture.cpp:116-121 | an entry for a fresh register keeps the two tables inverse to each other |
| OplCaptures.RawCode | src/audio/opl_capture.cpp:206-235 | raw codes, also with the bank bit, differ from both delay codes and lead back to their register |
| OplCaptures.Play | src/audio/opl_capture.cpp:61-71 | the player's loop computes the writes and the time of the stream |
| OplCaptures.OplCapture.AddDelay | src/audio/opl_capture.cpp:61-71 | the delay codes add up to the elapsed milliseconds and are no writes |
| OplCaptures.OplCapture.AddBuf | src/audio/opl_capture.cpp:196-204 | a pair is appended to what a player will read, and the commands counted stay those flushed |
| OplCaptures.OplCapture.AddWrite | src/audio/opl_capture.cpp:206-235 | a recorded register is appended as a write at the current time; others are dropped |
| OplCaptures.OplCapture.WriteCache | src/audio/opl_capture.cpp:237-263 | a capture begins with the non-zero registers, notes silenced, at time zero |
| OplCaptures.OplCapture.DoWrite | src/audio/opl_capture.cpp:29-114 | follows `Next`: which writes are accepted, with which delay, what a new capture begins with, when a file is closed (with the milliseconds no code tells); false iff a capture should begin and no file can be created |
| OplCaptures.Session | src/audio/opl_capture.cpp:29-114 | from the port writes and the first register values, all bytes, alone: the files are those of `Takes`, in number and order; each plays back to exactly its accepted writes in order and at their times, and its header tells the hardware, the pairs and the milliseconds; these equal the time played iff no pause ended the capture |
| OplCaptures.PlanTimes | src/audio/opl_capture.cpp:40-71 | the times of a capture begin at zero, never run backwards nor pause for more than 30 s, and the last one tells the tick of the last accepted write |
| OplCaptures.PlanPauses | src/audio/opl_capture.cpp:57-60 | a capture that ended before the session did so after a pause of more than 30 s |
| OplCaptures.StartsWhen | src/audio/opl_capture.cpp:78-91 | a capture is started by bit 5 of one of nine channel registers, or by a rhythm note while the rhythm section is on |
| OplCaptures.SilencedParts | src/audio/opl_capture.cpp:237-263 | silencing clears bit 5 of the channel registers of both banks and the rhythm notes of the first, and nothing else |
| OplCaptures.BeginsSilent | src/audio/opl_capture.cpp:237-263 | a capture begins without a note, but for rhythm notes of the second bank |
| OplCaptures.NeededMeans | src/audio/opl_capture.cpp:206-225 | the hardware only grows; exactly which writes make it two OPL2 or an OPL3 |
| MidiTracks.VlqRoundTrip | src/capture/capture_midi.cpp:50-62 | reading a written quantity gives its value modulo 2^28, hence the value iff it is below 2^28 |
| MidiTracks.MessageRoundTrip | src/capture/capture_midi.cpp:88-95 | a message is read back from its bytes |
| MidiTracks.MessageLengths | src/midi/midi.cpp:52-75 | the length of a message by its status, as MIDI 1.0 has it |
| MidiTracks.TrackRoundTrip | src/capture/capture_midi.cpp:74-107 | an independent parser reads the events of a track back in order; the deltas are exact iff all are below 2^28 |
| MidiCaptures.LengthRoundTrip | src/capture/capture_midi.cpp:122-129 | the four length bytes are big-endian |
| MidiCaptures.MidiCapture.Add | src/capture/capture_midi.cpp:39-48 | a byte is appended, whether or not the 4 KB buffer is flushed, and the bytes written are counted |
| MidiCaptures.MidiCapture.AddNumber | src/capture/capture_midi.cpp:50-62 | the quantity is appended |
| MidiCaptures.MidiCapture.AddData | src/capture/capture_midi.cpp:74-95 | an event with the ticks since the previous one is appended; nothing happens if no file can be created |
| MidiCaptures.MidiCapture.Finalise | src/capture/capture_midi.cpp:97-134 | the closed file holds all events and the end of track, and its length field is the number of bytes after the header modulo 2^32 |
| MidiCaptures.Session | src/capture/capture_midi.cpp:39-134 | a whole capture gives one file from which all messages come back in order, with their ticks modulo 2^28; exactly iff no two follow each other by 2^28 ms or more; its length is stored |
| Prefetch.PrefetchQueue.Advance | src/cpu/core_prefetch.cpp:117-121 | the overlapping shift and the refill keep the byte of each address that stays in the queue, and load the others from memory |
| Prefetch.PrefetchQueue.Fetchb | src/cpu/core_prefetch.cpp:113-136 | on a hit the byte that the queue holds for the address, however old, otherwise the one in memory; it is the one in memory unless the queue held it when it was written; which bytes the queue holds next |
| Prefetch.PrefetchQueue.Fetchw | src/cpu/core_prefetch.cpp:138-163 | the same for two bytes, little-endian |
| Prefetch.PrefetchQueue.Fetchd | src/cpu/core_prefetch.cpp:165-193 | the same for four bytes |
| Prefetch.PrefetchQueue.Store | src/cpu/core_prefetch.cpp:108-193 | a write makes the queue stale at its own address at most, and not at all outside the window |
| Prefetch.Session | src/cpu/core_prefetch.cpp:108-193 | in every run of fetches, writes and jumps that takes no byte from behind the queue, also around the end of the address space, the steps alone tell each fetched value: the little-endian bytes that memory held when the queue loaded them, or holds now on a miss; this is memory at that moment, unless one of its bytes was written while the queue held it |
| Prefetch.HeldSince | src/cpu/core_prefetch.cpp:108-193 | each byte that the queue holds is the one memory held after as many steps as had been made when it was loaded |
| Prefetch.FetchesOldByte | src/cpu/core_prefetch.cpp:113-136 | a byte written right behind the one fetched last is not seen: the old one is fetched |
| Prefetch.FlushHelps | src/cpu/core_prefetch.cpp:108-193 | after a jump that drops the queue, no write before it can make a fetch stale |
| Prefetch.HitsLieInQueue | src/cpu/core_prefetch.cpp:138-150 | a hit of Fetchw or Fetchd lies within the queue, whatever it holds, iff the fetch ends below 2^32 |
| Prefetch.Shifted | src/cpu/core_prefetch.cpp:117-121 | moving the window keeps what it holds for the addresses that stay, and loads the others |

## Left out

- CodeCaches.CodeCache.Translate: needs room in the counters of the bytes it translates, and that a block's two halves lie in different pages, since the cache does not stay valid without, as stated by `Fetch` and `CountStays`.
- CodeCaches.CodeCache.Translate: creates a block in one step; a page fault or an eviction in the middle of a translation is not modelled, and which operands are masked is arbitrary instead of following the invalidation counters.
- CacheRuns.Session: a run is not followed beyond a full counter, E_Exit, a fatal write or the new link of a dropped block.
- CodeCaches.CodeCache.ClearRelease: without its effect on the TLB and without the list of used pages and its limit.
- PagingUnit.Paging.InitPage: without resuming after a nested fault, where the source goes on with the entries it read before; a fault is an outcome.
- PagingUnit.Paging.GuestStore: memory is a table of dwords; narrower and unaligned stores are left out.
- PagingUnit.Paging.Access: whether a physical page can be read and written directly does not change during a run, although handlers for code pages come and go.
- PagingRuns.Session: accesses between a store to an entry of a present page and the next flush are not described; the processor asks programs to flush there.
- Programs.Execute: without double shifts and memory operands.
- FlagMachine.Cpu.SHL: counts are 1..31 as the callers mask them; memory operands are left out.
- FlagMachine.FillAgrees: double shifts only as a recorded state; their results are not modelled.
- Tasks.TaskMachine.SwitchTask: calls and returns only; JMP leaves the callers busy and breaks the chain. 286 TSSs give up in the source; a null selector in a task gate is not modelled.
- TaskNesting.CallTask: TSSs do not overlap, tasks do not write to them or to the descriptors, and none of them runs in virtual 8086 mode; selectors a task loads are loadable with its own LDT. All TSSs are reached by the same mapping on both sides of the change of CR3.
- TaskRuns.Iret: a return within the task, which pops EIP, CS and the flags, is not carried out.
- TaskRuns.Interlude: a task does not change NT or VM by itself; one that clears NT returns within the task instead.
- RealMode.Serve: 16-bit frames.
- OplCaptures.OplCapture.DoWrite: file creation is an input; the register cache is an argument.
- MidiCaptures.MidiCapture.AddData: whole messages of the statuses that the MIDI parser passes on; file failures other than creation and rewinding are left out.
- Prefetch.PrefetchQueue.Fetchw: needs that a hit lies in the queue, since otherwise the source reads outside it; this is so below 2^32 and for every miss.
- Prefetch.PrefetchQueue.Fetchd: needs the same.
- Decoder and code generators: a generated block is a length in bytes and the guest bytes it came from.
- Host memory protection, instruction-cache flushing and alignment of the code buffer: foreign calls; the arena is offsets.
- Segment bases, the stack mask and `code.big` after a switch: derived from descriptors.
- `InitPageForced`: used for the emulator's own accesses; it ignores privileges.
- Protected-mode privilege checks of IRET, RET and CALL: their effect depends on the build.
- FPU, MMX, mixer, video, WAV capture, configuration and shell: floating point, foreign libraries or easy members.
