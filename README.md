# ARMv7 translation tables, page slab, protection domain, pager and VFS directory

This project models, in Dafny, the core of Genode's base-hw kernel memory
management and one VFS building block:

- **Translation tables** (`base-hw/src/core/tlb/arm.h`, `arm_v7.h`). These are
  the ARMv7 short-descriptor tables. The first level has 4096 descriptors, each
  covering 1 MiB; a descriptor is a fault, a section or a link to a
  second-level table. A second-level table has 256 small-page descriptors of
  4 KiB each. Descriptor encoders are bit-vector functions
  (`descriptors.dfy`). The second-level table is a class over an `array<bv32>`
  (`page_table.dfy`). The first-level table is a class over an array of
  descriptors plus the second-level tables it links (`section_table.dfy`).
  Both are proved against value-level specifications (`tables.dfy`), whose
  properties are lemmas (`table_lemmas.dfy`).
- **Aligned_slab** (`base-hw/src/core/include/slab_align.h`). This is the
  allocator that hands out the 1 KiB second-level tables. It is a class whose
  block list and free counter `alloc` and `free` update in place
  (`aligned_slab.dfy`). It is proved against functions on the block list
  (`slab.dfy`) and lemmas about them (`slab_lemmas.dfy`).
- **Platform_pd** (`base-hw/src/core/include/platform_pd.h`). A protection
  domain with its table and page slab (`platform_pd.dfy`). Its invariant
  `Consistent` ties the two together: every linked second-level table is a
  slab in use. `domain_memory.dfy` holds the cross-object lemmas.
- **rm_session_support.cc**: `Rm_client::unmap`,
  `Pager_activation_base::apply_mapping` and the pager's fault loop
  (`pager.dfy`). `ApplyMapping` really allocates from the domain's slab, and
  `Unmap` really frees the tables `remove_region` released. Both keep
  `Consistent`.
- **Dir_file_system** (`os/include/vfs/dir_file_system.h`). A directory that
  forwards operations to its child file systems (`vfs.dfy`). Children are
  values whose operations are function fields.

The two memory views of core are one abstract `AddressMap`:

- `phys` plays `phys_addr` and `virt` plays `virt_addr`.
- Both are taken after the "hack for core" fallback (a null answer means the
  address itself). Core is therefore covered by the identity map.
- `Translates` requires `virt(phys(a)) == a` below 4 GiB, and that `phys`
  keeps 1 KiB alignment.

Behaviour to note, as the code has it:

- `apply_mapping` returns -1 on `Out_of_memory` and does not retry with more
  memory (base-hw/src/core/rm_session_support.cc:87-90).
- `Double_insertion` is caught neither in `apply_mapping` nor in the pager
  loop (base-hw/src/core/rm_session_support.cc:84-90 and 133-137). It
  escapes (`ApplyResult.DoubleInsertionEscapes`, `Outcome.Escaped`).
- `unmap` destroys every emptied second-level table inside `remove_region`
  (base-hw/src/core/tlb/arm.h:613-616), before the processor broadcast
  (base-hw/src/core/rm_session_support.cc:58-63).
- Inserting a small page under a section descriptor is `assert(false)`
  (base-hw/src/core/tlb/arm.h:565-568), not an error result. The model makes
  it a precondition (`InsertAllowed`).
- The size must be 4 KiB or 1 MiB: the first level asserts `size_log2 <= 20`
  (base-hw/src/core/tlb/arm.h:537) and the second `size_log2 == 12`
  (base-hw/src/core/tlb/arm.h:250).

## Model

| member | source | states |
|---|---|---|
| ArmDescriptors.AccessPermissionBits | base-hw/src/core/tlb/arm.h:45-61 | Only the XN and AP bits are set. XN is !executable. AP is 0b001, 0b011, 0b101 or 0b010, chosen by writeable and privileged. |
| ArmDescriptors.MemoryRegionAttr | base-hw/src/core/tlb/arm_v7.h:86-96 | Only TEX, C and B are set: TEX=2 for device memory; otherwise TEX=5,B=1 if cacheable, else TEX=6,C=1. |
| ArmDescriptors.LeafInvalidate | base-hw/src/core/tlb/arm.h:124-139 | The result is a FAULT small-page descriptor and differs from the input only in bits 1..0. |
| ArmDescriptors.SmallPageCreate | base-hw/src/core/tlb/arm.h:167-177 | The result is a SMALL_PAGE descriptor. Its bits 31..12 are those of pa, S is 1 and nG is !global. XN, AP, TEX, C and B are those of the two attribute functions. |
| ArmDescriptors.RootInvalidate | base-hw/src/core/tlb/arm.h:359-377 | The result is a FAULT first-level descriptor and differs from the input only in bits 1..0. |
| ArmDescriptors.PageTableDescriptorCreate | base-hw/src/core/tlb/arm.h:396-402 | The result is a PAGE_TABLE descriptor in domain 0. Its base is pt masked to bits 31..10, which is pt itself when pt is 1 KiB aligned. Bits 2..4 and 9 are clear. |
| ArmDescriptors.SectionCreate | base-hw/src/core/tlb/arm.h:426-437 | The result is a SECTION descriptor in domain 0. Its bits 31..20 are those of pa, S is 1 and nG is !global. Its permission and attribute fields come from the flags. Bits 0, 9 and 19 are clear. |
| ArmDescriptors.SectionIsNotLink | base-hw/src/core/tlb/arm.h:346-354 | A link descriptor never equals a section descriptor. So a small-page insert under a link never clashes with a section. |
| PageTables.EmptyLeaf | base-hw/src/core/tlb/arm.h:210-217 | A new second-level table has 256 descriptors, none of them valid. |
| PageTables.IndexByVo | base-hw/src/core/tlb/arm.h:198-203 | The index exists iff vo <= max_virt_offset(). It is the 4 KiB page holding vo. |
| PageTables.LeafInsert | base-hw/src/core/tlb/arm.h:243-258 | On Double_insertion (None), the slot holds a valid, different descriptor. On success, only that slot changes, to Small_page::create(flags, pa). |
| PageTables.LeafInsertIdempotent | base-hw/src/core/tlb/arm.h:252-257 | Repeating a successful insert of the same translation succeeds and changes nothing. |
| PageTables.LeafRemove | base-hw/src/core/tlb/arm.h:266-285 | Every page intersecting [lo, hi) becomes invalid. Every other descriptor, and every already invalid one, stays as it was. |
| PageTables.PageTable.constructor | base-hw/src/core/tlb/arm.h:210-217 | Allocates a fresh array holding the empty table. |
| PageTables.PageTable.InsertTranslation | base-hw/src/core/tlb/arm.h:243-258 | The array becomes LeafInsert's table on success, and is unchanged on Double_insertion. |
| PageTables.PageTable.RemoveRegion | base-hw/src/core/tlb/arm.h:266-285 | The loop leaves the array equal to LeafRemove of the old contents. |
| PageTables.PageTable.Empty | base-hw/src/core/tlb/arm.h:290-295 | The result is true iff no descriptor is valid. |
| RootTables.Visible | base-hw/src/core/tlb/arm.h:601-616 | Leaves linked from the root keep their contents. Unlinked leaves read as empty. |
| RootTables.EmptyTables | base-hw/src/core/tlb/arm.h:475-482 | An empty first-level table is well formed, translates no address and owns no second-level table. |
| RootTables.RootInsert | base-hw/src/core/tlb/arm.h:524-581 | A failed insert (Out_of_memory or Double_insertion) leaves the tables unchanged. The result keeps the table shape. |
| RootTables.RootRemove | base-hw/src/core/tlb/arm.h:589-628 | The loop's result over every visited descriptor keeps the table shape. |
| TableLemmas.SplitAddress | base-hw/src/core/tlb/arm.h:458-463 | A 32-bit address splits into a section index below 4096 and a page index below 256, recombining to its 4 KiB page. |
| TableLemmas.InsertLookup | base-hw/src/core/tlb/arm.h:540-580 | After a successful insert, every address the translation covers maps to the new descriptor. Every other address translates as before. A failed insert changes no translation. |
| TableLemmas.InsertConflict | base-hw/src/core/tlb/arm.h:252-254 | Double_insertion happens iff a valid, different descriptor is already there. This holds for a page slot or a section slot, both directions. |
| TableLemmas.InsertOutOfMemory | base-hw/src/core/tlb/arm.h:544-546 | Out_of_memory happens iff a new second-level table is needed and the slab gave none. |
| TableLemmas.InsertArena | base-hw/src/core/tlb/arm.h:548-552 | After an insert, a second-level table is owned iff it was owned before, or it is the fresh slab slot the insert linked. |
| TableLemmas.InsertKeepsLinks | base-hw/src/core/tlb/arm.h:556-563 | An insert never unlinks a second-level table. |
| TableLemmas.InsertIdempotent | base-hw/src/core/tlb/arm.h:572-579 | Repeating a successful insert succeeds, asks for no new table, and changes nothing. |
| TableLemmas.InsertWellFormed | base-hw/src/core/tlb/arm.h:524-581 | Insert keeps the ownership invariant: no table is linked twice, and every linked table is non-empty. |
| TableLemmas.HitArithmetic | base-hw/src/core/tlb/arm.h:595-611 | A descriptor is visited iff its section meets [vo, ve). The part handed to its second-level table touches exactly the pages that meet the region. |
| TableLemmas.RemoveLookup | base-hw/src/core/tlb/arm.h:589-628 | After remove_region, a page meeting the region is unmapped, and so is a whole section meeting it. Every other address translates as before. |
| TableLemmas.RemoveWellFormed | base-hw/src/core/tlb/arm.h:613-616 | remove_region keeps the ownership invariant. |
| TableLemmas.ReleasedPrefix | base-hw/src/core/tlb/arm.h:613-616 | Among the first n descriptors, the tables destroyed are exactly those emptied and unlinked by the pass. Each is destroyed once. |
| TableLemmas.RemoveReleases | base-hw/src/core/tlb/arm.h:589-628 | A table is destroyed iff it was linked before and is no longer linked after. None is destroyed twice. |
| TableLemmas.ReclaimedUnlinked | base-hw/src/core/tlb/arm.h:613-616 | A table destroyed by the pass is linked nowhere afterwards. |
| TableLemmas.KeptLinked | base-hw/src/core/tlb/arm.h:601-617 | A linked table the pass does not empty stays linked. |
| TableLemmas.VisibleLookup | base-hw/src/core/tlb/arm.h:601-616 | Unreachable second-level contents never affect a translation. |
| TableLemmas.VisibleWellFormed | base-hw/src/core/tlb/arm.h:601-616 | The hardware view of well-formed tables is well formed. |
| TableLemmas.ReleasedNone | base-hw/src/core/tlb/arm.h:595 | No table is destroyed before the first visited descriptor. |
| TableLemmas.ReleasedRest | base-hw/src/core/tlb/arm.h:595 | No table is destroyed past the end of the region. |
| RootWalk.Step32 | base-hw/src/core/tlb/arm.h:596-597 | The 32-bit loop step yields an address below 4 GiB on a 1 MiB boundary. |
| RootWalk.StepInside | base-hw/src/core/tlb/arm.h:596-597 | Below the last MiB, the step moves to the start of the next section. |
| RootWalk.StepWraps | base-hw/src/core/tlb/arm.h:596-597 | Within the last MiB, the step wraps to 0. |
| RootWalk.RemoveRegionNeverStops | base-hw/src/core/tlb/arm.h:592-597 | When the region ends in the last MiB, the 32-bit cursor stays below ve forever, so the loop as written never ends. |
| RootWalk.LastPageRevisitsZero | base-hw/src/core/tlb/arm.h:592-597 | Removing the first 4 KiB of the last MiB, [0xFFF00000, 0xFFF01000), sends the cursor to section 0, which lies outside the region, and the cursor never reaches the region's end. The lemma states the cursor only. On that revisit the source removes [0, ve - vo) from section 0's table (arm.h:609-611), which spans the whole table and wipes section 0's mappings. |
| SectionTables.SectionTable.constructor | base-hw/src/core/tlb/arm.h:475-482 | A new table is valid and holds EmptyTables. |
| SectionTables.SectionTable.InsertTranslation | base-hw/src/core/tlb/arm.h:524-581 | The result and new state are RootInsert's, and the ownership invariant is kept. |
| SectionTables.SectionTable.LinkNewTable | base-hw/src/core/tlb/arm.h:544-553 | Creates the second-level table in the slab slot, inserts the page and links the table, giving RootInsert's state. |
| SectionTables.SectionTable.InsertIntoLinked | base-hw/src/core/tlb/arm.h:556-573 | Inserting into an already linked table gives RootInsert's result and state. |
| SectionTables.SectionTable.WriteSection | base-hw/src/core/tlb/arm.h:575-579 | Writing a section descriptor gives RootInsert's state. |
| SectionTables.SectionTable.RemoveRegion | base-hw/src/core/tlb/arm.h:589-628 | The new state is RootRemove's as the hardware sees it, and the invariant is kept. The tables handed back are exactly Released, in order. |
| SectionTables.SectionTable.RemoveAt | base-hw/src/core/tlb/arm.h:599-626 | One pass over descriptor i. It reports a destroyed table exactly when ReclaimedAt holds. |
| SectionTables.SectionTable.ShrinkLinked | base-hw/src/core/tlb/arm.h:606-613 | Removing the part from a linked table reports empty exactly when the pass reclaims it. |
| SectionTables.SectionTable.RemoveStep | base-hw/src/core/tlb/arm.h:595-597 | One loop step moves the cursor strictly forward and extends Released by the descriptor just visited. |
| SectionTables.SectionTable.LoopExit | base-hw/src/core/tlb/arm.h:595 | When the loop stops, the region lies below the visited descriptors. |
| Slab.Slots | base-hw/src/core/include/slab_align.h:55 | The slot indices of a block are exactly 0..n-1, n of them. |
| Slab.RefBound | base-hw/src/core/include/slab_align.h:57 | A block's reference count never exceeds SLABS_PER_BLOCK. |
| Slab.FirstFree | base-hw/src/core/include/slab_align.h:64 | The bit allocator's slot is the lowest free index. All indices before it are in use. |
| Slab.FirstNonFull | base-hw/src/core/include/slab_align.h:132-136 | alloc's list walk stops at the first block not full. Every block before it is full. |
| Slab.NonFullExists | base-hw/src/core/include/slab_align.h:130-141 | With a free slab somewhere, the walk finds a block, so the final `return 0` is unreachable. |
| Slab.GrowOk | base-hw/src/core/include/slab_align.h:86-95 | A new block at the head adds SLABS_PER_BLOCK free slabs. |
| Slab.FirstHolding | base-hw/src/core/include/slab_align.h:146-148 | free's walk reaches the first block whose data holds addr. No earlier block holds it. |
| SlabLemmas.FreeCountAppend | base-hw/src/core/include/slab_align.h:84 | The free count of two lists together is the sum of their counts. |
| SlabLemmas.SlotAddrInjective | base-hw/src/core/include/slab_align.h:61-66 | Different slots of non-overlapping blocks have different addresses. |
| SlabLemmas.HeldByOne | base-hw/src/core/include/slab_align.h:68-70 | Even with the inclusive test, no address lies in two blocks of a sound layout. |
| SlabLemmas.InitialIsLast | base-hw/src/core/include/slab_align.h:118-120 | The initial block is always last in the list. |
| SlabLemmas.BlockAllocOk | base-hw/src/core/include/slab_align.h:61-66 | Slab_block::alloc takes a free slot, adds one reference and returns an aligned slot address. |
| SlabLemmas.BlockFreeOk | base-hw/src/core/include/slab_align.h:68-75 | Slab_block::free of a used slot drops one reference and frees exactly that slot. |
| SlabLemmas.TakeSlot | base-hw/src/core/include/slab_align.h:132-139 | Taking a slab gives a new, aligned address. The live allocations gain exactly it, and the free count drops by one. |
| SlabLemmas.GrowLayout | base-hw/src/core/include/slab_align.h:86-95 | A block from the backing store keeps the layout and adds SLABS_PER_BLOCK free slabs, with no allocation. |
| SlabLemmas.GrowThenTake | base-hw/src/core/include/slab_align.h:128-139 | With no free slab, alloc links a new block at the head and takes its first slab. The old list is unchanged behind it. |
| SlabLemmas.AllocSpec | base-hw/src/core/include/slab_align.h:128-142 | Out_of_memory happens iff no slab is free and the store refuses, and then nothing changes. Otherwise: a fresh aligned slot, exactly one more live allocation, the invariant kept, and the list and count change as stated. |
| SlabLemmas.AllocIgnoresStore | base-hw/src/core/include/slab_align.h:130 | With a free slab, the backing store is not consulted. |
| SlabLemmas.AllocGrowsByOne | base-hw/src/core/include/slab_align.h:130 | When the store grants a block, alloc puts exactly one new block at the head. |
| SlabLemmas.FreeStep | base-hw/src/core/include/slab_align.h:144-153 | For the holding block, free unlinks the emptied non-initial block (count +1-SLABS_PER_BLOCK) or updates it in place (count +1). Either way the invariant is kept. |
| SlabLemmas.FreeSpec | base-hw/src/core/include/slab_align.h:97-104 | free keeps the invariant. An address in no block changes nothing. The free count follows whether the block was unlinked. |
| SlabLemmas.FreeAllocated | base-hw/src/core/include/slab_align.h:144-153 | Freeing a live allocation removes exactly it from the live set (alloc's inverse). |
| SlabLemmas.ContainmentAsWrittenTooWide | base-hw/src/core/include/slab_align.h:70 | The test as written accepts `&indices`, one past the data, whose slot index is SLABS_PER_BLOCK. |
| SlabLemmas.ContainmentCorrected | base-hw/src/core/include/slab_align.h:70 | The corrected test holds iff the slot index is in range. It differs from the written one only at `&indices`. |
| AlignedSlabs.AlignedSlab.constructor | base-hw/src/core/include/slab_align.h:118-120 | The list starts with the initial block alone, and SLABS_PER_BLOCK slabs are free. |
| AlignedSlabs.AlignedSlab.AllocSlabBlock | base-hw/src/core/include/slab_align.h:86-95 | When the store grants a block, it goes to the head and SLABS_PER_BLOCK slabs are added. When the store refuses, nothing changes (Out_of_memory). |
| AlignedSlabs.AlignedSlab.Alloc | base-hw/src/core/include/slab_align.h:128-142 | The store is asked iff no slab is free. The result and new list are SlabAlloc's, and the invariant is kept. |
| AlignedSlabs.AlignedSlab.Free | base-hw/src/core/include/slab_align.h:144-153 | The new list is SlabFree's. A block is returned iff the list shrank: the emptied holding block, never the initial one. |
| AlignedSlabs.AlignedSlab.BlocksInUse | base-hw/src/core/include/slab_align.h:106-112 | The walk counts the blocks in the list. |
| AlignedSlabs.AlignedSlab.Consumed | base-hw/src/core/include/slab_align.h:166 | Block size times the number of blocks. |
| AlignedSlabs.AlignedSlab.Overhead | base-hw/src/core/include/slab_align.h:167 | A block's size over SLABS_PER_BLOCK, rounded down. |
| DomainMemory.Answer | base-hw/src/core/tlb/arm.h:546-551 | No slot means Out_of_memory. A slot is linked at its phys_addr. |
| DomainMemory.AllocatedWithin | base-hw/src/core/include/slab_align.h:61-66 | Every live slab lies below 4 GiB. |
| DomainMemory.AllocWithin | base-hw/src/core/include/slab_align.h:86-95 | Growing from a store that gives memory below 4 GiB keeps every block below 4 GiB. |
| DomainMemory.FreeWithin | base-hw/src/core/include/slab_align.h:97-104 | free keeps every block below 4 GiB. |
| DomainMemory.OwnedAllocated | base-hw/src/core/tlb/arm.h:606-608 | A linked table's virt_addr is a live slab, and phys_addr of it gives back the link base. |
| DomainMemory.SlotIsFresh | base-hw/src/core/tlb/arm.h:549-552 | A slot the slab has not handed out is 1 KiB aligned at its phys_addr, and no descriptor links it yet. |
| DomainMemory.InsertKeepsAllocated | base-hw/src/core/tlb/arm.h:556-580 | An insert that needs no new table keeps every linked table a live slab. |
| DomainMemory.InsertLinksAllocated | base-hw/src/core/tlb/arm.h:544-553 | The slab's answer is a fresh slot. After linking it, every linked table is a live slab. |
| DomainMemory.LinkBaseOfCreate | base-hw/src/core/tlb/arm.h:396-402 | The link to an aligned table names exactly that table. |
| DomainMemory.NextReleasable | base-hw/src/core/tlb/arm.h:613-616 | Each table destroyed in turn is still a live slab when it is freed. Freeing it removes it from the live set. |
| DomainMemory.RemoveKeepsAllocated | base-hw/src/core/tlb/arm.h:589-628 | After freeing all released tables, every table still linked is a live slab. |
| ProtectionDomains.PlatformPd.Core | base-hw/src/core/include/platform_pd.h:53-54 | Core's domain gets the given table and slab, label "core" and no main thread. |
| ProtectionDomains.PlatformPd.Init | base-hw/src/core/include/platform_pd.h:59-82 | A new domain's fields as set by its constructor. |
| ProtectionDomains.PlatformPd.Create | base-hw/src/core/include/platform_pd.h:59-82 | Quota_exceeded iff the table memory is refused. Out_of_memory iff the table memory was granted but the slab's was not (the allocation at line 73). Unavailable iff both were granted and the kernel returns id 0. Otherwise: fresh objects, an empty table, a slab with only its initial block, and Consistent. |
| ProtectionDomains.PlatformPd.BindThread | base-hw/src/core/include/platform_pd.h:95-105 | The thread joins as main iff none has bound yet, and then becomes the main thread. The result is join_pd's. |
| ProtectionDomains.PlatformPd.AssignParent | base-hw/src/core/include/platform_pd.h:110-118 | An invalid capability gives -1 and no change. A valid one is stored and gives 0. |
| ProtectionDomains.PlatformPd.SetPageSlab | base-hw/src/core/include/platform_pd.h:129 | Sets the page slab. |
| ProtectionDomains.NoLinks | base-hw/src/core/include/platform_pd.h:72-74 | A new table links nothing, so it is consistent with any slab. |
| RegionManager.ApplyMapping | base-hw/src/core/rm_session_support.cc:71-92 | The slab is asked only when the insert needs a new table. The result maps RootInsert's (0, -1 on Out_of_memory, Double_insertion escapes). The table and slab are the new state, and Consistent is kept. |
| RegionManager.AskSlab | base-hw/src/core/tlb/arm.h:544-552 | The slab's answer is a fresh slot, and the table's future links are all live slabs. |
| RegionManager.Unmap | base-hw/src/core/rm_session_support.cc:45-64 | Without a thread or table: no change and no broadcast. Otherwise: remove_region's state, the released tables freed at their virt_addr in order, the live set reduced by exactly them, Consistent kept, and a broadcast for the domain's id. |
| RegionManager.SlabAddresses | base-hw/src/core/tlb/arm.h:606-608 | Each released physical base is mapped through virt_addr, position by position. |
| RegionManager.FreeTables | base-hw/src/core/tlb/arm.h:613-616 | Frees every released table in turn. The live set loses exactly their virt_addrs. |
| RegionManager.FreeSlab | base-hw/src/core/include/slab_align.h:144-153 | Freeing one live slab removes exactly it from the live set. |
| RegionManager.AwaitFault | base-hw/src/core/rm_session_support.cc:104-112 | Waits for the first signal whose context is a pager object, warning once per other signal. |
| RegionManager.FaultOf | base-hw/src/core/rm_session_support.cc:121-127 | The five register values fill the fault record in order: table, ip, address, write flag, signal. |
| RegionManager.HandleFault | base-hw/src/core/rm_session_support.cc:114-138 | No thread gives NoFaulter. Unreadable registers give RegistersUnreadable. PagerDeclined iff the registers were read and the pager answered a non-zero status. MappingFailed (apply_mapping's -1) iff the pager succeeded and the insert ran out of memory. Escaped iff the pager succeeded and the insert raised Double_insertion, which nothing catches. The fault is resolved iff the pager succeeded and the insert succeeded. In every outcome but Resolved the tables and the slab are unchanged. When resolved, the tables are those the insert produced and the slab is as the placement left it. Consistent is kept. |
| RegionManager.PlacementOnFailure | base-hw/src/core/tlb/arm.h:544-553 | An insert that does not succeed takes nothing from the slab. |
| Vfs.SkipSlash | os/include/vfs/dir_file_system.h:102-104 | Drops at most one leading slash. |
| Vfs.SubPath | os/include/vfs/dir_file_system.h:96-120 | The root directory passes the path through. Otherwise the remainder is empty or starts with '/', and it is a suffix of the path. |
| Vfs.SubPathMatches | os/include/vfs/dir_file_system.h:96-120 | _sub_path gives r iff the path is name+r or /name+r, and r is empty or starts with '/'. |
| Vfs.SubPathOfJoin | os/include/vfs/dir_file_system.h:96-120 | The sub-path of /name+r is r (round trip). |
| Vfs.SubPathShape | os/include/vfs/dir_file_system.h:96-120 | A matched path is the name, optionally with a leading slash, followed by the remainder. |
| Vfs.FirstOther | os/include/vfs/dir_file_system.h:400-417 | Finds the first child answer that is not NO_ENTRY. All before it are NO_ENTRY. |
| Vfs.DecideSpec | os/include/vfs/dir_file_system.h:400-420 | The directory answers NO_ENTRY iff every child did. Otherwise it gives one child's answer, and every earlier child answered NO_ENTRY. |
| Vfs.Asked | os/include/vfs/dir_file_system.h:400-417 | The children asked stop right after the first answer other than NO_ENTRY. |
| Vfs.DirStat | os/include/vfs/dir_file_system.h:169-175 | The directory's own stat: size 0, mode directory+0755, uid and gid 0, inode and device kept. |
| Vfs.StatFromSpec | os/include/vfs/dir_file_system.h:181-193 | stat gives STAT_ERR_NO_ENTRY iff every child answered so, each on the record the children before it left. Otherwise the answer and record are those of the first child to answer otherwise, asked with the record the children before it left. |
| Vfs.Counts | os/include/vfs/dir_file_system.h:267-274 | Each child's entry count for the path. |
| Vfs.SumAppend | os/include/vfs/dir_file_system.h:269-273 | The running sum over one more child adds its count. |
| Vfs.DirentPastEnd | os/include/vfs/dir_file_system.h:221-226 | An index past all children's entries reads as the end of the directory. |
| Vfs.DirentPicks | os/include/vfs/dir_file_system.h:201-219 | An index within the entries is answered by the child whose range holds it, with a local index within that child's count and its fileno rebased. |
| Vfs.ThisDirEntry | os/include/vfs/dir_file_system.h:229-239 | Index 0 is the directory itself (fileno 1, type directory). Any other index is the end. |
| Vfs.ListingAgrees | os/include/vfs/dir_file_system.h:241-300 | dirent and num_dirent agree: an index at or past the count reads as the end. One below it is the directory's own entry for "/" of a named directory, and otherwise exactly the answer of the child whose entries cover it, for the path's remainder, asked with the index counted from that child's first entry and numbered on past the entries before it. |
| Vfs.DirFileSystem.constructor | os/include/vfs/dir_file_system.h:59-67 | A directory starts with its name (empty for the root) and no children. |
| Vfs.DirFileSystem.AppendFileSystem | os/include/vfs/dir_file_system.h:36-48 | The new child goes at the end, and the other children stay. |
| Vfs.DirFileSystem.Stat | os/include/vfs/dir_file_system.h:157-194 | The result is StatOf. No child is asked for a foreign path or the directory's own. Otherwise the answer is the chain over the children asked, every one but the last asked answered NO_ENTRY, and fewer than all are asked only when the last answered otherwise: asking stops at the first answer other than NO_ENTRY. |
| Vfs.StatFromAppend | os/include/vfs/dir_file_system.h:181-190 | Asking one more child continues the chain only while every earlier child answered NO_ENTRY, and then that child answers on the record they left. |
| Vfs.DirFileSystem.DirentOfFileSystems | os/include/vfs/dir_file_system.h:199-227 | The loop gives DirentFrom: the child whose range holds the index, or the end. |
| Vfs.DirFileSystem.DirentOfThisDirNode | os/include/vfs/dir_file_system.h:229-239 | Index 0 is the directory entry. Any other index is the end. |
| Vfs.DirFileSystem.Dirent | os/include/vfs/dir_file_system.h:241-261 | The root lists its children. "/" of a named directory lists itself. A foreign path is DIRENT_ERR_INVALID_PATH. |
| Vfs.DirFileSystem.SumDirents | os/include/vfs/dir_file_system.h:267-274 | The loop sums the children's counts. |
| Vfs.DirFileSystem.NumDirent | os/include/vfs/dir_file_system.h:276-300 | The count is 1 for "/" of a named directory, 0 for a foreign path, and otherwise the children's sum. |
| Vfs.DirFileSystem.Unlink | os/include/vfs/dir_file_system.h:379-421 | A foreign path gives NO_ENTRY and the directory itself NO_PERM, with no child asked. Otherwise the first answer other than NO_ENTRY, with asking stopped there. |
| Vfs.DirFileSystem.Rename | os/include/vfs/dir_file_system.h:448-485 | A foreign source gives NO_ENTRY. The directory itself gives NO_PERM. A foreign target gives CROSS_FS. Otherwise the first answer other than NO_ENTRY. |
| Vfs.DirFileSystem.Symlink | os/include/vfs/dir_file_system.h:487-516 | A foreign target gives NO_ENTRY and the directory itself EXISTS. Otherwise the first answer other than NO_ENTRY. |
| Vfs.DirFileSystem.Mkdir | os/include/vfs/dir_file_system.h:518-547 | A foreign path gives NO_ENTRY and the directory itself EXISTS. Otherwise the first answer other than NO_ENTRY. |
| Vfs.DirFileSystem.Write | os/include/vfs/dir_file_system.h:570-573 | Writing a directory is WRITE_ERR_INVALID. Nothing is written; the source leaves the out-count untouched, and the model reports 0. |
| Vfs.DirFileSystem.Read | os/include/vfs/dir_file_system.h:575-578 | Reading a directory is READ_ERR_INVALID. Nothing is read; the source leaves the out-count untouched, and the model reports no data. |
| Vfs.DirFileSystem.Ftruncate | os/include/vfs/dir_file_system.h:580-583 | Truncating a directory is FTRUNCATE_ERR_NO_PERM. |

## Left out

- I/O and the kernel:
  - `PERR`/`PWRN` output is reduced to counts (`AwaitFault.warnings`) or outcome values.
  - `Kernel::new_pd`, `Kernel::access_thread_regs`, `Kernel::mtc()->map`, `Kernel::update_pd` and the processor broadcast are parameters or outcome values.
  - `Signal_receiver::wait_for_signal` is a sequence of signal contexts.
- `Page_flags::apply_mapping` is left out; `kernel/kernel.h` and `tlb/page_flags.h` are not part of this model. `Mapping` carries the flags already.
- `Platform_pd::tlb_phys_addr` is left out; it is a pure call into the core memory allocator.
- The `Platform_pd` destructor is left out; it is declared but its body is not part of this model.
- `Pager_object::fault_occured`, `fault_resolved` and the pager's reply are outcome values, not modelled state.
- Memory is not modelled by byte: `memcpy` of the register list, placement `new`, `memset` of table payloads (tables start empty), and `destroy` (a freed slot is simply no longer live).
- `phys_addr`/`virt_addr` of `Core_mem_allocator` are one abstract `AddressMap` assumed to be inverse below 4 GiB (`Translates`). The null-answer "hack for core" fallback is folded into the map.
- `Aligned_slab` models `Bit_allocator` as lowest-free-index. The list's `next` links are a sequence, head first.
- `RegionManager.ApplyMapping`, `RegionManager.Unmap` and `RegionManager.HandleFault`: they require a non-null page slab (through `Consistent`). In the source a null slab is handled only when a new second-level table is needed: `insert_translation` throws `Out_of_memory` (base-hw/src/core/tlb/arm.h:545-546) and `apply_mapping` returns -1. Following an existing link dereferences the null slab (arm.h:560 and 607). Section inserts, and removals over sections only, never touch the slab. The model does not cover a domain without a slab.
- `SectionTables.SectionTable.RemoveRegion`: it requires `0 < size` and `vo + size < 2^32`, which is what the source's `assert(vo < vo + size)` demands in 32 bits. It walks with a cursor that cannot wrap, so it also ends for regions in the last MiB, where the source loops (see Findings). The 32-bit cursor is modelled in `RootWalk`.
- The `Aligned_slab` destructor is left out. Its loop cannot end: `_free_slab_block` never unlinks the initial block, and the initial block is always last (`SlabLemmas.InitialIsLast`), so once it is the only block it stays first forever.
- `Core_mem_allocator::free` is a no-op, so a block "given back" by the slab (`AlignedSlab.Free`'s `returned`) does not make the backing store's memory reusable; the store's answers are parameters.
- `Vfs.DirFileSystem` children are values whose operations are function fields. What a child's operation does to its own state is not modelled.
- Path strings are `seq<char>`. The walk of `_sub_path` over C strings is modelled by its result.
- `Vfs`: the XML constructor, `readlink`, `open`, `is_directory`, `leaf_path`, `dataspace`, `release` and `sync` are left out. They pass through to children or parse configuration. The result enums get a catch-all constructor because `directory_service.h` (their full list) is not part of this model.
- `size_t`/`off_t` width is not modelled: counts are `nat`, and the dirent index is `int`.
- `ProtectionDomains.PlatformPd.Core`: core's `_id` is left uninitialised by the source. The model sets it to 0.
- `AlignedSlabs.AlignedSlab.Free`: it requires `Releasable(blocks, addr)`, that an address in a block names a slot in use. `Slab_block::free` does not check this (base-hw/src/core/include/slab_align.h:68-75), so a double free or a free of an unused slot is not modelled. Every caller in the model meets it (`DomainMemory.NextReleasable`). It also uses the corrected containment test (see Findings): a free of `&indices` changes nothing in the model, where the source (slab_align.h:70-73) drops a reference and frees bit index SLABS_PER_BLOCK.
- `RegionManager.HandleFault`: the faulting domain `pd` is a parameter. The source finds the table from the FAULT_TLB register it reads (base-hw/src/core/rm_session_support.cc:121-127). The model does not tie that register value to `pd`.

## Findings

| source | as written | input that shows it | evidently intended | confidence | as-written member | corrected member |
|---|---|---|---|---|---|---|
| base-hw/src/core/tlb/arm.h:595-597 | `vo = (vo + VIRT_SIZE) & VIRT_BASE_MASK` in 32 bits wraps to 0 in the last MiB, and `vo < ve` holds again | `remove_region(0xFFF00000, 0x1000)`: the cursor goes 0xFFF00000, 0, 0x100000, … and never reaches ve | stop after the last descriptor (a cursor that cannot wrap) | not executed | RootWalk.RemoveRegionNeverStops, RootWalk.LastPageRevisitsZero | SectionTables.SectionTable.RemoveRegion |
| base-hw/src/core/include/slab_align.h:70 | `addr > &indices` rejects only addresses past `&indices`, so `addr == &indices` is accepted | `free(&b.data + SLAB_SIZE*SLABS_PER_BLOCK)`: slot index SLABS_PER_BLOCK, outside the bit allocator | `addr >= &indices`, so only the data array is accepted | not executed | SlabLemmas.ContainmentAsWrittenTooWide | SlabLemmas.ContainmentCorrected, Slab.SlabFree, AlignedSlabs.AlignedSlab.Free |
