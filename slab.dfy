/**
 * Genode::Aligned_slab as the protection domains instantiate it: slabs of
 * 1 KiB, 32 slabs to a block, every slab 1 KiB aligned. The allocator keeps
 * a list of blocks, newest first; the block it starts with lives inside the
 * allocator and is never given back. Each block counts its slabs in use and
 * records which slot indices those are; the allocator counts the free slabs
 * of all its blocks.
 */
module Slab {
  /** The template arguments of the instance: Aligned_slab<1 << 10, 32, 10>. */
  const SLAB_SIZE: nat := 0x400
  const SLABS_PER_BLOCK: nat := 32
  /** 1 << ALIGN_LOG2. */
  const ALIGN: nat := 0x400
  /** The size of a block's 'data' array: SLAB_SIZE * SLABS_PER_BLOCK. */
  const DATA_SIZE: nat := 0x8000

  /**
   * One Slab_block: 'data' starts at 'base', the bit allocator 'indices'
   * follows it at base + DATA_SIZE. 'used' holds the slot indices in use.
   */
  datatype Block = Block(base: nat, used: set<nat>, refCounter: nat)

  /** What the backing store answered to alloc_aligned. */
  datatype StoreReply = StoreFailed | StoreGranted(addr: nat)

  datatype AllocResult = OutOfMemory | Slot(addr: nat)

  /** The slot indices 0 .. n - 1. */
  function Slots(n: nat): (s: set<nat>)
    ensures forall i: nat :: i in s <==> i < n
    ensures |s| == n
  {
    if n == 0 then {} else Slots(n - 1) + {n - 1}
  }

  /** The reference counter counts the slots in use; the block is aligned. */
  predicate BlockOk(b: Block) {
    && b.refCounter == |b.used|
    && (forall i | i in b.used :: i < SLABS_PER_BLOCK)
    && b.base % ALIGN == 0
  }

  /** A subset has no more elements than the whole. */
  lemma {:induction false} SubsetCard(a: set<nat>, b: set<nat>)
    requires a <= b
    ensures |a| <= |b|
  {
    if a != {} {
      var x :| x in a;
      SubsetCard(a - {x}, b - {x});
    }
  }

  lemma RefBound(b: Block)
    requires BlockOk(b)
    ensures b.refCounter <= SLABS_PER_BLOCK
  {
    SubsetCard(b.used, Slots(SLABS_PER_BLOCK));
  }

  /** How many slabs block 'b' has left. */
  function Vacant(b: Block): nat {
    if b.refCounter < SLABS_PER_BLOCK then SLABS_PER_BLOCK - b.refCounter else 0
  }

  /** The free slabs of all blocks together. */
  function FreeCount(bs: seq<Block>): nat {
    if bs == [] then 0 else Vacant(bs[0]) + FreeCount(bs[1..])
  }

  /** Two blocks of 'size' bytes at 'a' and 'b' do not overlap. */
  predicate Apart(a: nat, b: nat, size: nat) {
    a + size <= b || b + size <= a
  }

  /**
   * The shape of a block list: every block is sound and aligned, the blocks
   * do not overlap, and the last one is the initial block.
   */
  ghost predicate Layout(bs: seq<Block>, initialBase: nat, blockSize: nat) {
    && blockSize > DATA_SIZE
    && |bs| > 0
    && bs[|bs| - 1].base == initialBase
    && (forall i | 0 <= i < |bs| :: BlockOk(bs[i]))
    && (forall i, j | 0 <= i < j < |bs| :: Apart(bs[i].base, bs[j].base, blockSize))
  }

  /**
   * The allocator's invariant over its block list: the layout above, and
   * every block other than the initial one has a slab in use (an unused one
   * is given back at once).
   */
  ghost predicate SlabOk(bs: seq<Block>, initialBase: nat, blockSize: nat) {
    && Layout(bs, initialBase, blockSize)
    && (forall i | 0 <= i < |bs| - 1 :: bs[i].refCounter > 0)
  }

  /** The address of slot 'k' of block 'b'. */
  function SlotAddr(b: Block, k: nat): nat { b.base + k * SLAB_SIZE }

  /** The addresses of all slabs in use: every live allocation of the allocator. */
  ghost function Allocated(bs: seq<Block>): set<nat> {
    set i, k | 0 <= i < |bs| && k in bs[i].used :: SlotAddr(bs[i], k)
  }

  /** What the backing store promises of a block it hands out. */
  predicate Fits(bs: seq<Block>, p: nat, blockSize: nat) {
    p % ALIGN == 0 && forall i | 0 <= i < |bs| :: Apart(bs[i].base, p, blockSize)
  }

  /*
   * Allocation.
   */

  /**
   * The slot Bit_allocator::alloc hands out, modelled as the lowest free
   * index from 'from' on; SLABS_PER_BLOCK when there is none.
   */
  function FirstFree(used: set<nat>, from: nat): (r: nat)
    requires from <= SLABS_PER_BLOCK
    ensures from <= r <= SLABS_PER_BLOCK
    ensures r < SLABS_PER_BLOCK ==> r !in used
    ensures forall j | from <= j < r :: j in used
    decreases SLABS_PER_BLOCK - from
  {
    if from == SLABS_PER_BLOCK then from
    else if from !in used then from
    else FirstFree(used, from + 1)
  }

  /** A sound block whose counter is below SLABS_PER_BLOCK has a free slot. */
  lemma FreeSlotExists(b: Block)
    requires BlockOk(b) && b.refCounter < SLABS_PER_BLOCK
    ensures FirstFree(b.used, 0) < SLABS_PER_BLOCK
  {
    if FirstFree(b.used, 0) == SLABS_PER_BLOCK {
      SubsetCard(Slots(SLABS_PER_BLOCK), b.used);
    }
  }

  /** Slab_block::alloc: one more reference, the lowest free slot taken. */
  function BlockAlloc(b: Block): Block
    requires BlockOk(b) && b.refCounter < SLABS_PER_BLOCK
  {
    FreeSlotExists(b);
    Block(b.base, b.used + {FirstFree(b.used, 0)}, b.refCounter + 1)
  }

  /** The address Slab_block::alloc returns. */
  function AllocAddr(b: Block): nat
    requires BlockOk(b) && b.refCounter < SLABS_PER_BLOCK
  {
    FreeSlotExists(b);
    b.base + FirstFree(b.used, 0) * SLAB_SIZE
  }

  /** The first block of the list that is not full; |bs| when every block is. */
  function FirstNonFull(bs: seq<Block>): (i: nat)
    ensures i <= |bs|
    ensures i < |bs| ==> bs[i].refCounter != SLABS_PER_BLOCK
    ensures forall j | 0 <= j < i :: bs[j].refCounter == SLABS_PER_BLOCK
  {
    if bs == [] then 0
    else if bs[0].refCounter != SLABS_PER_BLOCK then 0
    else 1 + FirstNonFull(bs[1..])
  }

  /** With a free slab somewhere, some block is not full. */
  lemma {:induction false} NonFullExists(bs: seq<Block>)
    requires forall i | 0 <= i < |bs| :: BlockOk(bs[i])
    requires FreeCount(bs) > 0
    ensures FirstNonFull(bs) < |bs|
  {
    if bs[0].refCounter == SLABS_PER_BLOCK {
      NonFullExists(bs[1..]);
    }
  }

  /** The blocks after _alloc_slab_block put the new block 'p' at the head. */
  function Grow(bs: seq<Block>, p: nat): seq<Block> {
    [Block(p, {}, 0)] + bs
  }

  /** Takes a slab from the first block that is not full. */
  function Take(bs: seq<Block>): (r: (AllocResult, seq<Block>))
    requires forall i | 0 <= i < |bs| :: BlockOk(bs[i])
    requires FreeCount(bs) > 0
  {
    NonFullExists(bs);
    var i := FirstNonFull(bs);
    RefBound(bs[i]);
    (Slot(AllocAddr(bs[i])), bs[i := BlockAlloc(bs[i])])
  }

  /**
   * Aligned_slab::alloc: when no slab is free, first one more block from
   * the backing store (Out_of_memory when it has none), then a slab of the
   * first block that is not full.
   */
  function SlabAlloc(bs: seq<Block>, store: StoreReply): (r: (AllocResult, seq<Block>))
    requires forall i | 0 <= i < |bs| :: BlockOk(bs[i])
    requires store.StoreGranted? ==> store.addr % ALIGN == 0
  {
    if FreeCount(bs) == 0 then
      match store
      case StoreFailed => (OutOfMemory, bs)
      case StoreGranted(p) => GrowOk(bs, p); Take(Grow(bs, p))
    else Take(bs)
  }

  lemma GrowOk(bs: seq<Block>, p: nat)
    requires forall i | 0 <= i < |bs| :: BlockOk(bs[i])
    requires p % ALIGN == 0
    ensures forall i | 0 <= i < |bs| + 1 :: BlockOk(Grow(bs, p)[i])
    ensures FreeCount(Grow(bs, p)) == FreeCount(bs) + SLABS_PER_BLOCK
  {
    assert Grow(bs, p)[1..] == bs;
  }

  /*
   * Release.
   */

  /**
   * The containment test of Slab_block::free as written: it accepts every
   * address from the start of 'data' up to and including the address of
   * 'indices', which follows 'data'.
   */
  predicate InDataAsWritten(b: Block, addr: nat) {
    b.base <= addr <= b.base + DATA_SIZE
  }

  /** The corrected containment test of Slab_block::free: 'addr' lies in 'data'. */
  predicate InData(b: Block, addr: nat) {
    b.base <= addr < b.base + DATA_SIZE
  }

  /** The slot index of an address in a block. */
  function SlotOf(b: Block, addr: nat): nat
    requires b.base <= addr
  {
    (addr - b.base) / SLAB_SIZE
  }

  /** Slab_block::free: one reference less, the address's slot free again. */
  function BlockFree(b: Block, addr: nat): Block
    requires b.base <= addr && b.refCounter > 0
  {
    Block(b.base, b.used - {SlotOf(b, addr)}, b.refCounter - 1)
  }

  /** The first block holding 'addr'; |bs| when none does. */
  function FirstHolding(bs: seq<Block>, addr: nat): (i: nat)
    ensures i <= |bs|
    ensures i < |bs| ==> InData(bs[i], addr)
    ensures forall j | 0 <= j < i :: !InData(bs[j], addr)
  {
    if bs == [] then 0
    else if InData(bs[0], addr) then 0
    else 1 + FirstHolding(bs[1..], addr)
  }

  /**
   * The caller's obligation for an address it frees: when it lies in a
   * block, its slot is in use there. Slab_block::free itself does not check
   * this; a double free or a free of an unused slot is outside the model.
   */
  predicate Releasable(bs: seq<Block>, addr: nat) {
    forall i | 0 <= i < |bs| && InData(bs[i], addr) :: SlotOf(bs[i], addr) in bs[i].used
  }

  /**
   * Aligned_slab::free: the block holding 'addr' frees its slot, and is
   * unlinked and given back when that was its last slab unless it is the
   * initial block. An address in no block changes nothing.
   */
  function SlabFree(bs: seq<Block>, addr: nat, initialBase: nat): seq<Block>
    requires forall i | 0 <= i < |bs| :: BlockOk(bs[i])
    requires Releasable(bs, addr)
  {
    var i := FirstHolding(bs, addr);
    if i == |bs| then bs
    else
      assert BlockOk(bs[i]) && SlotOf(bs[i], addr) in bs[i].used;
      var b := BlockFree(bs[i], addr);
      if b.refCounter == 0 && b.base != initialBase then bs[..i] + bs[i + 1..]
      else bs[i := b]
  }
}
