/**
 * Genode::Aligned_slab<1 << 10, 32, 10>: the block list and the free-slab
 * counter as fields that alloc and free update in place. Each operation is
 * proved against the function of module Slab that gives the new block
 * list; what those functions promise is proved in module SlabLemmas.
 */
module AlignedSlabs {
  import opened Wrappers
  import opened Slab
  import opened SlabLemmas

  class AlignedSlab {
    /** The address of '_initial_sb'. */
    const initialBase: nat
    /** sizeof(Slab_block): the data, the bit allocator, the list element and the counter. */
    const blockSize: nat
    /** '_b_list', head first. */
    var blocks: seq<Block>
    /** '_free_slab_entries'. */
    var freeEntries: nat

    ghost predicate Valid()
      reads this
    {
      SlabOk(blocks, initialBase, blockSize) && freeEntries == FreeCount(blocks)
    }

    /** The allocator starts with its initial block alone, every slab free. */
    constructor (initialBase: nat, blockSize: nat)
      requires initialBase % ALIGN == 0 && blockSize > DATA_SIZE
      ensures Valid()
      ensures this.initialBase == initialBase && this.blockSize == blockSize
      ensures blocks == [Block(initialBase, {}, 0)] && freeEntries == SLABS_PER_BLOCK
    {
      this.initialBase := initialBase;
      this.blockSize := blockSize;
      blocks := [Block(initialBase, {}, 0)];
      freeEntries := SLABS_PER_BLOCK;
      new;
      assert blocks[1..] == [];
    }

    /**
     * _alloc_slab_block: asks the backing store for one block of
     * 'blockSize' bytes at 2^10 alignment and links it at the head; when
     * the store refuses, nothing changes ('ok' is false, Out_of_memory).
     */
    method AllocSlabBlock(store: StoreReply) returns (ok: bool)
      requires Valid() && freeEntries == 0
      requires store.StoreGranted? ==> Fits(blocks, store.addr, blockSize)
      modifies this
      ensures ok == store.StoreGranted?
      ensures ok ==> blocks == Grow(old(blocks), store.addr) && freeEntries == SLABS_PER_BLOCK
      ensures !ok ==> blocks == old(blocks) && freeEntries == old(freeEntries)
      ensures Layout(blocks, initialBase, blockSize) && freeEntries == FreeCount(blocks)
    {
      if store.StoreFailed? {
        return false;
      }
      GrowLayout(blocks, initialBase, blockSize, store.addr);
      blocks := Grow(blocks, store.addr);
      freeEntries := freeEntries + SLABS_PER_BLOCK;
      ok := true;
    }

    /**
     * Aligned_slab::alloc: grows by one block when no slab is free, then
     * takes a slab from the first block that is not full. 'asked' tells
     * whether the backing store was asked for a block.
     */
    method Alloc(store: StoreReply) returns (r: AllocResult, asked: bool)
      requires Valid()
      requires store.StoreGranted? ==> Fits(blocks, store.addr, blockSize)
      modifies this
      ensures Valid()
      ensures asked <==> old(freeEntries) == 0
      ensures (r, blocks) == SlabAlloc(old(blocks), store)
    {
      AllocSpec(blocks, initialBase, blockSize, store);
      asked := freeEntries == 0;
      if asked {
        var ok := AllocSlabBlock(store);
        if !ok {
          return OutOfMemory, asked;
        }
      }
      NonFullExists(blocks);
      var i := 0;
      while blocks[i].refCounter == SLABS_PER_BLOCK
        invariant i <= FirstNonFull(blocks) < |blocks|
        decreases |blocks| - i
      {
        i := i + 1;
      }
      RefBound(blocks[i]);
      freeEntries := freeEntries - 1;
      r := Slot(AllocAddr(blocks[i]));
      blocks := blocks[i := BlockAlloc(blocks[i])];
    }

    /**
     * Aligned_slab::free: the first block whose data holds 'addr' frees the
     * slot; a block left without slabs is unlinked and given back to the
     * backing store, unless it is the initial block. 'returned' is the block
     * given back, if any.
     */
    method Free(addr: nat) returns (returned: Option<nat>)
      requires Valid() && Releasable(blocks, addr)
      modifies this
      ensures Valid()
      ensures blocks == SlabFree(old(blocks), addr, initialBase)
      ensures returned.Some? <==> |blocks| < |old(blocks)|
      ensures returned.Some? ==>
        returned.value != initialBase && returned.value == old(blocks)[FirstHolding(old(blocks), addr)].base
    {
      returned := None;
      var i := 0;
      while i < |blocks| && !InData(blocks[i], addr)
        invariant i <= FirstHolding(blocks, addr)
        decreases |blocks| - i
      {
        i := i + 1;
      }
      if i == |blocks| {
        assert FirstHolding(blocks, addr) == i;
      } else {
        FreeStep(blocks, initialBase, blockSize, addr, i);
        var b := BlockFree(blocks[i], addr);
        if b.refCounter == 0 && b.base != initialBase {
          returned := Some(b.base);
          blocks := blocks[..i] + blocks[i + 1..];
          freeEntries := freeEntries + 1 - SLABS_PER_BLOCK;
        } else {
          blocks := blocks[i := b];
          freeEntries := freeEntries + 1;
        }
      }
    }

    /** _slab_blocks_in_use, by walking the list. */
    method BlocksInUse() returns (cnt: nat)
      ensures cnt == |blocks|
    {
      cnt := 0;
      while cnt < |blocks|
        invariant cnt <= |blocks|
      {
        cnt := cnt + 1;
      }
    }

    /** consumed(): the bytes of all blocks, the initial block included. */
    method Consumed() returns (c: nat)
      ensures c == blockSize * |blocks|
    {
      var cnt := BlocksInUse();
      c := blockSize * cnt;
    }

    /** overhead(): a block's size spread over its slabs, rounded down. */
    function Overhead(): (o: nat)
      reads this
      ensures o * SLABS_PER_BLOCK <= blockSize < (o + 1) * SLABS_PER_BLOCK
    {
      blockSize / SLABS_PER_BLOCK
    }
  }
}
