/**
 * What Aligned_slab::alloc and Aligned_slab::free promise, stated on the
 * functions of module Slab: the free-entry count, the block list, the set
 * of live allocations and the alignment of every slab handed out.
 */
module SlabLemmas {
  import opened Slab

  /*
   * Counting free slabs.
   */

  lemma {:induction false} FreeCountAppend(a: seq<Block>, b: seq<Block>)
    ensures FreeCount(a + b) == FreeCount(a) + FreeCount(b)
  {
    if a == [] {
      assert a + b == b;
    } else {
      assert (a + b)[0] == a[0] && (a + b)[1..] == a[1..] + b;
      FreeCountAppend(a[1..], b);
    }
  }

  lemma FreeCountAt(bs: seq<Block>, i: nat)
    requires i < |bs|
    ensures FreeCount(bs) == FreeCount(bs[..i]) + Vacant(bs[i]) + FreeCount(bs[i + 1..])
  {
    assert bs == bs[..i] + ([bs[i]] + bs[i + 1..]);
    FreeCountAppend(bs[..i], [bs[i]] + bs[i + 1..]);
    assert ([bs[i]] + bs[i + 1..])[1..] == bs[i + 1..];
  }

  /** Replacing one block changes the count by the difference of their vacancies. */
  lemma FreeCountUpdate(bs: seq<Block>, i: nat, b: Block)
    requires i < |bs|
    ensures FreeCount(bs[i := b]) == FreeCount(bs) - Vacant(bs[i]) + Vacant(b)
  {
    FreeCountAt(bs, i);
    FreeCountAt(bs[i := b], i);
    assert bs[i := b][..i] == bs[..i];
    assert bs[i := b][i + 1..] == bs[i + 1..];
  }

  /** Unlinking one block takes its vacancies off the count. */
  lemma FreeCountRemove(bs: seq<Block>, i: nat)
    requires i < |bs|
    ensures FreeCount(bs[..i] + bs[i + 1..]) == FreeCount(bs) - Vacant(bs[i])
  {
    FreeCountAt(bs, i);
    FreeCountAppend(bs[..i], bs[i + 1..]);
  }

  /*
   * Where slabs lie.
   */

  /** Within one block, different slots have different addresses inside 'data'. */
  lemma SlotInData(b: Block, k: nat)
    requires k < SLABS_PER_BLOCK
    ensures InData(b, SlotAddr(b, k)) && SlotOf(b, SlotAddr(b, k)) == k
  {
  }

  /** In a well-laid-out list, a slot address names one block and one slot. */
  lemma SlotAddrInjective(bs: seq<Block>, initialBase: nat, blockSize: nat, i: nat, k: nat, j: nat, m: nat)
    requires Layout(bs, initialBase, blockSize)
    requires i < |bs| && j < |bs| && k < SLABS_PER_BLOCK && m < SLABS_PER_BLOCK
    ensures SlotAddr(bs[i], k) == SlotAddr(bs[j], m) ==> i == j && k == m
  {
    if i < j {
      assert Apart(bs[i].base, bs[j].base, blockSize);
    } else if j < i {
      assert Apart(bs[j].base, bs[i].base, blockSize);
    }
  }

  /**
   * An address lies in the data of at most one block, so the release loop
   * can stop at the first block that holds it. The same holds of the test
   * as written, since 'indices' lies before the end of its block.
   */
  lemma HeldByOne(bs: seq<Block>, initialBase: nat, blockSize: nat, addr: nat, i: nat, j: nat)
    requires Layout(bs, initialBase, blockSize) && i < |bs| && j < |bs|
    ensures InDataAsWritten(bs[i], addr) && InDataAsWritten(bs[j], addr) ==> i == j
  {
    if i < j {
      assert Apart(bs[i].base, bs[j].base, blockSize);
    } else if j < i {
      assert Apart(bs[j].base, bs[i].base, blockSize);
    }
  }

  /** Only the last block of a well-laid-out list is the initial block. */
  lemma InitialIsLast(bs: seq<Block>, initialBase: nat, blockSize: nat, i: nat)
    requires Layout(bs, initialBase, blockSize) && i < |bs|
    ensures bs[i].base == initialBase ==> i == |bs| - 1
  {
    if i < |bs| - 1 {
      assert Apart(bs[i].base, bs[|bs| - 1].base, blockSize);
    }
  }

  lemma InAllocated(bs: seq<Block>, i: nat, k: nat)
    requires i < |bs| && k in bs[i].used
    ensures SlotAddr(bs[i], k) in Allocated(bs)
  {
  }

  /** Every live allocation is slot 'k' in use of some block 'i'. */
  lemma FromAllocated(bs: seq<Block>, a: nat) returns (i: nat, k: nat)
    requires a in Allocated(bs)
    ensures i < |bs| && k in bs[i].used && a == SlotAddr(bs[i], k)
  {
    i, k :| 0 <= i < |bs| && k in bs[i].used && a == SlotAddr(bs[i], k);
  }

  /*
   * One block replaced or unlinked.
   */

  /** Replacing a block by a sound one at the same base keeps the layout. */
  lemma UpdateLayout(bs: seq<Block>, initialBase: nat, blockSize: nat, i: nat, b: Block)
    requires Layout(bs, initialBase, blockSize) && i < |bs| && BlockOk(b) && b.base == bs[i].base
    ensures Layout(bs[i := b], initialBase, blockSize)
  {
  }

  /** Replacing a block by one with one more slot in use adds that slot's address. */
  lemma UpdateAdds(bs: seq<Block>, i: nat, b: Block, x: nat)
    requires i < |bs| && b.base == bs[i].base && b.used == bs[i].used + {x}
    ensures Allocated(bs[i := b]) == Allocated(bs) + {SlotAddr(bs[i], x)}
  {
    var bs' := bs[i := b];
    forall a ensures a in Allocated(bs') <==> a in Allocated(bs) || a == SlotAddr(bs[i], x) {
      if a in Allocated(bs') {
        var j, m := FromAllocated(bs', a);
        if j != i || m != x {
          InAllocated(bs, j, m);
        }
      }
      if a in Allocated(bs) {
        var j, m := FromAllocated(bs, a);
        InAllocated(bs', j, m);
      }
      if a == SlotAddr(bs[i], x) {
        InAllocated(bs', i, x);
      }
    }
  }

  /** Replacing a block by one with slot 'x' no longer in use removes that slot's address. */
  lemma UpdateRemoves(bs: seq<Block>, initialBase: nat, blockSize: nat, i: nat, b: Block, x: nat)
    requires Layout(bs, initialBase, blockSize) && i < |bs| && x < SLABS_PER_BLOCK
    requires b.base == bs[i].base && b.used == bs[i].used - {x}
    ensures Allocated(bs[i := b]) == Allocated(bs) - {SlotAddr(bs[i], x)}
  {
    var bs' := bs[i := b];
    forall a ensures a in Allocated(bs') <==> a in Allocated(bs) && a != SlotAddr(bs[i], x) {
      if a in Allocated(bs') {
        var j, m := FromAllocated(bs', a);
        InAllocated(bs, j, m);
        assert BlockOk(bs[j]);
        SlotAddrInjective(bs, initialBase, blockSize, j, m, i, x);
      }
      if a in Allocated(bs) && a != SlotAddr(bs[i], x) {
        var j, m := FromAllocated(bs, a);
        InAllocated(bs', j, m);
      }
    }
  }

  /** Unlinking a block with no slot in use loses no allocation. */
  lemma RemoveUnused(bs: seq<Block>, i: nat)
    requires i < |bs| && bs[i].used == {}
    ensures Allocated(bs[..i] + bs[i + 1..]) == Allocated(bs)
  {
    var bs' := bs[..i] + bs[i + 1..];
    forall a ensures a in Allocated(bs') <==> a in Allocated(bs) {
      if a in Allocated(bs') {
        var j, m := FromAllocated(bs', a);
        var j0 := if j < i then j else j + 1;
        assert bs'[j] == bs[j0];
        InAllocated(bs, j0, m);
      }
      if a in Allocated(bs) {
        var j, m := FromAllocated(bs, a);
        assert j != i;
        var j1 := if j < i then j else j - 1;
        assert bs'[j1] == bs[j];
        InAllocated(bs', j1, m);
      }
    }
  }

  /** Unlinking a block other than the last keeps the invariant. */
  lemma RemoveKeepsOk(bs: seq<Block>, initialBase: nat, blockSize: nat, i: nat)
    requires SlabOk(bs, initialBase, blockSize) && i < |bs| - 1
    ensures SlabOk(bs[..i] + bs[i + 1..], initialBase, blockSize)
  {
    var bs' := bs[..i] + bs[i + 1..];
    forall a, c | 0 <= a < c < |bs'|
      ensures Apart(bs'[a].base, bs'[c].base, blockSize)
    {
      var a0 := if a < i then a else a + 1;
      var c0 := if c < i then c else c + 1;
      assert bs'[a] == bs[a0] && bs'[c] == bs[c0];
    }
    assert bs'[|bs'| - 1] == bs[|bs| - 1];
    forall a | 0 <= a < |bs'|
      ensures BlockOk(bs'[a]) && (a < |bs'| - 1 ==> bs'[a].refCounter > 0)
    {
      assert bs'[a] == bs[if a < i then a else a + 1];
    }
  }

  /*
   * Allocation.
   */

  /** Slab_block::alloc on a block that is not full: a sound block with one more slot in use. */
  lemma BlockAllocOk(b: Block)
    requires BlockOk(b) && b.refCounter < SLABS_PER_BLOCK
    ensures FirstFree(b.used, 0) < SLABS_PER_BLOCK && FirstFree(b.used, 0) !in b.used
    ensures BlockOk(BlockAlloc(b)) && BlockAlloc(b).base == b.base
    ensures BlockAlloc(b).used == b.used + {FirstFree(b.used, 0)}
    ensures BlockAlloc(b).refCounter == b.refCounter + 1
    ensures AllocAddr(b) == SlotAddr(b, FirstFree(b.used, 0)) && AllocAddr(b) % ALIGN == 0
  {
    FreeSlotExists(b);
  }

  /**
   * Taking a slab from the first block that is not full hands out an
   * aligned address that was not in use and is now; one slab fewer is free.
   */
  lemma TakeSlot(bs: seq<Block>, initialBase: nat, blockSize: nat)
    requires Layout(bs, initialBase, blockSize) && FreeCount(bs) > 0
    ensures Take(bs).0.Slot?
    ensures Layout(Take(bs).1, initialBase, blockSize) && |Take(bs).1| == |bs|
    ensures Take(bs).0.addr !in Allocated(bs)
    ensures Allocated(Take(bs).1) == Allocated(bs) + {Take(bs).0.addr}
    ensures FreeCount(Take(bs).1) == FreeCount(bs) - 1
    ensures Take(bs).0.addr % ALIGN == 0
  {
    NonFullExists(bs);
    var i := FirstNonFull(bs);
    RefBound(bs[i]);
    BlockAllocOk(bs[i]);
    var x := FirstFree(bs[i].used, 0);
    var b := BlockAlloc(bs[i]);
    var addr := SlotAddr(bs[i], x);
    assert Take(bs) == (Slot(addr), bs[i := b]);
    UpdateLayout(bs, initialBase, blockSize, i, b);
    UpdateAdds(bs, i, b, x);
    FreeCountUpdate(bs, i, b);
    if addr in Allocated(bs) {
      var j, m := FromAllocated(bs, addr);
      assert BlockOk(bs[j]);
      SlotAddrInjective(bs, initialBase, blockSize, i, x, j, m);
    }
  }

  /** A new block at the head adds SLABS_PER_BLOCK free slabs and no allocation. */
  lemma GrowLayout(bs: seq<Block>, initialBase: nat, blockSize: nat, p: nat)
    requires Layout(bs, initialBase, blockSize) && Fits(bs, p, blockSize)
    ensures Layout(Grow(bs, p), initialBase, blockSize)
    ensures FreeCount(Grow(bs, p)) == FreeCount(bs) + SLABS_PER_BLOCK
    ensures Allocated(Grow(bs, p)) == Allocated(bs)
  {
    var g := Grow(bs, p);
    GrowOk(bs, p);
    forall i, j | 0 <= i < j < |g|
      ensures Apart(g[i].base, g[j].base, blockSize)
    {
      if i > 0 {
        assert g[i] == bs[i - 1] && g[j] == bs[j - 1];
      }
    }
    forall a ensures a in Allocated(g) <==> a in Allocated(bs) {
      if a in Allocated(g) {
        var j, m := FromAllocated(g, a);
        assert j > 0 && g[j] == bs[j - 1];
        InAllocated(bs, j - 1, m);
      }
      if a in Allocated(bs) {
        var j, m := FromAllocated(bs, a);
        assert g[j + 1] == bs[j];
        InAllocated(g, j + 1, m);
      }
    }
  }

  /** Growing a full list and taking a slab: the new head holds the slab. */
  lemma GrowThenTake(bs: seq<Block>, initialBase: nat, blockSize: nat, p: nat)
    requires SlabOk(bs, initialBase, blockSize) && Fits(bs, p, blockSize) && FreeCount(bs) == 0
    ensures var bs' := Take(Grow(bs, p)).1;
      |bs'| == |bs| + 1 && bs'[0].base == p && bs'[0].refCounter == 1 && bs'[1..] == bs
    ensures SlabOk(Take(Grow(bs, p)).1, initialBase, blockSize)
  {
    var g := Grow(bs, p);
    GrowLayout(bs, initialBase, blockSize, p);
    TakeSlot(g, initialBase, blockSize);
    assert FirstNonFull(g) == 0;
    var bs' := Take(g).1;
    assert bs' == g[0 := BlockAlloc(g[0])];
    assert bs'[1..] == bs;
    forall i | 0 <= i < |bs'| - 1
      ensures bs'[i].refCounter > 0
    {
      if i > 0 {
        assert bs'[i] == bs[i - 1];
      }
    }
  }

  /** Taking a slab from a list that had one free keeps the invariant. */
  lemma TakeKeepsOk(bs: seq<Block>, initialBase: nat, blockSize: nat)
    requires SlabOk(bs, initialBase, blockSize) && FreeCount(bs) > 0
    ensures SlabOk(Take(bs).1, initialBase, blockSize)
  {
    TakeSlot(bs, initialBase, blockSize);
    NonFullExists(bs);
    var i := FirstNonFull(bs);
    RefBound(bs[i]);
    assert Take(bs).1 == bs[i := BlockAlloc(bs[i])];
  }

  /**
   * Aligned_slab::alloc, all cases: it fails with Out_of_memory exactly when
   * no slab is free and the backing store refuses a block, and then changes
   * nothing; otherwise it hands out an aligned slab that was not in use,
   * after adding exactly one block when, and only when, no slab was free.
   * The allocator's invariant holds throughout.
   */
  lemma AllocSpec(bs: seq<Block>, initialBase: nat, blockSize: nat, store: StoreReply)
    requires SlabOk(bs, initialBase, blockSize)
    requires store.StoreGranted? ==> Fits(bs, store.addr, blockSize)
    ensures SlabAlloc(bs, store).0.OutOfMemory? <==> FreeCount(bs) == 0 && store.StoreFailed?
    ensures SlabAlloc(bs, store).0.OutOfMemory? ==> SlabAlloc(bs, store).1 == bs
    ensures SlabAlloc(bs, store).0.Slot? ==>
      var (r, bs') := SlabAlloc(bs, store);
      && SlabOk(bs', initialBase, blockSize)
      && r.addr % ALIGN == 0
      && r.addr !in Allocated(bs)
      && Allocated(bs') == Allocated(bs) + {r.addr}
      && |bs'| == |bs| + (if FreeCount(bs) == 0 then 1 else 0)
      && FreeCount(bs') == FreeCount(bs) + (if FreeCount(bs) == 0 then SLABS_PER_BLOCK else 0) - 1
  {
    if FreeCount(bs) == 0 {
      if store.StoreGranted? {
        GrowLayout(bs, initialBase, blockSize, store.addr);
        TakeSlot(Grow(bs, store.addr), initialBase, blockSize);
        GrowThenTake(bs, initialBase, blockSize, store.addr);
      }
    } else {
      TakeSlot(bs, initialBase, blockSize);
      TakeKeepsOk(bs, initialBase, blockSize);
    }
  }

  /**
   * The backing store is consulted only when no slab is free: with a free
   * slab, the store's answer makes no difference.
   */
  lemma AllocIgnoresStore(bs: seq<Block>, s1: StoreReply, s2: StoreReply)
    requires forall i | 0 <= i < |bs| :: BlockOk(bs[i])
    requires s1.StoreGranted? ==> s1.addr % ALIGN == 0
    requires s2.StoreGranted? ==> s2.addr % ALIGN == 0
    requires FreeCount(bs) > 0
    ensures SlabAlloc(bs, s1) == SlabAlloc(bs, s2)
  {
  }

  /**
   * When no slab is free, the allocator links exactly one new block, at the
   * head of the list, made at the address the backing store handed out; the
   * blocks it had stay, in order.
   */
  lemma AllocGrowsByOne(bs: seq<Block>, initialBase: nat, blockSize: nat, p: nat)
    requires SlabOk(bs, initialBase, blockSize) && Fits(bs, p, blockSize)
    requires FreeCount(bs) == 0
    ensures var bs' := SlabAlloc(bs, StoreGranted(p)).1;
      |bs'| == |bs| + 1 && bs'[0].base == p && bs'[0].refCounter == 1 && bs'[1..] == bs
  {
    GrowThenTake(bs, initialBase, blockSize, p);
  }

  /*
   * Release.
   */

  /** Slab_block::free of a slot in use: a sound block with that slot free again. */
  lemma BlockFreeOk(b: Block, addr: nat)
    requires BlockOk(b) && b.base <= addr && SlotOf(b, addr) in b.used
    ensures b.refCounter > 0
    ensures BlockOk(BlockFree(b, addr)) && BlockFree(b, addr).base == b.base
    ensures BlockFree(b, addr).used == b.used - {SlotOf(b, addr)}
    ensures BlockFree(b, addr).refCounter == b.refCounter - 1
  {
    var k := SlotOf(b, addr);
    assert b.used == (b.used - {k}) + {k};
  }

  /** The free that unlinks block 'i': the invariant and the count. */
  lemma FreeUnlinks(bs: seq<Block>, initialBase: nat, blockSize: nat, addr: nat, i: nat)
    requires SlabOk(bs, initialBase, blockSize) && i < |bs| && bs[i].base <= addr
    requires SlotOf(bs[i], addr) in bs[i].used
    requires BlockFree(bs[i], addr).refCounter == 0 && bs[i].base != initialBase
    ensures i < |bs| - 1
    ensures SlabOk(bs[..i] + bs[i + 1..], initialBase, blockSize)
    ensures FreeCount(bs[..i] + bs[i + 1..]) == FreeCount(bs) + 1 - SLABS_PER_BLOCK
  {
    BlockFreeOk(bs[i], addr);
    assert bs[i].refCounter == 1;
    RemoveKeepsOk(bs, initialBase, blockSize, i);
    FreeCountRemove(bs, i);
  }

  /** The free that keeps block 'i': the invariant and the count. */
  lemma FreeKeeps(bs: seq<Block>, initialBase: nat, blockSize: nat, addr: nat, i: nat)
    requires SlabOk(bs, initialBase, blockSize) && i < |bs| && bs[i].base <= addr
    requires SlotOf(bs[i], addr) in bs[i].used
    requires !(BlockFree(bs[i], addr).refCounter == 0 && bs[i].base != initialBase)
    ensures SlabOk(bs[i := BlockFree(bs[i], addr)], initialBase, blockSize)
    ensures FreeCount(bs[i := BlockFree(bs[i], addr)]) == FreeCount(bs) + 1
  {
    var b := BlockFree(bs[i], addr);
    BlockFreeOk(bs[i], addr);
    RefBound(bs[i]);
    UpdateLayout(bs, initialBase, blockSize, i, b);
    FreeCountUpdate(bs, i, b);
    InitialIsLast(bs, initialBase, blockSize, i);
  }

  /**
   * One free, with the holding block 'i' already found: the new block list
   * and the free count, in both branches.
   */
  lemma FreeStep(bs: seq<Block>, initialBase: nat, blockSize: nat, addr: nat, i: nat)
    requires SlabOk(bs, initialBase, blockSize) && Releasable(bs, addr)
    requires i == FirstHolding(bs, addr) < |bs|
    ensures bs[i].refCounter > 0 && BlockFree(bs[i], addr).base == bs[i].base
    ensures var b := BlockFree(bs[i], addr);
      b.refCounter == 0 && b.base != initialBase ==>
        && SlabFree(bs, addr, initialBase) == bs[..i] + bs[i + 1..]
        && FreeCount(bs[..i] + bs[i + 1..]) == FreeCount(bs) + 1 - SLABS_PER_BLOCK
    ensures var b := BlockFree(bs[i], addr);
      !(b.refCounter == 0 && b.base != initialBase) ==>
        && SlabFree(bs, addr, initialBase) == bs[i := b]
        && FreeCount(bs[i := b]) == FreeCount(bs) + 1
    ensures SlabOk(SlabFree(bs, addr, initialBase), initialBase, blockSize)
  {
    BlockFreeOk(bs[i], addr);
    if BlockFree(bs[i], addr).refCounter == 0 && bs[i].base != initialBase {
      FreeUnlinks(bs, initialBase, blockSize, addr, i);
    } else {
      FreeKeeps(bs, initialBase, blockSize, addr, i);
    }
  }

  /**
   * Aligned_slab::free of an address the allocator may be asked to free:
   * the block holding it gains one free slab; if that was its last slab
   * and it is not the initial block, it is unlinked, taking its
   * SLABS_PER_BLOCK free slabs with it. An address in no block changes
   * nothing. The invariant holds throughout, so the initial block stays.
   */
  lemma FreeSpec(bs: seq<Block>, initialBase: nat, blockSize: nat, addr: nat)
    requires SlabOk(bs, initialBase, blockSize) && Releasable(bs, addr)
    ensures SlabOk(SlabFree(bs, addr, initialBase), initialBase, blockSize)
    ensures FirstHolding(bs, addr) == |bs| ==> SlabFree(bs, addr, initialBase) == bs
    ensures var i := FirstHolding(bs, addr);
      i < |bs| && bs[i].refCounter == 1 && bs[i].base != initialBase ==>
        SlabFree(bs, addr, initialBase) == bs[..i] + bs[i + 1..]
        && FreeCount(SlabFree(bs, addr, initialBase)) == FreeCount(bs) + 1 - SLABS_PER_BLOCK
    ensures var i := FirstHolding(bs, addr);
      i < |bs| && !(bs[i].refCounter == 1 && bs[i].base != initialBase) ==>
        |SlabFree(bs, addr, initialBase)| == |bs|
        && FreeCount(SlabFree(bs, addr, initialBase)) == FreeCount(bs) + 1
  {
    var i := FirstHolding(bs, addr);
    if i < |bs| {
      BlockFreeOk(bs[i], addr);
      if BlockFree(bs[i], addr).refCounter == 0 && bs[i].base != initialBase {
        FreeUnlinks(bs, initialBase, blockSize, addr, i);
      } else {
        FreeKeeps(bs, initialBase, blockSize, addr, i);
      }
    }
  }

  /**
   * Freeing a live allocation ends exactly that allocation: its address
   * leaves the set of slabs in use, and no other address does.
   */
  lemma FreeAllocated(bs: seq<Block>, initialBase: nat, blockSize: nat, addr: nat)
    requires SlabOk(bs, initialBase, blockSize) && addr in Allocated(bs)
    ensures Releasable(bs, addr)
    ensures Allocated(SlabFree(bs, addr, initialBase)) == Allocated(bs) - {addr}
  {
    var i, k := FromAllocated(bs, addr);
    assert BlockOk(bs[i]);
    SlotInData(bs[i], k);
    forall j | 0 <= j < |bs| && InData(bs[j], addr)
      ensures SlotOf(bs[j], addr) in bs[j].used
    {
      HeldByOne(bs, initialBase, blockSize, addr, i, j);
    }
    var h := FirstHolding(bs, addr);
    HeldByOne(bs, initialBase, blockSize, addr, i, h);
    BlockFreeOk(bs[i], addr);
    var b := BlockFree(bs[i], addr);
    UpdateRemoves(bs, initialBase, blockSize, i, b, k);
    if b.refCounter == 0 && b.base != initialBase {
      var bs1 := bs[i := b];
      assert b.used == {};
      RemoveUnused(bs1, i);
      assert bs1[..i] + bs1[i + 1..] == bs[..i] + bs[i + 1..];
    }
  }

  /**
   * The intended block-list walk of free, with the containment test as
   * written, still finds at most one block; the test as written lets one
   * address too many through, though: the address of 'indices' itself,
   * whose slot index SLABS_PER_BLOCK lies outside the bit allocator.
   */
  lemma ContainmentAsWrittenTooWide(b: Block)
    ensures InDataAsWritten(b, b.base + DATA_SIZE)
    ensures !InData(b, b.base + DATA_SIZE)
    ensures SlotOf(b, b.base + DATA_SIZE) == SLABS_PER_BLOCK
  {
  }

  /** The corrected test accepts exactly the addresses of the block's slots' bytes. */
  lemma {:induction false} ContainmentCorrected(b: Block, addr: nat)
    ensures InData(b, addr) <==> b.base <= addr && SlotOf(b, addr) < SLABS_PER_BLOCK
    ensures InData(b, addr) <==> InDataAsWritten(b, addr) && addr != b.base + DATA_SIZE
  {
  }
}
