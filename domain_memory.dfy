/**
 * How a protection domain's translation tables and its page slab fit
 * together. Section_table::insert_translation takes the memory of a new
 * second-level table from the slab and links it by the physical address
 * phys_addr gives for it; remove_region turns a link's physical address
 * back into the slab address with virt_addr and frees it there. The
 * invariant here says that every linked table is a slab in use; the lemmas
 * show that an insertion and a removal with the matching slab calls keep it.
 */
module DomainMemory {
  import opened ArmDescriptors
  import opened PageTables
  import opened RootTables
  import opened TableLemmas
  import opened Slab
  import opened SlabLemmas

  /** phys_addr and virt_addr of the memory the slab's blocks come from. */
  datatype AddressMap = AddressMap(phys: nat -> bv32, virt: bv32 -> nat)

  /**
   * Below 4 GiB, virt_addr undoes phys_addr, and phys_addr keeps the 1 KiB
   * alignment of a slab.
   */
  ghost predicate Translates(m: AddressMap) {
    forall a: nat | a < ADDR_SPACE ::
      m.virt(m.phys(a)) == a && (a % ALIGN == 0 ==> Aligned(m.phys(a), 10))
  }

  /** Every block of the slab lies below 4 GiB. */
  ghost predicate Within(bs: seq<Block>) {
    forall i | 0 <= i < |bs| :: bs[i].base + DATA_SIZE <= ADDR_SPACE
  }

  /**
   * Every table linked from 'root' is a slab in use, and phys_addr of that
   * slab gives back the link's base.
   */
  ghost predicate LinksAllocated(root: seq<bv32>, bs: seq<Block>, m: AddressMap) {
    forall i | 0 <= i < |root| && IsLink(root[i]) ::
      && m.virt(LinkBase(root[i])) in Allocated(bs)
      && m.phys(m.virt(LinkBase(root[i]))) == LinkBase(root[i])
  }

  /** The slab addresses virt_addr gives for the physical bases 'ks'. */
  ghost function VirtSet(ks: seq<Phys>, m: AddressMap): set<nat> {
    set j | 0 <= j < |ks| :: m.virt(ks[j].addr)
  }

  /** What insert_translation makes of the slab's answer. */
  function Answer(r: AllocResult, m: AddressMap): (reply: SlabReply)
    ensures reply.SlabOutOfMemory? <==> r.OutOfMemory?
    ensures r.Slot? ==> reply == SlabSlot(m.phys(r.addr))
  {
    match r
    case OutOfMemory => SlabOutOfMemory
    case Slot(a) => SlabSlot(m.phys(a))
  }

  /** A slab in use lies below 4 GiB. */
  lemma AllocatedWithin(bs: seq<Block>, a: nat)
    requires (forall i | 0 <= i < |bs| :: BlockOk(bs[i])) && Within(bs) && a in Allocated(bs)
    ensures a < ADDR_SPACE
  {
    var i, k := FromAllocated(bs, a);
    assert BlockOk(bs[i]);
  }

  /** An allocation keeps the blocks below 4 GiB when the store's block is. */
  lemma AllocWithin(bs: seq<Block>, initialBase: nat, blockSize: nat, store: StoreReply)
    requires SlabOk(bs, initialBase, blockSize) && Within(bs)
    requires store.StoreGranted? ==> Fits(bs, store.addr, blockSize) && store.addr + DATA_SIZE <= ADDR_SPACE
    ensures Within(SlabAlloc(bs, store).1)
  {
    if FreeCount(bs) == 0 {
      if store.StoreGranted? {
        GrowThenTake(bs, initialBase, blockSize, store.addr);
        var bs' := SlabAlloc(bs, store).1;
        forall i | 0 <= i < |bs'|
          ensures bs'[i].base + DATA_SIZE <= ADDR_SPACE
        {
          if i > 0 {
            assert bs'[i] == bs'[1..][i - 1];
          }
        }
      }
    } else {
      NonFullExists(bs);
      var i := FirstNonFull(bs);
      RefBound(bs[i]);
      BlockAllocOk(bs[i]);
    }
  }

  /** A free keeps the blocks below 4 GiB. */
  lemma FreeWithin(bs: seq<Block>, initialBase: nat, addr: nat)
    requires (forall i | 0 <= i < |bs| :: BlockOk(bs[i])) && Releasable(bs, addr) && Within(bs)
    ensures Within(SlabFree(bs, addr, initialBase))
  {
    var i := FirstHolding(bs, addr);
    if i < |bs| {
      var bs' := SlabFree(bs, addr, initialBase);
      forall j | 0 <= j < |bs'|
        ensures bs'[j].base + DATA_SIZE <= ADDR_SPACE
      {
        if |bs'| < |bs| && j >= i {
          assert bs'[j] == bs[j + 1];
        }
      }
    }
  }

  /** A table linked from 'root' is a slab in use that phys_addr maps back to it. */
  lemma OwnedAllocated(t: Tables, bs: seq<Block>, m: AddressMap, k: Phys)
    requires LinksAllocated(t.root, bs, m) && Owns(t, k)
    ensures m.virt(k.addr) in Allocated(bs) && m.phys(m.virt(k.addr)) == k.addr
  {
    var i :| 0 <= i < |t.root| && IsLink(t.root[i]) && LinkKey(t.root[i]) == k;
  }

  /**
   * The slot the slab hands out for a new second-level table is one the
   * table may link: aligned, and the base of no linked table.
   */
  lemma SlotIsFresh(t: Tables, bs: seq<Block>, initialBase: nat, blockSize: nat, m: AddressMap, a: nat)
    requires SlabOk(bs, initialBase, blockSize) && Translates(m) && LinksAllocated(t.root, bs, m)
    requires a < ADDR_SPACE && a % ALIGN == 0 && a !in Allocated(bs)
    ensures FreshSlot(t, SlabSlot(m.phys(a)))
  {
    forall i | 0 <= i < |t.root| && IsLink(t.root[i])
      ensures LinkBase(t.root[i]) != m.phys(a)
    {
      assert m.virt(LinkBase(t.root[i])) in Allocated(bs);
      assert m.virt(m.phys(a)) == a;
    }
  }

  /**
   * An insertion that needs no new table asks no slab and links nothing new:
   * the invariant holds with the slab unchanged.
   */
  lemma InsertKeepsAllocated(t: Tables, vo: nat, pa: bv32, sizeLog2: nat, flags: PageFlags, bs: seq<Block>, m: AddressMap)
    requires InsertAllowed(t, vo, sizeLog2) && !NeedsLeaf(t, vo, sizeLog2)
    requires LinksAllocated(t.root, bs, m)
    ensures LinksAllocated(RootInsert(t, vo, pa, sizeLog2, flags, NoSlab).1.root, bs, m)
  {
    var r := RootInsert(t, vo, pa, sizeLog2, flags, NoSlab).1;
    var i := SectionIndex(vo);
    if sizeLog2 == SECTION_SIZE_LOG2 && IsLink(t.root[i]) {
      SectionIsNotLink(flags, pa, t.root[i]);
    }
    forall j | 0 <= j < |r.root| && IsLink(r.root[j])
      ensures m.virt(LinkBase(r.root[j])) in Allocated(bs)
      ensures m.phys(m.virt(LinkBase(r.root[j]))) == LinkBase(r.root[j])
    {
      assert r.root[j] == t.root[j];
    }
  }

  /**
   * An insertion that needs a new table: the slab's answer is a slot the
   * table may link, and once linked the new table is a slab in use, so the
   * invariant holds for the tables and the slab after the two calls.
   */
  lemma InsertLinksAllocated(t: Tables, vo: nat, pa: bv32, sizeLog2: nat, flags: PageFlags,
                             bs: seq<Block>, initialBase: nat, blockSize: nat, store: StoreReply, m: AddressMap)
    requires InsertAllowed(t, vo, sizeLog2) && NeedsLeaf(t, vo, sizeLog2)
    requires SlabOk(bs, initialBase, blockSize) && Within(bs) && Translates(m)
    requires store.StoreGranted? ==> Fits(bs, store.addr, blockSize) && store.addr + DATA_SIZE <= ADDR_SPACE
    requires LinksAllocated(t.root, bs, m)
    ensures FreshSlot(t, Answer(SlabAlloc(bs, store).0, m))
    ensures LinksAllocated(RootInsert(t, vo, pa, sizeLog2, flags, Answer(SlabAlloc(bs, store).0, m)).1.root,
                           SlabAlloc(bs, store).1, m)
  {
    AllocSpec(bs, initialBase, blockSize, store);
    AllocWithin(bs, initialBase, blockSize, store);
    var res := SlabAlloc(bs, store).0;
    var bs' := SlabAlloc(bs, store).1;
    var reply := Answer(res, m);
    var r := RootInsert(t, vo, pa, sizeLog2, flags, reply).1;
    var i := SectionIndex(vo);
    if res.Slot? {
      var a := res.addr;
      assert a in Allocated(bs');
      AllocatedWithin(bs', a);
      SlotIsFresh(t, bs, initialBase, blockSize, m, a);
      LinkBaseOfCreate(m.phys(a));
      forall j | 0 <= j < |r.root| && IsLink(r.root[j])
        ensures m.virt(LinkBase(r.root[j])) in Allocated(bs')
        ensures m.phys(m.virt(LinkBase(r.root[j]))) == LinkBase(r.root[j])
      {
        if j != i {
          assert r.root[j] == t.root[j];
        }
      }
    }
  }

  /** The link descriptor made for an aligned table names that table. */
  lemma LinkBaseOfCreate(base: bv32)
    requires Aligned(base, 10)
    ensures IsLink(PageTableDescriptorCreate(base)) && LinkBase(PageTableDescriptorCreate(base)) == base
  {
  }

  /**
   * The table remove_region frees at step 'n' is still a slab in use after
   * the earlier steps' frees: it was linked, and virt_addr sends the
   * distinct tables it frees to distinct slabs.
   */
  lemma NextReleasable(t: Tables, vo: nat, ve: nat, bs0: seq<Block>, bs: seq<Block>, m: AddressMap, n: nat)
    requires WellFormed(t) && LinksAllocated(t.root, bs0, m)
    requires n < |Released(t, vo, ve, ROOT_ENTRIES)|
    requires Allocated(bs) == Allocated(bs0) - VirtSet(Released(t, vo, ve, ROOT_ENTRIES)[..n], m)
    ensures m.virt(Released(t, vo, ve, ROOT_ENTRIES)[n].addr) in Allocated(bs)
    ensures Allocated(bs) - {m.virt(Released(t, vo, ve, ROOT_ENTRIES)[n].addr)} ==
      Allocated(bs0) - VirtSet(Released(t, vo, ve, ROOT_ENTRIES)[..n + 1], m)
  {
    var ks := Released(t, vo, ve, ROOT_ENTRIES);
    RemoveReleases(t, vo, ve);
    assert ks[n] in ks;
    OwnedAllocated(t, bs0, m, ks[n]);
    forall j | 0 <= j < n
      ensures m.virt(ks[j].addr) != m.virt(ks[n].addr)
    {
      assert ks[j] in ks;
      OwnedAllocated(t, bs0, m, ks[j]);
    }
    assert m.virt(ks[n].addr) !in VirtSet(ks[..n], m);
    assert VirtSet(ks[..n + 1], m) == VirtSet(ks[..n], m) + {m.virt(ks[n].addr)} by {
      assert forall j | 0 <= j < n + 1 :: ks[..n + 1][j] == ks[j];
      assert forall j | 0 <= j < n :: ks[..n][j] == ks[j];
    }
  }

  /**
   * After remove_region freed the tables it unlinked, every table still
   * linked is a slab still in use.
   */
  lemma RemoveKeepsAllocated(t: Tables, vo: nat, ve: nat, bs0: seq<Block>, bs: seq<Block>, m: AddressMap)
    requires WellFormed(t) && LinksAllocated(t.root, bs0, m)
    requires Allocated(bs) == Allocated(bs0) - VirtSet(Released(t, vo, ve, ROOT_ENTRIES), m)
    ensures LinksAllocated(RootRemove(t, vo, ve).root, bs, m)
  {
    var ks := Released(t, vo, ve, ROOT_ENTRIES);
    var r := RootRemove(t, vo, ve);
    RemoveReleases(t, vo, ve);
    forall i | 0 <= i < |r.root| && IsLink(r.root[i])
      ensures m.virt(LinkBase(r.root[i])) in Allocated(bs)
      ensures m.phys(m.virt(LinkBase(r.root[i]))) == LinkBase(r.root[i])
    {
      var d := r.root[i];
      assert d == t.root[i] by {
        if Visited(vo, ve, i) {
          assert RootTypeOf(t.root[i]) == PageTableLink;
        }
      }
      var k := LinkKey(d);
      assert Owns(r, k);
      OwnedAllocated(t, bs0, m, k);
      forall j | 0 <= j < |ks|
        ensures m.virt(ks[j].addr) != m.virt(k.addr)
      {
        assert ks[j] in ks;
        OwnedAllocated(t, bs0, m, ks[j]);
      }
    }
  }
}
