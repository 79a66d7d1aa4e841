/**
 * Genode::Platform_pd on base-hw: a protection domain's kernel id, parent
 * capability, main thread and label, with the translation table and the
 * page slab its second-level tables come from. Core's domain is handed its
 * table and slab; every other domain makes its own and registers with the
 * kernel.
 */
module ProtectionDomains {
  import opened RootTables
  import opened Slab
  import opened AlignedSlabs
  import opened SectionTables
  import opened DomainMemory

  /** A Native_capability: invalid, or naming the thread 'dst'. */
  datatype Capability = InvalidCap | Cap(dst: nat)

  /** How the constructor for a domain other than core ends. */
  datatype Creation = QuotaExceeded | OutOfMemory | Unavailable | Created(pd: PlatformPd)

  class PlatformPd {
    /** '_id': the kernel's name of the domain. */
    var id: nat
    var parent: Capability
    /** '_main_thread': zero until the first thread binds. */
    var mainThread: nat
    /** '_label'. */
    const name: string
    /** '_tlb'. */
    var tlb: SectionTable?
    /** '_pslab': where the second-level tables come from. */
    var pslab: AlignedSlab?
    /** phys_addr and virt_addr of the memory behind the slab. */
    const memory: AddressMap

    /**
     * The domain's table and slab fit together: both are sound, the slab's
     * blocks lie below 4 GiB, and every linked second-level table is a slab
     * in use.
     */
    ghost predicate Consistent()
      reads this, tlb, pslab, if tlb != null then {tlb.entries} + tlb.Repr else {}
    {
      && tlb != null && pslab != null
      && tlb.Valid() && WellFormed(tlb.State())
      && pslab.Valid() && Within(pslab.blocks)
      && Translates(memory)
      && LinksAllocated(tlb.State().root, pslab.blocks, memory)
    }

    /** The constructor for core's domain: the given table and slab, label "core". */
    constructor Core(tlb: SectionTable?, slab: AlignedSlab?, memory: AddressMap)
      ensures this.tlb == tlb && pslab == slab && this.memory == memory
      ensures mainThread == 0 && name == "core" && parent == InvalidCap
    {
      this.tlb := tlb;
      pslab := slab;
      this.memory := memory;
      mainThread := 0;
      name := "core";
      id := 0;
      parent := InvalidCap;
    }

    /** The fields of a domain that has just been made. */
    constructor Init(name: string, tlb: SectionTable, slab: AlignedSlab, memory: AddressMap, id: nat)
      ensures this.name == name && this.tlb == tlb && pslab == slab && this.memory == memory
      ensures this.id == id && mainThread == 0 && parent == InvalidCap
    {
      this.name := name;
      this.tlb := tlb;
      pslab := slab;
      this.memory := memory;
      this.id := id;
      mainThread := 0;
      parent := InvalidCap;
    }

    /**
     * The constructor for any other domain. 'tlbGranted' is what the core
     * memory allocator answered for the table's memory, 'slabStore' what it
     * answered for the slab and its initial block, 'slabBlockSize' the size
     * of a slab block, and 'kernelId' what Kernel::new_pd returned. Without
     * memory for the table the constructor throws Quota_exceeded; without
     * memory for the slab the allocator's Out_of_memory leaves it; when the
     * kernel returns id 0 it throws Unavailable. Otherwise the domain starts
     * with an empty table and a slab holding just its initial block.
     */
    static method Create(name: string, tlbGranted: bool, slabStore: StoreReply, slabBlockSize: nat,
                         memory: AddressMap, kernelId: nat) returns (r: Creation)
      requires slabStore.StoreGranted? ==>
        slabStore.addr % ALIGN == 0 && slabStore.addr + DATA_SIZE <= ADDR_SPACE
      requires slabBlockSize > DATA_SIZE
      requires Translates(memory)
      ensures r.QuotaExceeded? <==> !tlbGranted
      ensures r.OutOfMemory? <==> tlbGranted && slabStore.StoreFailed?
      ensures r.Unavailable? <==> tlbGranted && slabStore.StoreGranted? && kernelId == 0
      ensures r.Created? ==>
        && fresh(r.pd) && fresh(r.pd.tlb) && fresh(r.pd.pslab)
        && r.pd.Consistent()
        && r.pd.id == kernelId && r.pd.name == name && r.pd.mainThread == 0
        && r.pd.parent == InvalidCap && r.pd.memory == memory
        && r.pd.tlb.State() == EmptyTables()
        && r.pd.pslab.blocks == [Block(slabStore.addr, {}, 0)]
    {
      if !tlbGranted {
        return QuotaExceeded;
      }
      var tlb := new SectionTable();
      if slabStore.StoreFailed? {
        return Creation.OutOfMemory;
      }
      var slab := new AlignedSlab(slabStore.addr, slabBlockSize);
      if kernelId == 0 {
        return Unavailable;
      }
      var pd := new PlatformPd.Init(name, tlb, slab, memory, kernelId);
      NoLinks(slab.blocks, memory);
      r := Created(pd);
    }

    /**
     * bind_thread: the first thread to bind becomes the main thread. The
     * answer is what Platform_thread::join_pd answered ('joined'); 'main'
     * tells whether the thread joined as the main thread.
     */
    method BindThread(threadId: nat, joined: int) returns (r: int, main: bool)
      modifies this`mainThread
      ensures main <==> old(mainThread) == 0
      ensures mainThread == if main then threadId else old(mainThread)
      ensures r == joined
    {
      main := mainThread == 0;
      if main {
        mainThread := threadId;
      }
      r := joined;
    }

    /** assign_parent: -1 and no change for an invalid capability, else 0. */
    method AssignParent(p: Capability) returns (r: int)
      modifies this`parent
      ensures r == (if p.Cap? then 0 else -1)
      ensures parent == if p.Cap? then p else old(parent)
    {
      if p.InvalidCap? {
        return -1;
      }
      parent := p;
      r := 0;
    }

    /** The page_slab setter. */
    method SetPageSlab(p: AlignedSlab?)
      modifies this`pslab
      ensures pslab == p
    {
      pslab := p;
    }
  }

  /** A new table links nothing, so it keeps the invariant with any slab. */
  lemma NoLinks(bs: seq<Block>, m: AddressMap)
    ensures LinksAllocated(EmptyTables().root, bs, m)
  {
    assert forall i | 0 <= i < ROOT_ENTRIES :: !IsLink(EmptyTables().root[i]);
  }
}
