/**
 * base-hw's region-manager support in core: Rm_client::unmap takes a
 * region out of the faulting domain's translation tables and has every
 * processor update its translation caches; the pager activation waits for
 * page faults, asks the pager object for a mapping and writes it into the
 * domain's tables with apply_mapping.
 */
module RegionManager {
  import opened Wrappers
  import opened ArmDescriptors
  import opened RootTables
  import opened TableLemmas
  import opened Slab
  import opened SlabLemmas
  import opened AlignedSlabs
  import opened SectionTables
  import opened DomainMemory
  import opened ProtectionDomains

  /** What a pager object hands to apply_mapping; 'flags' as Page_flags::apply_mapping made them. */
  datatype Mapping = Mapping(virtAddress: nat, physAddress: bv32, sizeLog2: nat, flags: PageFlags)

  /**
   * How apply_mapping ends: 0, -1 when the table found no memory, or with
   * Double_insertion, which apply_mapping does not catch.
   */
  datatype ApplyResult = Applied | NoMemory | DoubleInsertionEscapes

  function ApplyResultOf(r: InsertResult): ApplyResult {
    match r
    case Inserted => Applied
    case OutOfMemory => NoMemory
    case DoubleInsertion => DoubleInsertionEscapes
  }

  /**
   * What the slab answers when the table asks it for a new second-level
   * table, and the slab's blocks afterwards. The table asks only when the
   * translation needs a new second-level table.
   */
  ghost function Placement(t: Tables, m: Mapping, bs: seq<Block>, store: StoreReply, mem: AddressMap)
    : (SlabReply, seq<Block>)
    requires InsertAllowed(t, m.virtAddress, m.sizeLog2)
    requires forall i | 0 <= i < |bs| :: BlockOk(bs[i])
    requires store.StoreGranted? ==> store.addr % ALIGN == 0
  {
    if NeedsLeaf(t, m.virtAddress, m.sizeLog2) then
      (Answer(SlabAlloc(bs, store).0, mem), SlabAlloc(bs, store).1)
    else (NoSlab, bs)
  }

  /**
   * An insertion that does not succeed takes nothing from the slab: it ran
   * out of memory because the slab handed out no slot, or it did not need a
   * new second-level table at all.
   */
  lemma PlacementOnFailure(t: Tables, m: Mapping, bs: seq<Block>, initialBase: nat, blockSize: nat,
                           store: StoreReply, mem: AddressMap)
    requires InsertAllowed(t, m.virtAddress, m.sizeLog2)
    requires SlabOk(bs, initialBase, blockSize)
    requires store.StoreGranted? ==> Fits(bs, store.addr, blockSize)
    ensures var p := Placement(t, m, bs, store, mem);
      RootInsert(t, m.virtAddress, m.physAddress, m.sizeLog2, m.flags, p.0).0 != Inserted ==> p.1 == bs
  {
    if NeedsLeaf(t, m.virtAddress, m.sizeLog2) {
      AllocSpec(bs, initialBase, blockSize, store);
    }
  }

  /**
   * Pager_activation_base::apply_mapping: inserts the mapping into the
   * faulting domain's table, with the domain's page slab for a new
   * second-level table. 'store' is what the slab's backing store answers
   * if the slab must grow. Out_of_memory becomes -1; the tables, the slab
   * and their invariant are as insert_translation leaves them.
   */
  method ApplyMapping(pd: PlatformPd, m: Mapping, store: StoreReply) returns (r: ApplyResult)
    requires pd.Consistent()
    requires InsertAllowed(pd.tlb.State(), m.virtAddress, m.sizeLog2)
    requires store.StoreGranted? ==>
      Fits(pd.pslab.blocks, store.addr, pd.pslab.blockSize) && store.addr + DATA_SIZE <= ADDR_SPACE
    modifies pd.tlb, pd.tlb.entries, pd.tlb.Repr, pd.pslab
    ensures pd.Consistent()
    ensures var p := Placement(old(pd.tlb.State()), m, old(pd.pslab.blocks), store, pd.memory);
      var (res, t) := RootInsert(old(pd.tlb.State()), m.virtAddress, m.physAddress, m.sizeLog2, m.flags, p.0);
      && r == ApplyResultOf(res)
      && pd.tlb.State() == t
      && pd.pslab.blocks == p.1
  {
    var reply := AskSlab(pd, m, store);
    var res := pd.tlb.InsertTranslation(m.virtAddress, m.physAddress, m.sizeLog2, m.flags, reply);
    r := ApplyResultOf(res);
  }

  /**
   * The first half of apply_mapping: the slab is asked for a second-level
   * table exactly when the insert will need one. Afterwards the table the
   * insert will link, if any, is a slab in use.
   */
  method AskSlab(pd: PlatformPd, m: Mapping, store: StoreReply) returns (reply: SlabReply)
    requires pd.Consistent()
    requires InsertAllowed(pd.tlb.State(), m.virtAddress, m.sizeLog2)
    requires store.StoreGranted? ==>
      Fits(pd.pslab.blocks, store.addr, pd.pslab.blockSize) && store.addr + DATA_SIZE <= ADDR_SPACE
    modifies pd.pslab
    ensures pd.pslab.Valid() && Within(pd.pslab.blocks)
    ensures FreshSlot(pd.tlb.State(), reply)
    ensures (reply, pd.pslab.blocks) == Placement(pd.tlb.State(), m, old(pd.pslab.blocks), store, pd.memory)
    ensures LinksAllocated(RootInsert(pd.tlb.State(), m.virtAddress, m.physAddress, m.sizeLog2, m.flags, reply).1.root,
                           pd.pslab.blocks, pd.memory)
  {
    var tlb, slab := pd.tlb, pd.pslab;
    ghost var t0 := tlb.State();
    ghost var bs0 := slab.blocks;
    var vo, sizeLog2 := m.virtAddress, m.sizeLog2;
    reply := NoSlab;
    if sizeLog2 < SECTION_SIZE_LOG2 && RootTypeOf(tlb.entries[vo / SECTION_SIZE]) == RootFault {
      assert NeedsLeaf(t0, vo, sizeLog2);
      InsertLinksAllocated(t0, vo, m.physAddress, sizeLog2, m.flags, bs0, slab.initialBase, slab.blockSize,
                           store, pd.memory);
      AllocWithin(bs0, slab.initialBase, slab.blockSize, store);
      var a, _ := slab.Alloc(store);
      reply := Answer(a, pd.memory);
    } else {
      InsertKeepsAllocated(t0, vo, m.physAddress, sizeLog2, m.flags, bs0, pd.memory);
    }
  }

  /**
   * Rm_client::unmap. 'pd' is the domain of the platform thread the client
   * serves, null when the client has none; without a thread or without a
   * table the call warns and changes nothing. Otherwise remove_region takes
   * [virtBase, virtBase + size) out of the table and frees every
   * second-level table it empties in the slab, at the address virt_addr
   * gives ('freed', in order); only then are all processors told to update
   * their caches for the domain ('broadcast').
   */
  method Unmap(pd: PlatformPd?, virtBase: nat, size: nat) returns (freed: seq<nat>, broadcast: Option<nat>)
    requires pd != null && pd.tlb != null ==> pd.Consistent() && 0 < size && virtBase + size < ADDR_SPACE
    modifies if pd != null && pd.tlb != null then {pd.tlb.entries} + pd.tlb.Repr else {}
    modifies if pd != null then {pd.pslab} else {}
    ensures pd == null || pd.tlb == null ==> freed == [] && broadcast == None
    ensures pd != null && pd.tlb != null ==>
      var released := Released(old(pd.tlb.State()), virtBase, virtBase + size, ROOT_ENTRIES);
      && pd.Consistent()
      && pd.tlb.State() == Visible(RootRemove(old(pd.tlb.State()), virtBase, virtBase + size))
      && freed == SlabAddresses(released, pd.memory)
      && Allocated(pd.pslab.blocks) == Allocated(old(pd.pslab.blocks)) - VirtSet(released, pd.memory)
      && broadcast == Some(pd.id)
  {
    if pd == null {
      return [], None;
    }
    var tlb := pd.tlb;
    if tlb == null {
      return [], None;
    }
    ghost var t0 := tlb.State();
    ghost var bs0 := pd.pslab.blocks;
    var released := tlb.RemoveRegion(virtBase, size);
    freed := FreeTables(pd.pslab, pd.memory, released, t0, virtBase, virtBase + size);
    RemoveKeepsAllocated(t0, virtBase, virtBase + size, bs0, pd.pslab.blocks, pd.memory);
    broadcast := Some(pd.id);
  }

  /** The slab addresses virt_addr gives for the physical bases 'ks', in order. */
  function SlabAddresses(ks: seq<Phys>, m: AddressMap): (s: seq<nat>)
    ensures |s| == |ks| && forall j | 0 <= j < |ks| :: s[j] == m.virt(ks[j].addr)
  {
    seq(|ks|, j requires 0 <= j < |ks| => m.virt(ks[j].addr))
  }

  /**
   * The destroy(slab, pt) calls of remove_region: frees, in order, the
   * tables the removal of [vo, ve) from 't0' unlinked.
   */
  method FreeTables(slab: AlignedSlab, m: AddressMap, released: seq<Phys>, ghost t0: Tables, ghost vo: nat, ghost ve: nat)
    returns (freed: seq<nat>)
    requires slab.Valid() && Within(slab.blocks)
    requires WellFormed(t0) && LinksAllocated(t0.root, slab.blocks, m)
    requires released == Released(t0, vo, ve, ROOT_ENTRIES)
    modifies slab
    ensures slab.Valid() && Within(slab.blocks)
    ensures freed == SlabAddresses(released, m)
    ensures Allocated(slab.blocks) == Allocated(old(slab.blocks)) - VirtSet(released, m)
  {
    ghost var bs0 := slab.blocks;
    freed := [];
    var n := 0;
    while n < |released|
      invariant n <= |released|
      invariant slab.Valid() && Within(slab.blocks)
      invariant Allocated(slab.blocks) == Allocated(bs0) - VirtSet(released[..n], m)
      invariant freed == SlabAddresses(released[..n], m)
    {
      var a := m.virt(released[n].addr);
      NextReleasable(t0, vo, ve, bs0, slab.blocks, m, n);
      FreeSlab(slab, a);
      assert released[..n + 1] == released[..n] + [released[n]];
      freed := freed + [a];
      n := n + 1;
    }
    assert released[..n] == released;
  }

  /** destroy(slab, pt) of a table in use: the slab ends exactly that allocation. */
  method FreeSlab(slab: AlignedSlab, a: nat)
    requires slab.Valid() && Within(slab.blocks) && a in Allocated(slab.blocks)
    modifies slab
    ensures slab.Valid() && Within(slab.blocks)
    ensures Allocated(slab.blocks) == Allocated(old(slab.blocks)) - {a}
  {
    FreeAllocated(slab.blocks, slab.initialBase, slab.blockSize, a);
    FreeWithin(slab.blocks, slab.initialBase, a);
    var _ := slab.Free(a);
  }

  /*
   * The pager activation's loop.
   */

  /** The context a signal carries: a pager object with its badge (the faulting thread, if any), or another. */
  datatype Context = PagerObject(thread: Option<nat>) | OtherContext

  /**
   * The inner loop of entry: waits for signals until one comes from a
   * pager object; every other signal draws a warning. 'signals' are the
   * signals in the order they arrive, and the loop would wait forever
   * without a pager object among them.
   */
  method AwaitFault(signals: seq<Context>) returns (n: nat, warnings: nat)
    requires exists i | 0 <= i < |signals| :: signals[i].PagerObject?
    ensures n < |signals| && signals[n].PagerObject?
    ensures forall j | 0 <= j < n :: signals[j].OtherContext?
    ensures warnings == n
  {
    n, warnings := 0, 0;
    while !signals[n].PagerObject?
      invariant n < |signals| && warnings == n
      invariant forall j | 0 <= j < n :: signals[j].OtherContext?
      invariant exists i | n <= i < |signals| :: signals[i].PagerObject?
      decreases |signals| - n
    {
      warnings := warnings + 1;
      n := n + 1;
    }
  }

  /** The thread registers entry reads, in the order it reads them. */
  datatype RegId = FaultTlb | Ip | FaultAddr | FaultWrites | FaultSignal

  const READ_REGS: seq<RegId> := [FaultTlb, Ip, FaultAddr, FaultWrites, FaultSignal]

  /** The fault record the register values fill, field by field in the order of READ_REGS. */
  datatype Fault = Fault(tlb: nat, ip: nat, addr: nat, writes: bool, signal: nat)

  function FaultOf(values: seq<nat>): (f: Fault)
    requires |values| == |READ_REGS|
    ensures f.tlb == values[0] && f.ip == values[1] && f.addr == values[2]
    ensures f.writes <==> values[3] != 0
    ensures f.signal == values[4]
  {
    Fault(values[0], values[1], values[2], values[3] != 0, values[4])
  }

  /** What the pager object answered: zero when it provides 'mapping'. */
  datatype PagerAnswer = PagerAnswer(status: int, mapping: Mapping)

  /** How one pass of entry's outer loop ends. */
  datatype Outcome =
    | NoFaulter          // the pager object has no platform thread
    | RegistersUnreadable
    | PagerDeclined      // the pager object answered non-zero
    | MappingFailed      // apply_mapping returned -1
    | Escaped            // Double_insertion left the loop and ended the activation
    | Resolved           // fault_resolved was called

  /**
   * One pass of entry's outer loop after a pager object's signal arrived:
   * the faulting thread's fault registers are read, the pager object is
   * asked for a mapping, and the mapping goes into the table of the
   * faulting domain 'pd'. The thread is resumed only when every step
   * succeeded. 'regs' is what access_thread_regs read, 'pager' the pager
   * object, 'store' the backing store's answer should the slab grow.
   */
  method HandleFault(o: Context, pd: PlatformPd, regs: Option<seq<nat>>, pager: Fault -> PagerAnswer, store: StoreReply)
    returns (outcome: Outcome)
    requires o.PagerObject? && pd.Consistent()
    requires o.thread.Some? && regs.Some? && |regs.value| == |READ_REGS| && pager(FaultOf(regs.value)).status == 0 ==>
      var m := pager(FaultOf(regs.value)).mapping;
      && InsertAllowed(pd.tlb.State(), m.virtAddress, m.sizeLog2)
      && (store.StoreGranted? ==>
           Fits(pd.pslab.blocks, store.addr, pd.pslab.blockSize) && store.addr + DATA_SIZE <= ADDR_SPACE)
    modifies pd.tlb, pd.tlb.entries, pd.tlb.Repr, pd.pslab
    ensures pd.Consistent()
    ensures o.thread.None? ==> outcome == NoFaulter
    ensures o.thread.Some? && (regs.None? || |regs.value| != |READ_REGS|) ==> outcome == RegistersUnreadable
    ensures outcome != Resolved ==>
      pd.tlb.State() == old(pd.tlb.State()) && pd.pslab.blocks == old(pd.pslab.blocks)
    ensures outcome == Resolved <==>
      && o.thread.Some? && regs.Some? && |regs.value| == |READ_REGS|
      && var a := pager(FaultOf(regs.value));
      && a.status == 0
      && var p := Placement(old(pd.tlb.State()), a.mapping, old(pd.pslab.blocks), store, pd.memory);
      && RootInsert(old(pd.tlb.State()), a.mapping.virtAddress, a.mapping.physAddress,
                    a.mapping.sizeLog2, a.mapping.flags, p.0).0 == Inserted
    ensures outcome == PagerDeclined <==>
      o.thread.Some? && regs.Some? && |regs.value| == |READ_REGS| && pager(FaultOf(regs.value)).status != 0
    ensures outcome == MappingFailed <==>
      && o.thread.Some? && regs.Some? && |regs.value| == |READ_REGS|
      && var a := pager(FaultOf(regs.value));
      && a.status == 0
      && var p := Placement(old(pd.tlb.State()), a.mapping, old(pd.pslab.blocks), store, pd.memory);
      && RootInsert(old(pd.tlb.State()), a.mapping.virtAddress, a.mapping.physAddress,
                    a.mapping.sizeLog2, a.mapping.flags, p.0).0 == InsertResult.OutOfMemory
    ensures outcome == Escaped <==>
      && o.thread.Some? && regs.Some? && |regs.value| == |READ_REGS|
      && var a := pager(FaultOf(regs.value));
      && a.status == 0
      && var p := Placement(old(pd.tlb.State()), a.mapping, old(pd.pslab.blocks), store, pd.memory);
      && RootInsert(old(pd.tlb.State()), a.mapping.virtAddress, a.mapping.physAddress,
                    a.mapping.sizeLog2, a.mapping.flags, p.0).0 == DoubleInsertion
    ensures outcome == Resolved ==>
      && o.thread.Some? && regs.Some? && |regs.value| == |READ_REGS|
      && var a := pager(FaultOf(regs.value));
      && a.status == 0
      && var p := Placement(old(pd.tlb.State()), a.mapping, old(pd.pslab.blocks), store, pd.memory);
      && pd.tlb.State() == RootInsert(old(pd.tlb.State()), a.mapping.virtAddress, a.mapping.physAddress,
                                      a.mapping.sizeLog2, a.mapping.flags, p.0).1
      && pd.pslab.blocks == p.1
  {
    if o.thread.None? {
      return NoFaulter;
    }
    if regs.None? || |regs.value| != |READ_REGS| {
      return RegistersUnreadable;
    }
    var answer := pager(FaultOf(regs.value));
    if answer.status != 0 {
      return PagerDeclined;
    }
    PlacementOnFailure(pd.tlb.State(), answer.mapping, pd.pslab.blocks, pd.pslab.initialBase,
                       pd.pslab.blockSize, store, pd.memory);
    var r := ApplyMapping(pd, answer.mapping, store);
    match r
    case NoMemory => outcome := MappingFailed;
    case DoubleInsertionEscapes => outcome := Escaped;
    case Applied => outcome := Resolved;
  }
}
