/**
 * The value of one address space's translation tables: the 4096 first-level
 * descriptors of Arm::Section_table and, for every first-level descriptor
 * that links a second-level table, the descriptors of that table. The
 * functions give the tables after Section_table::insert_translation and
 * Section_table::remove_region; the class in section_table.dfy is proved
 * against them and the lemmas in table_lemmas.dfy state what they promise.
 */
module RootTables {
  import opened Wrappers
  import opened ArmDescriptors
  import opened PageTables

  const ROOT_ENTRIES: nat := 4096
  const SECTION_SIZE_LOG2: nat := 20
  const SECTION_SIZE: nat := 0x10_0000
  /** One past the largest virtual address a 32-bit table translates. */
  const ADDR_SPACE: nat := 0x1_0000_0000

  /** The physical address of a second-level table. */
  datatype Phys = Phys(addr: bv32)

  /**
   * 'root' holds the first-level descriptors; 'leaves[i]' holds the
   * descriptors of the second-level table that 'root[i]' links, and means
   * nothing while 'root[i]' is no link.
   */
  datatype Tables = Tables(root: seq<bv32>, leaves: seq<seq<bv32>>)

  predicate IsLink(d: bv32) { RootTypeOf(d) == PageTableLink }

  /** The physical base of the table a link descriptor names. */
  function LinkKey(d: bv32): Phys { Phys(LinkBase(d)) }

  predicate Shaped(t: Tables) {
    && |t.root| == ROOT_ENTRIES
    && |t.leaves| == ROOT_ENTRIES
    && (forall i | 0 <= i < ROOT_ENTRIES :: |t.leaves[i]| == ENTRIES)
  }

  /** Descriptors 'i' and 'j' of 'root', when both are links, link different tables. */
  predicate DistinctLinks(root: seq<bv32>, i: int, j: int) {
    0 <= i < |root| && 0 <= j < |root| && i != j && IsLink(root[i]) && IsLink(root[j])
    ==> LinkKey(root[i]) != LinkKey(root[j])
  }

  /**
   * The ownership invariant: no second-level table is linked from two
   * descriptors, and every linked table holds at least one valid descriptor
   * (an emptied table is unlinked and returned at once).
   */
  ghost predicate WellFormed(t: Tables) {
    && Shaped(t)
    && (forall i | 0 <= i < ROOT_ENTRIES && IsLink(t.root[i]) :: !LeafEmpty(t.leaves[i]))
    && (forall i, j | 0 <= i < ROOT_ENTRIES && 0 <= j < ROOT_ENTRIES :: DistinctLinks(t.root, i, j))
  }

  /** Some descriptor of 't' links the second-level table at 'k'. */
  ghost predicate Owns(t: Tables, k: Phys) {
    exists i | 0 <= i < |t.root| :: IsLink(t.root[i]) && LinkKey(t.root[i]) == k
  }

  /**
   * The tables as the hardware sees them: the second-level descriptors of a
   * descriptor that is no link are unreachable and read as an empty table.
   */
  function Visible(t: Tables): (r: Tables)
    requires Shaped(t)
    ensures Shaped(r) && r.root == t.root
    ensures forall i | 0 <= i < ROOT_ENTRIES && IsLink(t.root[i]) :: r.leaves[i] == t.leaves[i]
  {
    Tables(t.root, seq(ROOT_ENTRIES, i requires 0 <= i < ROOT_ENTRIES =>
      if IsLink(t.root[i]) then t.leaves[i] else EmptyLeaf()))
  }

  /** What the tables translate one virtual address to. */
  datatype Translation = Unmapped | SmallPageAt(desc: bv32) | SectionAt(desc: bv32)

  function SectionIndex(va: nat): nat { va / SECTION_SIZE }
  function LeafIndex(va: nat): nat { (va % SECTION_SIZE) / PAGE_SIZE }

  function Lookup(t: Tables, va: nat): Translation
    requires Shaped(t) && va < ADDR_SPACE
  {
    var i := SectionIndex(va);
    var d := t.root[i];
    match RootTypeOf(d)
    case SectionMap => SectionAt(d)
    case PageTableLink =>
      var e := t.leaves[i][LeafIndex(va)];
      if LeafValid(e) then SmallPageAt(e) else Unmapped
    case RootFault => Unmapped
  }

  /** The tables of a fresh Section_table: every descriptor zero, nothing linked. */
  function EmptyTables(): (t: Tables)
    ensures WellFormed(t)
    ensures forall va: nat | va < ADDR_SPACE :: Lookup(t, va) == Unmapped
    ensures forall k :: !Owns(t, k)
  {
    Tables(seq(ROOT_ENTRIES, _ => 0), seq(ROOT_ENTRIES, _ => EmptyLeaf()))
  }

  /*
   * Insertion.
   */

  /**
   * What the slab allocator answered when the table asked it for memory for
   * a new second-level table: there was no slab, the slab could not grow, or
   * it handed out the slot whose physical base is 'base'.
   */
  datatype SlabReply = NoSlab | SlabOutOfMemory | SlabSlot(base: bv32)

  datatype InsertResult = Inserted | DoubleInsertion | OutOfMemory

  /**
   * What insert_translation asserts: the offset is inside the table, the
   * size is 4 KiB or 1 MiB (the root accepts up to 1 MiB, the leaf asserts
   * 4 KiB), and a 4 KiB translation does not land on a section descriptor.
   */
  predicate InsertAllowed(t: Tables, vo: nat, sizeLog2: nat) {
    && Shaped(t)
    && vo < ADDR_SPACE
    && (sizeLog2 == PAGE_SIZE_LOG2 || sizeLog2 == SECTION_SIZE_LOG2)
    && (sizeLog2 < SECTION_SIZE_LOG2 ==> RootTypeOf(t.root[SectionIndex(vo)]) != SectionMap)
  }

  /**
   * What the slab guarantees of a slot it hands out: it is 1 KiB aligned
   * and no linked table lives there.
   */
  predicate FreshSlot(t: Tables, reply: SlabReply) {
    reply.SlabSlot? ==>
      && Aligned(reply.base, 10)
      && forall i | 0 <= i < |t.root| && IsLink(t.root[i]) :: LinkBase(t.root[i]) != reply.base
  }

  /** The insertion needs a new second-level table (and so asks the slab). */
  predicate NeedsLeaf(t: Tables, vo: nat, sizeLog2: nat)
    requires Shaped(t) && vo < ADDR_SPACE
  {
    sizeLog2 < SECTION_SIZE_LOG2 && RootTypeOf(t.root[SectionIndex(vo)]) == RootFault
  }

  function RootInsert(t: Tables, vo: nat, pa: bv32, sizeLog2: nat, flags: PageFlags, reply: SlabReply)
    : (r: (InsertResult, Tables))
    requires InsertAllowed(t, vo, sizeLog2)
    ensures r.0 != Inserted ==> r.1 == t
    ensures Shaped(r.1)
  {
    var i := SectionIndex(vo);
    if sizeLog2 < SECTION_SIZE_LOG2 then
      match RootTypeOf(t.root[i])
      case RootFault =>
        (match reply
         case NoSlab => (OutOfMemory, t)
         case SlabOutOfMemory => (OutOfMemory, t)
         case SlabSlot(base) =>
           var leaf := LeafInsert(EmptyLeaf(), vo % SECTION_SIZE, pa, flags).value;
           (Inserted, Tables(t.root[i := PageTableDescriptorCreate(base)], t.leaves[i := leaf])))
      case PageTableLink =>
        (match LeafInsert(t.leaves[i], vo % SECTION_SIZE, pa, flags)
         case None => (DoubleInsertion, t)
         case Some(leaf) => (Inserted, t.(leaves := t.leaves[i := leaf])))
    else
      var d := SectionCreate(flags, pa);
      if RootValid(t.root[i]) && t.root[i] != d then (DoubleInsertion, t)
      else (Inserted, t.(root := t.root[i := d]))
  }

  /*
   * Removal.
   */

  /**
   * The first-level descriptors the removal loop visits for the region
   * [vo, ve): from the one holding 'vo' up to the one holding 've - 1'.
   */
  predicate Visited(vo: nat, ve: nat, i: nat) {
    SectionIndex(vo) <= i && i * SECTION_SIZE < ve
  }

  /**
   * Where the part of descriptor 'i''s 1 MiB that the loop hands to the
   * second-level table starts: at the offset of 'vo' for the first visited
   * descriptor, at zero for every later one. The part ends at ve - i * 1 MiB.
   */
  function Start(vo: nat, i: nat): nat {
    if i == SectionIndex(vo) then vo % SECTION_SIZE else 0
  }

  /** A pass over link descriptor 'd' whose table is 'leaf' empties the table. */
  predicate Reclaims(d: bv32, leaf: seq<bv32>, lo: nat, hi: nat) {
    IsLink(d) && LeafEmpty(LeafRemove(leaf, lo, hi))
  }

  /** The pass over visited descriptor 'i' empties its table, which is then returned. */
  predicate ReclaimedAt(t: Tables, vo: nat, ve: nat, i: nat)
    requires Shaped(t) && i < ROOT_ENTRIES
  {
    Visited(vo, ve, i) && Reclaims(t.root[i], t.leaves[i], Start(vo, i), ve - i * SECTION_SIZE)
  }

  /**
   * The first-level descriptor after one pass over it: a section is
   * invalidated, a link is invalidated when its table became empty, a fault
   * stays.
   */
  function RootAfter(d: bv32, leaf: seq<bv32>, lo: nat, hi: nat): bv32 {
    match RootTypeOf(d)
    case PageTableLink => if Reclaims(d, leaf, lo, hi) then RootInvalidate(d) else d
    case SectionMap => RootInvalidate(d)
    case RootFault => d
  }

  /** The linked table after one pass: the part [lo, hi) is removed from it. */
  function LeafAfter(d: bv32, leaf: seq<bv32>, lo: nat, hi: nat): seq<bv32> {
    if IsLink(d) then LeafRemove(leaf, lo, hi) else leaf
  }

  /** The tables after the removal loop for [vo, ve) went over every visited descriptor. */
  function RootRemove(t: Tables, vo: nat, ve: nat): (r: Tables)
    requires Shaped(t)
    ensures Shaped(r)
  {
    Tables(
      seq(ROOT_ENTRIES, i requires 0 <= i < ROOT_ENTRIES =>
        if Visited(vo, ve, i) then RootAfter(t.root[i], t.leaves[i], Start(vo, i), ve - i * SECTION_SIZE)
        else t.root[i]),
      seq(ROOT_ENTRIES, i requires 0 <= i < ROOT_ENTRIES =>
        if Visited(vo, ve, i) then LeafAfter(t.root[i], t.leaves[i], Start(vo, i), ve - i * SECTION_SIZE)
        else t.leaves[i]))
  }

  /**
   * The second-level tables the loop returns to the slab among the first
   * 'n' descriptors, in the order it returns them.
   */
  function Released(t: Tables, vo: nat, ve: nat, n: nat): seq<Phys>
    requires Shaped(t) && n <= ROOT_ENTRIES
  {
    if n == 0 then []
    else
      var i := n - 1;
      Released(t, vo, ve, i) + if ReclaimedAt(t, vo, ve, i) then [LinkKey(t.root[i])] else []
  }
}
