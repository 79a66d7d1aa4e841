/**
 * Short-descriptor translation-table entries of the ARMv7-A MMU, as the
 * base-hw kernel encodes and decodes them: the leaf ("small page", 4 KiB)
 * layout and the first-level layouts ("section", 1 MiB, and the link to a
 * second-level table). Every descriptor is a 32-bit word; the encoders are
 * pure functions and each states what the bit fields of its result decode to.
 */
module ArmDescriptors {

  /** The semantic mapping attributes the encoders read. */
  datatype PageFlags = PageFlags(
    writeable: bool,
    privileged: bool,
    executable: bool,
    global: bool,
    device: bool,
    cacheable: bool)

  /** The two descriptor layouts that carry permission and memory attributes. */
  datatype Layout = SmallPageLayout | SectionLayout

  function Bit(b: bool): bv32 { if b then 1 else 0 }

  // Field readers; B and C sit at bits 2 and 3 in both layouts.
  function XnOf(l: Layout, v: bv32): bool {
    match l
    case SmallPageLayout => v & 1 == 1
    case SectionLayout => (v >> 4) & 1 == 1
  }
  /** The 3-bit access-permission value: AP[1:0] joined with AP[2]. */
  function ApOf(l: Layout, v: bv32): bv32 {
    match l
    case SmallPageLayout => ((v >> 4) & 3) | (((v >> 9) & 1) << 2)
    case SectionLayout => ((v >> 10) & 3) | (((v >> 15) & 1) << 2)
  }
  function TexOf(l: Layout, v: bv32): bv32 {
    match l
    case SmallPageLayout => (v >> 6) & 7
    case SectionLayout => (v >> 12) & 7
  }
  function COf(v: bv32): bv32 { (v >> 3) & 1 }
  function BOf(v: bv32): bv32 { (v >> 2) & 1 }
  function SOf(l: Layout, v: bv32): bv32 {
    match l
    case SmallPageLayout => (v >> 10) & 1
    case SectionLayout => (v >> 16) & 1
  }
  function NgOf(l: Layout, v: bv32): bv32 {
    match l
    case SmallPageLayout => (v >> 11) & 1
    case SectionLayout => (v >> 17) & 1
  }

  /** The bits owned by the XN and AP fields of a layout. */
  function PermissionMask(l: Layout): bv32 {
    match l
    case SmallPageLayout => 0x231
    case SectionLayout => 0x8C10
  }

  /** The bits owned by TEX, C and B. */
  function AttributeMask(l: Layout): bv32 {
    match l
    case SmallPageLayout => 0x1CC
    case SectionLayout => 0x700C
  }

  /** True iff 'a' is a multiple of 2^'alignLog2'. */
  function Aligned(a: bv32, alignLog2: nat): bool
    requires alignLog2 < 32
  {
    a == (a >> alignLog2) << alignLog2
  }

  /**
   * The access-permission and execute-never bits for 'flags' in layout 'l',
   * with every other bit zero.
   */
  function AccessPermissionBits(l: Layout, flags: PageFlags): (v: bv32)
    ensures v & !PermissionMask(l) == 0
    ensures XnOf(l, v) == !flags.executable
    ensures flags.writeable && flags.privileged ==> ApOf(l, v) == 1
    ensures flags.writeable && !flags.privileged ==> ApOf(l, v) == 3
    ensures !flags.writeable && flags.privileged ==> ApOf(l, v) == 5
    ensures !flags.writeable && !flags.privileged ==> ApOf(l, v) == 2
  {
    var ap: bv32 :=
      if flags.writeable then (if flags.privileged then 1 else 3)
      else (if flags.privileged then 5 else 2);
    match l
    case SmallPageLayout => Bit(!flags.executable) | ((ap & 3) << 4) | (((ap >> 2) & 1) << 9)
    case SectionLayout => (Bit(!flags.executable) << 4) | ((ap & 3) << 10) | (((ap >> 2) & 1) << 15)
  }

  /**
   * The memory-region attributes (TEX, C, B) of the ARMv7 back end: device
   * memory is TEX=2 whatever else is set, cacheable memory TEX=5/B=1, and
   * everything else TEX=6/C=1. No other bit is set.
   */
  function MemoryRegionAttr(l: Layout, flags: PageFlags): (v: bv32)
    ensures v & !AttributeMask(l) == 0
    ensures flags.device ==> TexOf(l, v) == 2 && COf(v) == 0 && BOf(v) == 0
    ensures !flags.device && flags.cacheable ==> TexOf(l, v) == 5 && COf(v) == 0 && BOf(v) == 1
    ensures !flags.device && !flags.cacheable ==> TexOf(l, v) == 6 && COf(v) == 1 && BOf(v) == 0
  {
    var tex: bv32 := if flags.device then 2 else if flags.cacheable then 5 else 6;
    var cb: bv32 := if flags.device then 0 else if flags.cacheable then 4 else 8;
    match l
    case SmallPageLayout => (tex << 6) | cb
    case SectionLayout => (tex << 12) | cb
  }

  /*
   * Second-level (leaf) descriptors.
   */

  datatype LeafType = LeafFault | SmallPage

  /** Decodes the type of a leaf descriptor from bits 1..0. */
  function LeafTypeOf(v: bv32): LeafType {
    if v & 3 == 0 then LeafFault
    else if (v >> 1) & 1 == 1 then SmallPage
    else LeafFault
  }

  predicate LeafValid(v: bv32) { LeafTypeOf(v) != LeafFault }

  /** Marks a leaf descriptor as FAULT by clearing bits 1..0 only. */
  function LeafInvalidate(v: bv32): (r: bv32)
    ensures LeafTypeOf(r) == LeafFault
    ensures r & !3 == v & !3
  {
    v & !3
  }

  /** The small-page descriptor that maps a 4 KiB page to 'pa'. */
  function SmallPageCreate(flags: PageFlags, pa: bv32): (v: bv32)
    ensures LeafTypeOf(v) == SmallPage
    ensures v & 0xFFFF_F000 == pa & 0xFFFF_F000
    ensures SOf(SmallPageLayout, v) == 1
    ensures NgOf(SmallPageLayout, v) == Bit(!flags.global)
    ensures ApOf(SmallPageLayout, v) == ApOf(SmallPageLayout, AccessPermissionBits(SmallPageLayout, flags))
    ensures XnOf(SmallPageLayout, v) == !flags.executable
    ensures TexOf(SmallPageLayout, v) == TexOf(SmallPageLayout, MemoryRegionAttr(SmallPageLayout, flags))
    ensures COf(v) == COf(MemoryRegionAttr(SmallPageLayout, flags))
    ensures BOf(v) == BOf(MemoryRegionAttr(SmallPageLayout, flags))
  {
    var v := AccessPermissionBits(SmallPageLayout, flags)
      | MemoryRegionAttr(SmallPageLayout, flags)
      | (Bit(!flags.global) << 11)
      | (1 << 10)
      | (pa & 0xFFFF_F000);
    v | 2
  }

  /*
   * First-level descriptors.
   */

  datatype RootType = RootFault | PageTableLink | SectionMap

  /**
   * Decodes the type of a first-level descriptor: bits 1..0 equal to 0 is a
   * fault, equal to 1 a link; otherwise the two-bit value (bit 18, bit 1)
   * must be 1 for a section, and anything else is a fault.
   */
  function RootTypeOf(v: bv32): RootType {
    if v & 3 == 0 then RootFault
    else if v & 3 == 1 then PageTableLink
    else if ((v >> 1) & 1) | (((v >> 18) & 1) << 1) == 1 then SectionMap
    else RootFault
  }

  predicate RootValid(v: bv32) { RootTypeOf(v) != RootFault }

  /** Marks a first-level descriptor as FAULT by clearing bits 1..0 only. */
  function RootInvalidate(v: bv32): (r: bv32)
    ensures RootTypeOf(r) == RootFault
    ensures r & !3 == v & !3
  {
    v & !3
  }

  /** The physical base of the second-level table a link descriptor names. */
  function LinkBase(v: bv32): bv32 { v & 0xFFFF_FC00 }

  /** The domain field, bits 8..5, of a link or section descriptor. */
  function DomainOf(v: bv32): bv32 { (v >> 5) & 0xF }

  /** The link descriptor to the second-level table at physical address 'pt'. */
  function PageTableDescriptorCreate(pt: bv32): (v: bv32)
    ensures RootTypeOf(v) == PageTableLink
    ensures DomainOf(v) == 0
    ensures LinkBase(v) == pt & 0xFFFF_FC00
    ensures Aligned(pt, 10) ==> LinkBase(v) == pt
    ensures v & 0x21C == 0  // bits 2..4 and 9 stay clear
  {
    (pt & 0xFFFF_FC00) | 1
  }

  /** The section descriptor that maps a 1 MiB region to 'pa'. */
  function SectionCreate(flags: PageFlags, pa: bv32): (v: bv32)
    ensures RootTypeOf(v) == SectionMap
    ensures v & 0xFFF0_0000 == pa & 0xFFF0_0000
    ensures DomainOf(v) == 0
    ensures SOf(SectionLayout, v) == 1
    ensures NgOf(SectionLayout, v) == Bit(!flags.global)
    ensures ApOf(SectionLayout, v) == ApOf(SectionLayout, AccessPermissionBits(SectionLayout, flags))
    ensures XnOf(SectionLayout, v) == !flags.executable
    ensures TexOf(SectionLayout, v) == TexOf(SectionLayout, MemoryRegionAttr(SectionLayout, flags))
    ensures COf(v) == COf(MemoryRegionAttr(SectionLayout, flags))
    ensures BOf(v) == BOf(MemoryRegionAttr(SectionLayout, flags))
    ensures v & 0x0008_0201 == 0  // bits 0, 9 and 19 stay clear
  {
    var v := AccessPermissionBits(SectionLayout, flags)
      | MemoryRegionAttr(SectionLayout, flags)
      | (1 << 16)
      | (Bit(!flags.global) << 17)
      | (pa & 0xFFF0_0000);
    (v & !(2 | (1 << 18))) | 2
  }

  /** A section descriptor never decodes as a link, and vice versa. */
  lemma SectionIsNotLink(flags: PageFlags, pa: bv32, d: bv32)
    requires RootTypeOf(d) == PageTableLink
    ensures d != SectionCreate(flags, pa)
  {
  }
}
