/**
 * The second-level translation table (Arm::Page_table): 256 small-page
 * descriptors, each translating 4 KiB of the 1 MiB the table covers. The
 * functions give the value of the table after each operation; the class
 * keeps the descriptors in an array and is proved against them.
 */
module PageTables {
  import opened Wrappers
  import opened ArmDescriptors

  const ENTRIES: nat := 256
  const PAGE_SIZE_LOG2: nat := 12
  const PAGE_SIZE: nat := 0x1000
  /** The largest offset the table translates: 255 * 4 KiB + (4 KiB - 1). */
  const MAX_VIRT_OFFSET: nat := 0xF_FFFF

  /** The table the constructor produces: every descriptor zero. */
  function EmptyLeaf(): (s: seq<bv32>)
    ensures |s| == ENTRIES
    ensures LeafEmpty(s)
  {
    seq(ENTRIES, _ => 0)
  }

  /** The table holds no valid descriptor. */
  predicate LeafEmpty(s: seq<bv32>) {
    forall j | 0 <= j < |s| :: !LeafValid(s[j])
  }

  /**
   * The descriptor index for a virtual offset, or None when the offset lies
   * beyond the table.
   */
  function IndexByVo(vo: nat): (r: Option<nat>)
    ensures r.Some? <==> vo <= MAX_VIRT_OFFSET
    ensures r.Some? ==> r.value < ENTRIES && r.value * PAGE_SIZE <= vo < (r.value + 1) * PAGE_SIZE
  {
    if vo > MAX_VIRT_OFFSET then None else Some(vo / PAGE_SIZE)
  }

  /**
   * The table after inserting a 4 KiB translation of offset 'vo' to 'pa', or
   * None when another valid translation already occupies that descriptor
   * (the table then stays as it was).
   */
  function LeafInsert(s: seq<bv32>, vo: nat, pa: bv32, flags: PageFlags): (r: Option<seq<bv32>>)
    requires |s| == ENTRIES && vo <= MAX_VIRT_OFFSET
    ensures r.None? ==> LeafValid(s[vo / PAGE_SIZE]) && s[vo / PAGE_SIZE] != SmallPageCreate(flags, pa)
    ensures r.Some? ==> |r.value| == ENTRIES && r.value[vo / PAGE_SIZE] == SmallPageCreate(flags, pa)
    ensures r.Some? ==> forall j | 0 <= j < ENTRIES && j != vo / PAGE_SIZE :: r.value[j] == s[j]
  {
    var i := vo / PAGE_SIZE;
    var d := SmallPageCreate(flags, pa);
    if LeafValid(s[i]) && s[i] != d then None else Some(s[i := d])
  }

  /** Inserting the same translation a second time succeeds and changes nothing. */
  lemma LeafInsertIdempotent(s: seq<bv32>, vo: nat, pa: bv32, flags: PageFlags)
    requires |s| == ENTRIES && vo <= MAX_VIRT_OFFSET
    requires LeafInsert(s, vo, pa, flags).Some?
    ensures LeafInsert(LeafInsert(s, vo, pa, flags).value, vo, pa, flags)
         == LeafInsert(s, vo, pa, flags)
  {
    var s' := LeafInsert(s, vo, pa, flags).value;
    assert s'[vo / PAGE_SIZE := SmallPageCreate(flags, pa)] == s';
  }

  /** Descriptor 'j' covers a 4 KiB page that intersects [lo, hi). */
  predicate PageTouched(lo: nat, hi: nat, j: nat) {
    lo / PAGE_SIZE <= j && j * PAGE_SIZE < hi
  }

  /** A descriptor after the removal loop visited it: small pages are invalidated. */
  function Removed(v: bv32): bv32 {
    if LeafTypeOf(v) == SmallPage then LeafInvalidate(v) else v
  }

  /**
   * The table after removing every translation whose page intersects
   * [lo, hi); pages past the end of the table are ignored.
   */
  function LeafRemove(s: seq<bv32>, lo: nat, hi: nat): (r: seq<bv32>)
    ensures |r| == |s|
    ensures forall j | 0 <= j < |s| && PageTouched(lo, hi, j) :: !LeafValid(r[j])
    ensures forall j | 0 <= j < |s| && !PageTouched(lo, hi, j) :: r[j] == s[j]
    ensures forall j | 0 <= j < |s| && !LeafValid(s[j]) :: r[j] == s[j]
  {
    seq(|s|, j requires 0 <= j < |s| => if PageTouched(lo, hi, j) then Removed(s[j]) else s[j])
  }

  /** Arm::Page_table: the descriptors of one second-level table. */
  class PageTable {
    const entries: array<bv32>

    /** A new table starts with every descriptor zero, so it is empty. */
    constructor ()
      ensures entries.Length == ENTRIES && fresh(entries)
      ensures entries[..] == EmptyLeaf()
      ensures LeafEmpty(entries[..])
    {
      entries := new bv32[ENTRIES](_ => 0);
    }

    /**
     * Inserts one 4 KiB translation; 'ok' is false for a double insertion,
     * in which case the table is unchanged.
     */
    method InsertTranslation(vo: nat, pa: bv32, sizeLog2: nat, flags: PageFlags) returns (ok: bool)
      requires entries.Length == ENTRIES
      requires IndexByVo(vo).Some? && sizeLog2 == PAGE_SIZE_LOG2
      modifies entries
      ensures ok == LeafInsert(old(entries[..]), vo, pa, flags).Some?
      ensures entries[..] == if ok then LeafInsert(old(entries[..]), vo, pa, flags).value else old(entries[..])
    {
      var i := IndexByVo(vo).value;
      var d := SmallPageCreate(flags, pa);
      if LeafValid(entries[i]) && entries[i] != d {
        return false;
      }
      entries[i] := d;
      ok := true;
    }

    /**
     * Invalidates every small page that intersects [vo, vo + size); the
     * region must be non-empty and must not wrap around 2^32.
     */
    method RemoveRegion(vo: nat, size: nat)
      requires entries.Length == ENTRIES
      requires 0 < size && vo + size < 0x1_0000_0000
      modifies entries
      ensures entries[..] == LeafRemove(old(entries[..]), vo, vo + size)
    {
      var ve := vo + size;
      var cur := vo;
      ghost var done: nat := 0;
      while cur < ve && IndexByVo(cur).Some?
        invariant cur == if done == 0 then vo else (vo / PAGE_SIZE + done) * PAGE_SIZE
        invariant vo <= cur
        invariant done > 0 ==> (vo / PAGE_SIZE + done - 1) * PAGE_SIZE < ve
        invariant forall j | 0 <= j < ENTRIES ::
          entries[j] == if vo / PAGE_SIZE <= j < vo / PAGE_SIZE + done then Removed(old(entries[j])) else old(entries[j])
        decreases ve - cur
      {
        var i := IndexByVo(cur).value;
        assert i == vo / PAGE_SIZE + done;
        if LeafTypeOf(entries[i]) == SmallPage {
          entries[i] := LeafInvalidate(entries[i]);
        }
        cur := (cur / PAGE_SIZE + 1) * PAGE_SIZE;
        done := done + 1;
      }
      forall j | 0 <= j < ENTRIES
        ensures entries[j] == LeafRemove(old(entries[..]), vo, ve)[j]
      {
        if PageTouched(vo, ve, j) {
          assert j < vo / PAGE_SIZE + done;
        } else if vo / PAGE_SIZE <= j {
          assert ve <= j * PAGE_SIZE;
          assert j >= vo / PAGE_SIZE + done;
        }
      }
    }

    /** True iff no descriptor of the table is valid. */
    method Empty() returns (e: bool)
      requires entries.Length == ENTRIES
      ensures e == LeafEmpty(entries[..])
    {
      var i := 0;
      while i < ENTRIES
        invariant 0 <= i <= ENTRIES
        invariant forall j | 0 <= j < i :: !LeafValid(entries[j])
      {
        if LeafValid(entries[i]) {
          return false;
        }
        i := i + 1;
      }
      return true;
    }
  }
}
