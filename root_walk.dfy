/**
 * The cursor of Section_table::remove_region as the source computes it,
 * in 32-bit address arithmetic: after each descriptor the cursor moves to
 * the start of the next 1 MiB, (vo + 1 MiB) & ~(1 MiB - 1). In the last
 * MiB of the address space that sum wraps to zero. SectionTable.RemoveRegion
 * steps the cursor without wrapping.
 */
module RootWalk {
  import opened RootTables

  /** The source's cursor step on a 32-bit address. */
  function Step32(cur: nat): (r: nat)
    requires cur < ADDR_SPACE
    ensures r < ADDR_SPACE && r % SECTION_SIZE == 0
  {
    ((cur + SECTION_SIZE) % ADDR_SPACE) / SECTION_SIZE * SECTION_SIZE
  }

  /** The cursor after 'k' turns of the loop, starting from 'vo'. */
  function Cursor32(vo: nat, k: nat): (r: nat)
    requires vo < ADDR_SPACE
    ensures r < ADDR_SPACE
  {
    if k == 0 then vo else Step32(Cursor32(vo, k - 1))
  }

  /** Below the last MiB, a step goes to the start of the next descriptor. */
  lemma StepInside(cur: nat)
    requires cur < ADDR_SPACE - SECTION_SIZE
    ensures Step32(cur) == (cur / SECTION_SIZE + 1) * SECTION_SIZE
  {
  }

  /** From the last MiB, a step goes back to address zero. */
  lemma StepWraps(cur: nat)
    requires ADDR_SPACE - SECTION_SIZE <= cur < ADDR_SPACE
    ensures Step32(cur) == 0
  {
  }

  /** Every cursor the step produces lies at or below the start of the last MiB. */
  lemma StepBelowTop(cur: nat)
    requires cur < ADDR_SPACE
    ensures Step32(cur) <= ADDR_SPACE - SECTION_SIZE
  {
    var q := ((cur + SECTION_SIZE) % ADDR_SPACE) / SECTION_SIZE;
    assert q < ROOT_ENTRIES;
  }

  /**
   * The loop as written never stops for a region [vo, ve) that ends inside
   * the last MiB: the condition 'vo < ve' holds at every turn (the index
   * check accepts every 32-bit offset). The region [0xFFF0_0000,
   * 0xFFF0_1000) shows it, and its second turn already works on
   * descriptor 0, which lies outside the region.
   */
  lemma {:induction false} RemoveRegionNeverStops(vo: nat, ve: nat, k: nat)
    requires vo < ve < ADDR_SPACE && ADDR_SPACE - SECTION_SIZE < ve
    ensures Cursor32(vo, k) < ve
  {
    if k > 0 {
      StepBelowTop(Cursor32(vo, k - 1));
    }
  }

  /** The smallest such region: its second turn is at descriptor 0. */
  lemma LastPageRevisitsZero()
    ensures Cursor32(0xFFF0_0000, 1) == 0 && !Visited(0xFFF0_0000, 0xFFF0_1000, 0)
    ensures forall k: nat :: Cursor32(0xFFF0_0000, k) < 0xFFF0_1000
  {
    StepWraps(0xFFF0_0000);
    forall k: nat ensures Cursor32(0xFFF0_0000, k) < 0xFFF0_1000 {
      RemoveRegionNeverStops(0xFFF0_0000, 0xFFF0_1000, k);
    }
  }
}
