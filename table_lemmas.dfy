/**
 * What Section_table::insert_translation and Section_table::remove_region
 * promise, stated on the translation the tables give each virtual address
 * (RootTables.Lookup), on the ownership invariant and on the second-level
 * tables handed back to the slab.
 */
module TableLemmas {
  import opened Wrappers
  import opened ArmDescriptors
  import opened PageTables
  import opened RootTables

  /** A virtual address splits into its section index and its leaf index. */
  lemma SplitAddress(va: nat)
    requires va < ADDR_SPACE
    ensures SectionIndex(va) < ROOT_ENTRIES && LeafIndex(va) < ENTRIES
    ensures va / PAGE_SIZE == SectionIndex(va) * ENTRIES + LeafIndex(va)
    ensures (va / PAGE_SIZE) * PAGE_SIZE == SectionIndex(va) * SECTION_SIZE + LeafIndex(va) * PAGE_SIZE
  {
  }

  /*
   * Insertion.
   */

  /** The addresses a translation of 2^'sizeLog2' bytes at 'vo' covers. */
  predicate Covers(vo: nat, sizeLog2: nat, va: nat) {
    if sizeLog2 == PAGE_SIZE_LOG2 then va / PAGE_SIZE == vo / PAGE_SIZE
    else SectionIndex(va) == SectionIndex(vo)
  }

  /** The descriptor an insertion installs. */
  function Installed(pa: bv32, sizeLog2: nat, flags: PageFlags): Translation {
    if sizeLog2 == PAGE_SIZE_LOG2 then SmallPageAt(SmallPageCreate(flags, pa))
    else SectionAt(SectionCreate(flags, pa))
  }

  /**
   * After a successful insertion every address the translation covers maps
   * to the new descriptor, and every other address translates as before;
   * a failed insertion changes no translation.
   */
  lemma InsertLookup(t: Tables, vo: nat, pa: bv32, sizeLog2: nat, flags: PageFlags, reply: SlabReply, va: nat)
    requires InsertAllowed(t, vo, sizeLog2) && va < ADDR_SPACE
    ensures var r := RootInsert(t, vo, pa, sizeLog2, flags, reply);
      Lookup(r.1, va) == if r.0 == Inserted && Covers(vo, sizeLog2, va) then Installed(pa, sizeLog2, flags)
                         else Lookup(t, va)
  {
    SplitAddress(va);
    SplitAddress(vo);
  }

  /**
   * An insertion fails as a double insertion exactly when the target holds
   * a different valid translation: for a page, a valid small page other
   * than the new one; for a section, any valid first-level descriptor
   * other than the new one (a link to a second-level table included).
   */
  lemma InsertConflict(t: Tables, vo: nat, pa: bv32, sizeLog2: nat, flags: PageFlags, reply: SlabReply)
    requires InsertAllowed(t, vo, sizeLog2)
    ensures RootInsert(t, vo, pa, sizeLog2, flags, reply).0 == DoubleInsertion <==>
      if sizeLog2 == PAGE_SIZE_LOG2 then
        Lookup(t, vo).SmallPageAt? && Lookup(t, vo).desc != SmallPageCreate(flags, pa)
      else
        RootValid(t.root[SectionIndex(vo)]) && t.root[SectionIndex(vo)] != SectionCreate(flags, pa)
  {
    SplitAddress(vo);
  }

  /**
   * An insertion runs out of memory exactly when it needs a new
   * second-level table and the slab did not hand out a slot.
   */
  lemma InsertOutOfMemory(t: Tables, vo: nat, pa: bv32, sizeLog2: nat, flags: PageFlags, reply: SlabReply)
    requires InsertAllowed(t, vo, sizeLog2)
    ensures RootInsert(t, vo, pa, sizeLog2, flags, reply).0 == OutOfMemory <==>
      NeedsLeaf(t, vo, sizeLog2) && !reply.SlabSlot?
  {
  }

  /**
   * The tables link one more second-level table, the slab's slot, exactly
   * when the insertion needed one and got it; no table is ever unlinked.
   */
  lemma InsertArena(t: Tables, vo: nat, pa: bv32, sizeLog2: nat, flags: PageFlags, reply: SlabReply, k: Phys)
    requires InsertAllowed(t, vo, sizeLog2) && FreshSlot(t, reply)
    ensures Owns(RootInsert(t, vo, pa, sizeLog2, flags, reply).1, k) <==>
      Owns(t, k) || (NeedsLeaf(t, vo, sizeLog2) && reply.SlabSlot? && k == Phys(reply.base))
  {
    var r := RootInsert(t, vo, pa, sizeLog2, flags, reply);
    var i := SectionIndex(vo);
    if Owns(t, k) {
      InsertKeepsLinks(t, vo, pa, sizeLog2, flags, reply, k);
    }
    if NeedsLeaf(t, vo, sizeLog2) && reply.SlabSlot? && k == Phys(reply.base) {
      assert IsLink(r.1.root[i]) && LinkKey(r.1.root[i]) == k;
    }
    if Owns(r.1, k) {
      var j :| 0 <= j < |r.1.root| && IsLink(r.1.root[j]) && LinkKey(r.1.root[j]) == k;
      if j != i || !(NeedsLeaf(t, vo, sizeLog2) && reply.SlabSlot?) {
        assert IsLink(t.root[j]) && LinkKey(t.root[j]) == k;
      }
    }
  }

  /** An insertion never unlinks a table. */
  lemma InsertKeepsLinks(t: Tables, vo: nat, pa: bv32, sizeLog2: nat, flags: PageFlags, reply: SlabReply, k: Phys)
    requires InsertAllowed(t, vo, sizeLog2) && Owns(t, k)
    ensures Owns(RootInsert(t, vo, pa, sizeLog2, flags, reply).1, k)
  {
    var r := RootInsert(t, vo, pa, sizeLog2, flags, reply);
    var i := SectionIndex(vo);
    var j :| 0 <= j < |t.root| && IsLink(t.root[j]) && LinkKey(t.root[j]) == k;
    if sizeLog2 == SECTION_SIZE_LOG2 && j == i {
      SectionIsNotLink(flags, pa, t.root[i]);
    }
    assert IsLink(r.1.root[j]) && LinkKey(r.1.root[j]) == k;
  }

  /**
   * Repeating a successful insertion succeeds, changes nothing and takes
   * no memory from the slab, whatever the slab would answer.
   */
  lemma InsertIdempotent(t: Tables, vo: nat, pa: bv32, sizeLog2: nat, flags: PageFlags, reply: SlabReply, reply2: SlabReply)
    requires InsertAllowed(t, vo, sizeLog2)
    requires RootInsert(t, vo, pa, sizeLog2, flags, reply).0 == Inserted
    ensures var t' := RootInsert(t, vo, pa, sizeLog2, flags, reply).1;
      InsertAllowed(t', vo, sizeLog2) && !NeedsLeaf(t', vo, sizeLog2)
      && RootInsert(t', vo, pa, sizeLog2, flags, reply2) == (Inserted, t')
  {
    var t' := RootInsert(t, vo, pa, sizeLog2, flags, reply).1;
    var i := SectionIndex(vo);
    if sizeLog2 == PAGE_SIZE_LOG2 {
      LeafInsertIdempotent(if NeedsLeaf(t, vo, sizeLog2) then EmptyLeaf() else t.leaves[i], vo % SECTION_SIZE, pa, flags);
      assert t'.leaves[i := t'.leaves[i]] == t'.leaves;
    } else {
      assert t'.root[i := t'.root[i]] == t'.root;
    }
  }

  /** Insertion keeps the ownership invariant, given a fresh slot from the slab. */
  lemma InsertWellFormed(t: Tables, vo: nat, pa: bv32, sizeLog2: nat, flags: PageFlags, reply: SlabReply)
    requires InsertAllowed(t, vo, sizeLog2) && FreshSlot(t, reply) && WellFormed(t)
    ensures WellFormed(RootInsert(t, vo, pa, sizeLog2, flags, reply).1)
  {
    var r := RootInsert(t, vo, pa, sizeLog2, flags, reply);
    var i := SectionIndex(vo);
    if r.0 == Inserted {
      forall a, b | 0 <= a < ROOT_ENTRIES && 0 <= b < ROOT_ENTRIES
        ensures DistinctLinks(r.1.root, a, b)
      {
        assert DistinctLinks(t.root, a, b);
        if sizeLog2 == SECTION_SIZE_LOG2 && (a == i || b == i) {
          assert !IsLink(r.1.root[i]);
        }
      }
      if sizeLog2 == PAGE_SIZE_LOG2 {
        assert LeafValid(r.1.leaves[i][(vo % SECTION_SIZE) / PAGE_SIZE]);
      }
    }
  }

  /*
   * Removal.
   */

  /** The 4 KiB page holding 'va' intersects [vo, ve). */
  predicate PageHit(vo: nat, ve: nat, va: nat) {
    vo / PAGE_SIZE <= va / PAGE_SIZE && (va / PAGE_SIZE) * PAGE_SIZE < ve
  }

  /** The 1 MiB section holding 'va' intersects [vo, ve). */
  predicate SectionHit(vo: nat, ve: nat, va: nat) {
    SectionIndex(vo) <= SectionIndex(va) && SectionIndex(va) * SECTION_SIZE < ve
  }

  /**
   * The translation of 'va' once [vo, ve) is removed: a page that
   * intersects the region is unmapped, so is a whole section mapping that
   * intersects it, and every other address translates as before.
   */
  function AfterRemoval(t: Tables, vo: nat, ve: nat, va: nat): Translation
    requires Shaped(t) && va < ADDR_SPACE
  {
    if PageHit(vo, ve, va) || (SectionHit(vo, ve, va) && Lookup(t, va).SectionAt?) then Unmapped
    else Lookup(t, va)
  }

  /**
   * The loop visits the descriptor of 'va' exactly when the region meets its
   * section, and there hands the second-level table a part that touches the
   * page of 'va' exactly when the region meets that page.
   */
  lemma HitArithmetic(vo: nat, ve: nat, va: nat)
    requires va < ADDR_SPACE
    ensures var i := SectionIndex(va);
      && Visited(vo, ve, i) == SectionHit(vo, ve, va)
      && (PageHit(vo, ve, va) ==> SectionHit(vo, ve, va))
      && (Visited(vo, ve, i) ==>
            PageTouched(Start(vo, i), ve - i * SECTION_SIZE, LeafIndex(va)) == PageHit(vo, ve, va))
  {
    SplitAddress(va);
  }

  /** Removal leaves exactly the translations AfterRemoval describes. */
  lemma RemoveLookup(t: Tables, vo: nat, ve: nat, va: nat)
    requires Shaped(t) && va < ADDR_SPACE
    ensures Lookup(RootRemove(t, vo, ve), va) == AfterRemoval(t, vo, ve, va)
  {
    var r := RootRemove(t, vo, ve);
    var i := SectionIndex(va);
    SplitAddress(va);
    HitArithmetic(vo, ve, va);
    assert r.root[i] == if Visited(vo, ve, i) then RootAfter(t.root[i], t.leaves[i], Start(vo, i), ve - i * SECTION_SIZE) else t.root[i];
    assert r.leaves[i] == if Visited(vo, ve, i) then LeafAfter(t.root[i], t.leaves[i], Start(vo, i), ve - i * SECTION_SIZE) else t.leaves[i];
  }

  /** Removal keeps the ownership invariant: no emptied table stays linked. */
  lemma RemoveWellFormed(t: Tables, vo: nat, ve: nat)
    requires WellFormed(t)
    ensures WellFormed(RootRemove(t, vo, ve))
  {
    var r := RootRemove(t, vo, ve);
    forall a, b | 0 <= a < ROOT_ENTRIES && 0 <= b < ROOT_ENTRIES
      ensures DistinctLinks(r.root, a, b)
    {
      assert DistinctLinks(t.root, a, b);
    }
  }

  ghost predicate NoDuplicates(s: seq<Phys>) {
    forall a, b | 0 <= a < b < |s| :: s[a] != s[b]
  }

  /**
   * The tables returned among the first 'n' descriptors are the ones linked
   * from a visited descriptor whose table the pass emptied; with distinct
   * links each is returned once.
   */
  lemma {:induction false} ReleasedPrefix(t: Tables, vo: nat, ve: nat, n: nat)
    requires Shaped(t) && n <= ROOT_ENTRIES
    ensures forall k :: k in Released(t, vo, ve, n) <==>
      exists i | 0 <= i < n :: ReclaimedAt(t, vo, ve, i) && LinkKey(t.root[i]) == k
    ensures WellFormed(t) ==> NoDuplicates(Released(t, vo, ve, n))
  {
    if n > 0 {
      var i := n - 1;
      var s := Released(t, vo, ve, i);
      ReleasedPrefix(t, vo, ve, i);
      forall k
        ensures k in Released(t, vo, ve, n) <==>
          exists j | 0 <= j < n :: ReclaimedAt(t, vo, ve, j) && LinkKey(t.root[j]) == k
      {
        if exists j | 0 <= j < n :: ReclaimedAt(t, vo, ve, j) && LinkKey(t.root[j]) == k {
          var j :| 0 <= j < n && ReclaimedAt(t, vo, ve, j) && LinkKey(t.root[j]) == k;
          if j < i {
            assert k in s;
          }
        }
      }
      if WellFormed(t) && ReclaimedAt(t, vo, ve, i) {
        forall j | 0 <= j < i && ReclaimedAt(t, vo, ve, j)
          ensures LinkKey(t.root[j]) != LinkKey(t.root[i])
        {
          assert DistinctLinks(t.root, j, i);
        }
        assert LinkKey(t.root[i]) !in s;
      }
    }
  }

  /**
   * The tables the loop returns to the slab are exactly the ones it
   * unlinked, each returned once.
   */
  lemma RemoveReleases(t: Tables, vo: nat, ve: nat)
    requires WellFormed(t)
    ensures NoDuplicates(Released(t, vo, ve, ROOT_ENTRIES))
    ensures forall k :: k in Released(t, vo, ve, ROOT_ENTRIES) <==> Owns(t, k) && !Owns(RootRemove(t, vo, ve), k)
  {
    ReleasedPrefix(t, vo, ve, ROOT_ENTRIES);
    forall k
      ensures k in Released(t, vo, ve, ROOT_ENTRIES) <==> Owns(t, k) && !Owns(RootRemove(t, vo, ve), k)
    {
      if k in Released(t, vo, ve, ROOT_ENTRIES) {
        var i :| 0 <= i < ROOT_ENTRIES && ReclaimedAt(t, vo, ve, i) && LinkKey(t.root[i]) == k;
        ReclaimedUnlinked(t, vo, ve, i);
      } else if Owns(t, k) {
        var i :| 0 <= i < ROOT_ENTRIES && IsLink(t.root[i]) && LinkKey(t.root[i]) == k;
        assert !ReclaimedAt(t, vo, ve, i);
        KeptLinked(t, vo, ve, i);
      }
    }
  }

  /** A table the pass over 'i' emptied is linked from nowhere afterwards. */
  lemma ReclaimedUnlinked(t: Tables, vo: nat, ve: nat, i: nat)
    requires WellFormed(t) && i < ROOT_ENTRIES && ReclaimedAt(t, vo, ve, i)
    ensures !Owns(RootRemove(t, vo, ve), LinkKey(t.root[i]))
  {
    var r := RootRemove(t, vo, ve);
    assert r.root[i] == RootInvalidate(t.root[i]);
    forall j | 0 <= j < ROOT_ENTRIES && IsLink(r.root[j])
      ensures LinkKey(r.root[j]) != LinkKey(t.root[i])
    {
      assert DistinctLinks(t.root, i, j);
    }
  }

  /** A linked table the removal did not empty stays linked where it was. */
  lemma KeptLinked(t: Tables, vo: nat, ve: nat, i: nat)
    requires Shaped(t) && i < ROOT_ENTRIES && IsLink(t.root[i]) && !ReclaimedAt(t, vo, ve, i)
    ensures Owns(RootRemove(t, vo, ve), LinkKey(t.root[i]))
  {
    assert RootRemove(t, vo, ve).root[i] == t.root[i];
  }

  /** What lies behind a descriptor that is no link changes no translation. */
  lemma VisibleLookup(t: Tables, va: nat)
    requires Shaped(t) && va < ADDR_SPACE
    ensures Lookup(Visible(t), va) == Lookup(t, va)
  {
    SplitAddress(va);
  }

  /** ... and no part of the ownership invariant. */
  lemma VisibleWellFormed(t: Tables)
    requires WellFormed(t)
    ensures WellFormed(Visible(t))
  {
  }

  /** No table is returned before the descriptor holding the region's start. */
  lemma {:induction false} ReleasedNone(t: Tables, vo: nat, ve: nat, n: nat)
    requires Shaped(t) && n <= ROOT_ENTRIES && n <= SectionIndex(vo)
    ensures Released(t, vo, ve, n) == []
  {
    if n > 0 {
      ReleasedNone(t, vo, ve, n - 1);
    }
  }

  /** No table is returned past the descriptor holding the region's end. */
  lemma {:induction false} ReleasedRest(t: Tables, vo: nat, ve: nat, n: nat)
    requires Shaped(t) && n <= ROOT_ENTRIES && ve <= n * SECTION_SIZE
    ensures Released(t, vo, ve, ROOT_ENTRIES) == Released(t, vo, ve, n)
    decreases ROOT_ENTRIES - n
  {
    if n < ROOT_ENTRIES {
      ReleasedRest(t, vo, ve, n + 1);
    }
  }
}
