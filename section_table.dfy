/**
 * Arm::Section_table: the 4096 first-level descriptors of one address space
 * in an array, and the second-level tables they link. The slab's
 * physical-to-virtual lookup is the map 'tables' from a table's physical
 * base to the table object. Both operations are proved against the
 * functions of RootTables; table_lemmas.dfy states what those promise.
 */
module SectionTables {
  import opened Wrappers
  import opened ArmDescriptors
  import opened PageTables
  import opened RootTables
  import opened TableLemmas

  /** Two different physical bases of the lookup name two different tables. */
  predicate SeparateTables(tables: map<Phys, PageTable>, k1: Phys, k2: Phys) {
    k1 in tables && k2 in tables && k1 != k2 ==> tables[k1].entries != tables[k2].entries
  }

  /** Adding a table whose descriptor array no other table uses keeps the tables apart. */
  lemma SeparateAfterAdd(tables: map<Phys, PageTable>, k: Phys, pt: PageTable, tables': map<Phys, PageTable>)
    requires forall k1, k2 | k1 in tables && k2 in tables :: SeparateTables(tables, k1, k2)
    requires forall k1 | k1 in tables :: tables[k1].entries != pt.entries
    requires tables' == tables[k := pt]
    ensures forall k1, k2 | k1 in tables' && k2 in tables' :: SeparateTables(tables', k1, k2)
  {
    forall k1, k2 | k1 in tables' && k2 in tables'
      ensures SeparateTables(tables', k1, k2)
    {
      assert SeparateTables(tables, k1, k2);
    }
  }

  /**
   * The first-level descriptors once the removal loop for [vo, ve) has
   * passed over every visited descriptor before 'n': those hold what
   * RootRemove gives them, the rest still hold what 't0' holds.
   */
  ghost function RootGoal(t0: Tables, vo: nat, ve: nat, n: nat): (s: seq<bv32>)
    requires Shaped(t0)
    ensures |s| == ROOT_ENTRIES
  {
    seq(ROOT_ENTRIES, j requires 0 <= j < ROOT_ENTRIES =>
      if Visited(vo, ve, j) && j < n then RootAfter(t0.root[j], t0.leaves[j], Start(vo, j), ve - j * SECTION_SIZE)
      else t0.root[j])
  }

  /** One more pass changes descriptor 'n' alone. */
  lemma RootGoalStep(t0: Tables, vo: nat, ve: nat, n: nat)
    requires Shaped(t0) && n < ROOT_ENTRIES && Visited(vo, ve, n)
    ensures RootGoal(t0, vo, ve, n + 1)
         == RootGoal(t0, vo, ve, n)[n := RootAfter(t0.root[n], t0.leaves[n], Start(vo, n), ve - n * SECTION_SIZE)]
  {
  }

  /** The largest offset the first-level table translates: 4095 * 1 MiB + (1 MiB - 1). */
  const MAX_ROOT_OFFSET: nat := 0xFFFF_FFFF

  class SectionTable {
    const entries: array<bv32>
    /** The second-level tables the slab holds, by physical base. */
    var tables: map<Phys, PageTable>
    /** The descriptor arrays of those tables. */
    ghost var Repr: set<array<bv32>>

    ghost predicate Valid()
      reads this, entries
    {
      && entries.Length == ROOT_ENTRIES
      && entries !in Repr
      && (forall k | k in tables :: tables[k].entries in Repr && tables[k].entries.Length == ENTRIES)
      && (forall k1, k2 | k1 in tables && k2 in tables :: SeparateTables(tables, k1, k2))
      && (forall i | 0 <= i < ROOT_ENTRIES && IsLink(entries[i]) :: LinkKey(entries[i]) in tables)
    }

    /** The second-level descriptors behind first-level descriptor 'i'. */
    ghost function LeafAt(i: nat): seq<bv32>
      requires Valid() && i < ROOT_ENTRIES
      reads this, entries, Repr
    {
      if IsLink(entries[i]) then tables[LinkKey(entries[i])].entries[..] else EmptyLeaf()
    }

    /** The value of the tables. */
    ghost function State(): (t: Tables)
      requires Valid()
      reads this, entries, Repr
      ensures Shaped(t)
    {
      Tables(entries[..], seq(ROOT_ENTRIES, i requires 0 <= i < ROOT_ENTRIES && Valid() reads this, entries, Repr => LeafAt(i)))
    }

    /** A new table: every descriptor zero, no second-level table. */
    constructor ()
      ensures Valid() && fresh(entries)
      ensures State() == EmptyTables()
    {
      entries := new bv32[ROOT_ENTRIES](_ => 0);
      tables := map[];
      Repr := {};
      new;
      assert State().leaves == EmptyTables().leaves;
    }

    /**
     * Section_table::insert_translation. A 4 KiB translation goes into the
     * linked second-level table, or into a new one made in the slot the slab
     * hands out ('reply'); a 1 MiB translation becomes a section descriptor.
     */
    method InsertTranslation(vo: nat, pa: bv32, sizeLog2: nat, flags: PageFlags, reply: SlabReply)
      returns (res: InsertResult)
      requires Valid() && WellFormed(State())
      requires InsertAllowed(State(), vo, sizeLog2) && FreshSlot(State(), reply)
      modifies this, entries, Repr
      ensures Valid() && WellFormed(State())
      ensures (res, State()) == RootInsert(old(State()), vo, pa, sizeLog2, flags, reply)
    {
      InsertWellFormed(State(), vo, pa, sizeLog2, flags, reply);
      var i := vo / SECTION_SIZE;
      if sizeLog2 < SECTION_SIZE_LOG2 {
        if RootTypeOf(entries[i]) == RootFault {
          if !reply.SlabSlot? {
            return OutOfMemory;
          }
          LinkNewTable(vo, pa, flags, reply);
          res := Inserted;
        } else {
          res := InsertIntoLinked(vo, pa, flags);
        }
      } else {
        var d := SectionCreate(flags, pa);
        if RootValid(entries[i]) && entries[i] != d {
          return DoubleInsertion;
        }
        WriteSection(vo, pa, flags);
        res := Inserted;
      }
    }

    /** Makes a second-level table in the slab's slot, inserts the page there and links it. */
    method LinkNewTable(vo: nat, pa: bv32, flags: PageFlags, reply: SlabReply)
      requires Valid() && WellFormed(State())
      requires InsertAllowed(State(), vo, PAGE_SIZE_LOG2) && FreshSlot(State(), reply)
      requires NeedsLeaf(State(), vo, PAGE_SIZE_LOG2) && reply.SlabSlot?
      modifies this, entries
      ensures Valid() && State() == RootInsert(old(State()), vo, pa, PAGE_SIZE_LOG2, flags, reply).1
    {
      ghost var t0 := State();
      ghost var r := RootInsert(t0, vo, pa, PAGE_SIZE_LOG2, flags, reply).1;
      var i := vo / SECTION_SIZE;
      var pt := NewLeaf(vo % SECTION_SIZE, pa, flags);
      AddTable(Phys(reply.base), pt);
      var d := PageTableDescriptorCreate(reply.base);
      assert IsLink(d) && LinkKey(d) == Phys(reply.base);
      entries[i] := d;
      assert entries[..] == t0.root[i := d];
      assert Valid();
      assert LeafAt(i) == r.leaves[i];
      forall j | 0 <= j < ROOT_ENTRIES && j != i
        ensures LeafAt(j) == r.leaves[j]
      {
      }
      assert State().leaves == r.leaves;
    }

    /**
     * Puts table 'pt' into the lookup under 'k', which no descriptor links
     * yet; the value of the tables stays the same.
     */
    method AddTable(k: Phys, pt: PageTable)
      requires Valid() && pt.entries !in Repr && pt.entries != entries && pt.entries.Length == ENTRIES
      requires forall j | 0 <= j < ROOT_ENTRIES && IsLink(entries[j]) :: LinkKey(entries[j]) != k
      modifies this
      ensures Valid() && tables == old(tables)[k := pt] && Repr == old(Repr) + {pt.entries}
      ensures State() == old(State())
    {
      ghost var t0 := State();
      tables := tables[k := pt];
      Repr := Repr + {pt.entries};
      SeparateAfterAdd(old(tables), k, pt, tables);
      forall j | 0 <= j < ROOT_ENTRIES
        ensures LeafAt(j) == t0.leaves[j]
      {
      }
      assert State().leaves == t0.leaves;
    }

    /** A new second-level table holding the one translation of offset 'vo' to 'pa'. */
    static method NewLeaf(vo: nat, pa: bv32, flags: PageFlags) returns (pt: PageTable)
      requires vo <= MAX_VIRT_OFFSET
      ensures fresh(pt.entries) && pt.entries.Length == ENTRIES
      ensures pt.entries[..] == LeafInsert(EmptyLeaf(), vo, pa, flags).value
    {
      pt := new PageTable();
      var inserted := pt.InsertTranslation(vo, pa, PAGE_SIZE_LOG2, flags);
    }

    /** Inserts the page into the second-level table the descriptor of 'vo' links. */
    method InsertIntoLinked(vo: nat, pa: bv32, flags: PageFlags) returns (res: InsertResult)
      requires Valid() && WellFormed(State())
      requires InsertAllowed(State(), vo, PAGE_SIZE_LOG2) && IsLink(State().root[SectionIndex(vo)])
      modifies Repr
      ensures Valid()
      ensures (res, State()) == RootInsert(old(State()), vo, pa, PAGE_SIZE_LOG2, flags, NoSlab)
    {
      ghost var t0 := State();
      ghost var r := RootInsert(t0, vo, pa, PAGE_SIZE_LOG2, flags, NoSlab).1;
      var i := vo / SECTION_SIZE;
      var pt := tables[LinkKey(entries[i])];
      var ok := pt.InsertTranslation(vo % SECTION_SIZE, pa, PAGE_SIZE_LOG2, flags);
      res := if ok then Inserted else DoubleInsertion;
      forall j | 0 <= j < ROOT_ENTRIES
        ensures LeafAt(j) == r.leaves[j]
      {
        if j != i && IsLink(entries[j]) {
          assert DistinctLinks(t0.root, i, j);
          assert SeparateTables(tables, LinkKey(entries[i]), LinkKey(entries[j]));
        }
      }
      assert State().leaves == r.leaves;
    }

    /** Writes the section descriptor for 'vo'. */
    method WriteSection(vo: nat, pa: bv32, flags: PageFlags)
      requires Valid() && InsertAllowed(State(), vo, SECTION_SIZE_LOG2)
      requires RootInsert(State(), vo, pa, SECTION_SIZE_LOG2, flags, NoSlab).0 == Inserted
      modifies entries
      ensures Valid() && State() == RootInsert(old(State()), vo, pa, SECTION_SIZE_LOG2, flags, NoSlab).1
    {
      ghost var t0 := State();
      ghost var r := RootInsert(t0, vo, pa, SECTION_SIZE_LOG2, flags, NoSlab).1;
      var i := vo / SECTION_SIZE;
      entries[i] := SectionCreate(flags, pa);
      forall j | 0 <= j < ROOT_ENTRIES && IsLink(entries[j])
        ensures LinkKey(entries[j]) in tables
      {
        assert j != i;
      }
      forall j | 0 <= j < ROOT_ENTRIES
        ensures LeafAt(j) == r.leaves[j]
      {
        if j == i && IsLink(t0.root[i]) {
          SectionIsNotLink(flags, pa, t0.root[i]);
        }
      }
      assert State().leaves == r.leaves;
    }

    /**
     * The removal loop for [vo, ve) has passed over every visited descriptor
     * before 'n': those hold what RootRemove gives them, the rest still hold
     * what 't0' holds.
     */
    ghost predicate RootProgress(t0: Tables, vo: nat, ve: nat, n: nat)
      requires Shaped(t0)
      reads entries
    {
      entries.Length == ROOT_ENTRIES && entries[..] == RootGoal(t0, vo, ve, n)
    }

    /** ... and so do the second-level tables 't0' links. */
    ghost predicate LeafProgress(t0: Tables, vo: nat, ve: nat, n: nat)
      requires Shaped(t0)
      reads this, Repr
    {
      && (forall j | 0 <= j < ROOT_ENTRIES && IsLink(t0.root[j]) ::
            LinkKey(t0.root[j]) in tables && tables[LinkKey(t0.root[j])].entries in Repr)
      && (forall j | 0 <= j < ROOT_ENTRIES && IsLink(t0.root[j]) ::
            tables[LinkKey(t0.root[j])].entries[..] ==
              if Visited(vo, ve, j) && j < n then LeafRemove(t0.leaves[j], Start(vo, j), ve - j * SECTION_SIZE)
              else t0.leaves[j])
    }

    /**
     * The part of a pass over link descriptor 'd' at 'i' that works on its table:
     * the table loses the pages of [lo, hi); 'e' tells whether it is empty now.
     */
    method ShrinkLinked(i: nat, d: bv32, lo: nat, hi: nat, ghost t0: Tables, ghost vo: nat, ghost ve: nat) returns (e: bool)
      requires Valid() && WellFormed(t0) && i < ROOT_ENTRIES && d == t0.root[i] && IsLink(d)
      requires LeafProgress(t0, vo, ve, i) && Visited(vo, ve, i)
      requires lo == Start(vo, i) && hi == ve - i * SECTION_SIZE && lo < hi < ADDR_SPACE
      modifies Repr
      ensures Valid() && LeafProgress(t0, vo, ve, i + 1)
      ensures e == Reclaims(t0.root[i], t0.leaves[i], lo, hi)
    {
      var pt := tables[LinkKey(d)];
      pt.RemoveRegion(lo, hi - lo);
      e := pt.Empty();
      forall j | 0 <= j < ROOT_ENTRIES && IsLink(t0.root[j]) && j != i
        ensures tables[LinkKey(t0.root[j])].entries[..] == old(tables[LinkKey(t0.root[j])].entries[..])
      {
        assert DistinctLinks(t0.root, i, j);
        assert SeparateTables(tables, LinkKey(t0.root[i]), LinkKey(t0.root[j]));
      }
    }

    /**
     * One pass of the removal loop over descriptor 'i', handing the part
     * [lo, hi) of its 1 MiB to a linked table: a linked table loses those
     * pages and, when that empties it, is unlinked ('freed'); a section is
     * invalidated; a fault stays.
     */
    method RemoveAt(i: nat, lo: nat, hi: nat, ghost t0: Tables, ghost vo: nat, ghost ve: nat) returns (freed: bool)
      requires Valid() && WellFormed(t0) && i < ROOT_ENTRIES
      requires RootProgress(t0, vo, ve, i) && LeafProgress(t0, vo, ve, i) && Visited(vo, ve, i)
      requires lo == Start(vo, i) && hi == ve - i * SECTION_SIZE && lo < hi < ADDR_SPACE
      modifies entries, Repr
      ensures Valid() && RootProgress(t0, vo, ve, i + 1) && LeafProgress(t0, vo, ve, i + 1)
      ensures freed == ReclaimedAt(t0, vo, ve, i)
    {
      var d := entries[i];
      freed := false;
      if IsLink(d) {
        freed := ShrinkLinked(i, d, lo, hi, t0, vo, ve);
      } else {
        LeafProgressSkip(t0, vo, ve, i);
      }
      if freed || RootTypeOf(d) == SectionMap {
        Invalidate(i, t0, vo, ve);
      } else {
        RootProgressKeep(t0, vo, ve, i);
      }
    }

    /** Past a descriptor that links no table, the tables are as they were. */
    lemma LeafProgressSkip(t0: Tables, vo: nat, ve: nat, i: nat)
      requires Shaped(t0) && i < ROOT_ENTRIES && !IsLink(t0.root[i])
      requires LeafProgress(t0, vo, ve, i)
      ensures LeafProgress(t0, vo, ve, i + 1)
    {
    }

    /** A pass that leaves descriptor 'i' as it was. */
    lemma RootProgressKeep(t0: Tables, vo: nat, ve: nat, i: nat)
      requires Shaped(t0) && i < ROOT_ENTRIES && Visited(vo, ve, i)
      requires RootProgress(t0, vo, ve, i)
      requires RootAfter(t0.root[i], t0.leaves[i], Start(vo, i), ve - i * SECTION_SIZE) == t0.root[i]
      ensures RootProgress(t0, vo, ve, i + 1)
    {
      RootGoalStep(t0, vo, ve, i);
      assert RootGoal(t0, vo, ve, i)[i] == t0.root[i];
      assert RootGoal(t0, vo, ve, i)[i := t0.root[i]] == RootGoal(t0, vo, ve, i);
    }

    /** Invalidates descriptor 'i', the pass's result for it. */
    method Invalidate(i: nat, ghost t0: Tables, ghost vo: nat, ghost ve: nat)
      requires Valid() && Shaped(t0) && i < ROOT_ENTRIES && Visited(vo, ve, i)
      requires RootProgress(t0, vo, ve, i) && LeafProgress(t0, vo, ve, i + 1)
      requires RootAfter(t0.root[i], t0.leaves[i], Start(vo, i), ve - i * SECTION_SIZE) == RootInvalidate(t0.root[i])
      modifies entries
      ensures Valid() && RootProgress(t0, vo, ve, i + 1) && LeafProgress(t0, vo, ve, i + 1)
    {
      entries[i] := RootInvalidate(entries[i]);
      RootGoalStep(t0, vo, ve, i);
      forall j | 0 <= j < ROOT_ENTRIES && IsLink(entries[j])
        ensures LinkKey(entries[j]) in tables
      {
        assert entries[j] == old(entries[j]);
      }
    }

    /** When the loop stops, the tables are RootRemove's. */
    lemma RemoveFinished(t0: Tables, vo: nat, ve: nat, n: nat)
      requires Valid() && Shaped(t0) && ve <= n * SECTION_SIZE
      requires RootProgress(t0, vo, ve, n) && LeafProgress(t0, vo, ve, n)
      ensures State() == Visible(RootRemove(t0, vo, ve))
    {
      var r := RootRemove(t0, vo, ve);
      forall j | 0 <= j < ROOT_ENTRIES
        ensures entries[j] == r.root[j] && LeafAt(j) == Visible(r).leaves[j]
      {
        if IsLink(entries[j]) {
          assert entries[j] == t0.root[j];
        }
      }
      assert State().root == Visible(r).root;
      assert State().leaves == Visible(r).leaves;
    }

    /**
     * Section_table::remove_region: removes every translation that
     * intersects [vo, vo + size) and unlinks every second-level table this
     * empties; 'released' lists those tables, in the order the slab gets
     * them back.
     */
    method RemoveRegion(vo: nat, size: nat) returns (released: seq<Phys>)
      requires Valid() && WellFormed(State())
      requires 0 < size && vo + size < ADDR_SPACE
      modifies entries, Repr
      ensures Valid() && WellFormed(State())
      ensures State() == Visible(RootRemove(old(State()), vo, vo + size))
      ensures released == Released(old(State()), vo, vo + size, ROOT_ENTRIES)
    {
      released := RemoveFrom(vo, vo + size, State());
    }

    /** RemoveRegion for [vo, ve), with the tables it starts from named 't0'. */
    method RemoveFrom(vo: nat, ve: nat, ghost t0: Tables) returns (released: seq<Phys>)
      requires Valid() && WellFormed(t0) && t0 == State()
      requires vo < ve < ADDR_SPACE
      modifies entries, Repr
      ensures Valid() && WellFormed(State())
      ensures State() == Visible(RootRemove(t0, vo, ve))
      ensures released == Released(t0, vo, ve, ROOT_ENTRIES)
    {
      ProgressStart(t0, vo, ve);
      ghost var n;
      released, n := RemoveLoop(vo, ve, t0);
      RemoveFinished(t0, vo, ve, n);
      ReleasedRest(t0, vo, ve, n);
      RemoveWellFormed(t0, vo, ve);
      VisibleWellFormed(RootRemove(t0, vo, ve));
    }

    /** Before the loop, nothing has been removed. */
    lemma ProgressStart(t0: Tables, vo: nat, ve: nat)
      requires Valid() && t0 == State()
      ensures RootProgress(t0, vo, ve, SectionIndex(vo)) && LeafProgress(t0, vo, ve, SectionIndex(vo))
    {
    }

    /**
     * The loop of remove_region, from the descriptor holding 'vo' up to the
     * one holding 've - 1'; 'n' is one past the last descriptor it visits.
     */
    method RemoveLoop(vo: nat, ve: nat, ghost t0: Tables) returns (released: seq<Phys>, ghost n: nat)
      requires Valid() && WellFormed(t0) && vo < ve < ADDR_SPACE
      requires RootProgress(t0, vo, ve, SectionIndex(vo)) && LeafProgress(t0, vo, ve, SectionIndex(vo))
      modifies entries, Repr
      ensures Valid() && RootProgress(t0, vo, ve, n) && LeafProgress(t0, vo, ve, n)
      ensures n <= ROOT_ENTRIES && ve <= n * SECTION_SIZE
      ensures released == Released(t0, vo, ve, n)
    {
      var cur := vo;
      n := SectionIndex(vo);
      released := [];
      ReleasedNone(t0, vo, ve, n);
      while cur < ve && cur <= MAX_ROOT_OFFSET
        invariant Cursor(vo, cur, n)
        invariant Valid() && RootProgress(t0, vo, ve, n) && LeafProgress(t0, vo, ve, n)
        invariant released == Released(t0, vo, ve, n)
        decreases ve - cur
      {
        cur, released := RemoveStep(cur, ve, released, t0, vo, n);
        n := n + 1;
      }
      LoopExit(vo, ve, cur, n);
    }

    /**
     * One turn of the removal loop at 'cur', the start of the part of
     * descriptor 'n' still to go; 'cur'' is where the next turn starts.
     */
    method RemoveStep(cur: nat, ve: nat, released: seq<Phys>, ghost t0: Tables, ghost vo: nat, ghost n: nat)
      returns (cur': nat, released': seq<Phys>)
      requires Valid() && WellFormed(t0) && vo < ve < ADDR_SPACE
      requires Cursor(vo, cur, n) && cur < ve && cur <= MAX_ROOT_OFFSET
      requires RootProgress(t0, vo, ve, n) && LeafProgress(t0, vo, ve, n)
      requires released == Released(t0, vo, ve, n)
      modifies entries, Repr
      ensures Cursor(vo, cur', n + 1) && cur < cur'
      ensures Valid() && RootProgress(t0, vo, ve, n + 1) && LeafProgress(t0, vo, ve, n + 1)
      ensures released' == Released(t0, vo, ve, n + 1)
    {
      var i := cur / SECTION_SIZE;
      var lo := cur - i * SECTION_SIZE;
      var hi := lo + (ve - cur);
      var d := entries[i];
      assert d == t0.root[i];
      var freed := RemoveAt(i, lo, hi, t0, vo, ve);
      released' := if freed then released + [LinkKey(d)] else released;
      cur' := (i + 1) * SECTION_SIZE;
    }

    /** Where the loop stands: at 'vo' in its first turn, at the start of descriptor 'n' after. */
    predicate Cursor(vo: nat, cur: nat, n: nat) {
      && SectionIndex(vo) <= n <= ROOT_ENTRIES && n == cur / SECTION_SIZE
      && cur == if n == SectionIndex(vo) then vo else n * SECTION_SIZE
    }

    /** When the loop stops, it has gone past 've'. */
    lemma LoopExit(vo: nat, ve: nat, cur: nat, n: nat)
      requires vo < ve < ADDR_SPACE && Cursor(vo, cur, n)
      requires !(cur < ve && cur <= MAX_ROOT_OFFSET)
      ensures n <= ROOT_ENTRIES && ve <= n * SECTION_SIZE
    {
    }
  }
}
