/** Mapping and unmapping pages (src/mm/vmm.c, lines 94-184) over the tables in physical memory. */
module Paging {
  import opened Bytes
  import opened Pmm
  import opened PageTables
  import opened Counts
  import opened Reach

  /** Entries of s0 are kept; what is new are tables of space sp, entered with the given flags. */
  ghost predicate GrowsBy(s0: map<Node, nat>, s1: map<Node, nat>, sp: nat, flags: nat)
  {
    && (forall k :: k in s0 ==> k in s1 && s1[k] == s0[k])
    && (forall k :: k in s1 && k !in s0 ==> k.sp == sp && Depth(k.path) < 4 && (k.path.Sub? ==> Carries(s1[k], flags)))
  }

  ghost predicate Shrinks(s0: map<Node, nat>, s1: map<Node, nat>)
  {
    forall k :: k in s1 ==> k in s0 && s1[k] == s0[k]
  }

  lemma StillConsistent(m: seq<Frame>, m1: seq<Frame>, p4: map<nat, nat>, slots: map<Node, nat>, tables: map<nat, Node>)
    requires Consistent(m, p4, slots, tables) && |m1| == |m|
    requires forall f :: f in tables && f < |m| ==> m1[f] == m[f]
    ensures Consistent(m1, p4, slots, tables)
  {
    assert Mirrors(m1, slots, tables) by {
      forall f, i: nat | f in tables && i < 512
        ensures Word(m1[f], i) == Slot(slots, Child(tables[f], i))
      {
        assert Word(m[f], i) == Slot(slots, Child(tables[f], i));
      }
    }
  }

  class Mapper {
    const pmm: FrameAllocator
    /** The frames from here on are not reached through the map of physical memory in use. */
    ghost const limit: nat
    /** The `p4` field of every `struct mm`, 0 when the space has no table. */
    var p4: map<nat, nat>
    /** The nonzero entries of all trees, the frames that hold tables, and the flat page map. */
    ghost var slots: map<Node, nat>
    ghost var tables: map<nat, Node>
    ghost var flat: map<Page, nat>

    ghost predicate TreeOk()
      reads this`p4, this`slots, this`tables, pmm, pmm.ram
    {
      && pmm.Valid() && pmm.ram.Length * PAGE_SIZE + PAGE_SIZE <= WORD_LIMIT
      && Consistent(pmm.ram[..], p4, slots, tables) && tables.Keys <= pmm.live && Near()
    }

    /** Every frame handed out is one of those below. */
    ghost predicate Near()
      reads pmm`live
    {
      pmm.live <= Within()
    }

    /** The frames that are handed out before the allocator has to touch memory past the limit. */
    ghost function Within(): (fs: set<nat>)
    {
      ReachSet(pmm.regions, pmm.ram.Length, limit)
    }

    /** Those not yet handed out. */
    ghost function Spare(): (fs: set<nat>)
      reads pmm`live
    {
      Within() - pmm.live
    }

    ghost predicate Valid()
      reads this, pmm, pmm.ram
    {
      TreeOk() && Dense(slots) && IsFlat(slots, flat)
    }

    /** Live frames that are not page tables: those handed to the layer above. */
    ghost function Client(): (s: set<nat>)
      reads this`tables, pmm`live
    {
      pmm.live - tables.Keys
    }

    constructor (allocator: FrameAllocator, ghost reach: nat)
      requires allocator.Valid() && allocator.ram.Length * PAGE_SIZE + PAGE_SIZE <= WORD_LIMIT
      requires allocator.live == {}
      ensures Valid() && pmm == allocator && limit == reach && p4 == map[] && flat == map[] && tables == map[]
      ensures slots == map[]
    {
      pmm, limit, p4 := allocator, reach, map[];
      slots, tables, flat := map[], map[], map[];
    }

    /** A setter: stores entry i of a table. */
    method StoreEntry(table: nat, i: nat, e: nat)
      requires pmm.Valid() && FrameOf(table) in pmm.live && i < 512 && e < WORD_LIMIT
      modifies pmm.ram
      ensures pmm.Valid()
      ensures EntryStored(old(pmm.ram[..]), pmm.ram[..], tables, FrameOf(table), i, e)
      ensures forall f :: 0 <= f < pmm.ram.Length && f != FrameOf(table) ==> pmm.ram[f] == old(pmm.ram[f])
    {
      var f := FrameOf(table);
      ghost var m := pmm.ram[..];
      LiveIsNotBitmap(m, pmm.regions, pmm.live);
      ClientWriteKeepsInv(m, pmm.regions, pmm.live, f, WriteWord(m[f], i, e));
      WordAfterWrite(m[f], i, e);
      pmm.ram[f] := WriteWord(pmm.ram[f], i, e);
      assert pmm.ram[..] == m[f := WriteWord(m[f], i, e)];
    }

    /** Takes a fresh zeroed frame; no table and no client frame changes. */
    method TakeFrame() returns (addr: nat)
      requires TreeOk() && Spare() != {}
      modifies pmm`live, pmm.ram
      ensures TreeOk() && addr > 0 && addr % PAGE_SIZE == 0
      ensures FrameOf(addr) !in old(pmm.live) && pmm.live == old(pmm.live) + {FrameOf(addr)}
      ensures FrameOf(addr) < pmm.ram.Length && addr + PAGE_SIZE <= WORD_LIMIT
      ensures FrameOf(addr) in Within() && FoundWithin(old(pmm.ram[..]), pmm.regions, addr, limit)
      ensures pmm.ram[FrameOf(addr)] == ZeroFrame()
      ensures SameOn(old(pmm.ram[..]), pmm.ram[..], old(pmm.live))
    {
      hide BitmapInv, IsBitmap, FirstFree, UsableSet, ReachSet, FoundWithin, SearchWithin, RegionOk;
      ghost var m := pmm.ram[..];
      LiveIsNotBitmap(m, pmm.regions, pmm.live);
      SpareIsFree(pmm.regions, |m|, limit, pmm.live);
      addr := pmm.Alloc();
      FoundIsWithin(m, pmm.regions, old(pmm.live), addr, limit);
      LiveIsNotBitmap(pmm.ram[..], pmm.regions, pmm.live);
      StillConsistent(m, pmm.ram[..], p4, slots, tables);
      assert FrameOf(addr) in pmm.live;
    }

    /** `if (get_entry(..) == 0) set_entry(.., pmm_alloc() | flags)` at one of the three inner levels. */
    method EnsureEntry(table: nat, i: nat, flags: nat, ghost n: Node, ghost ns: set<Node>)
      requires TreeOk() && DenseBut(slots, n) && Places(ns) && Child(n, i) in ns
      requires n in slots && Depth(n.path) < 3 && FrameOf(slots[n]) == FrameOf(table)
      requires i < 512 && 0 < flags < PAGE_SIZE
      modifies this`slots, this`tables, pmm`live, pmm.ram
      ensures TreeOk() && Child(n, i) in slots && DenseBut(slots, Child(n, i)) && Places(ns)
      ensures GrowsBy(old(slots), slots, n.sp, flags)
      ensures Client() == old(Client()) && old(pmm.live) <= pmm.live
      ensures SameOn(old(pmm.ram[..]), pmm.ram[..], Client())
    {
      hide BitmapInv, IsBitmap, FirstFree, Consistent, DenseBut, EntryStored, GrowsBy, Load, Word, BitOr, ReachSet;
      LoadIsSlot(pmm.ram[..], p4, slots, tables, n, i);
      SameFrameLoad(pmm.ram[..], table, slots[n], i);
      if Load(pmm.ram[..], table, i) == 0 {
        SlotIsZero(pmm.ram[..], p4, slots, tables, Child(n, i));
        FrameLeft(ns, Child(n, i));
        AddTable(table, i, flags, n);
      } else {
        DenseMoves(slots, n, i);
        GrewBy(slots, slots, n, flags);
      }
    }

    method AddTable(table: nat, i: nat, flags: nat, ghost n: Node)
      requires TreeOk() && DenseBut(slots, n)
      requires n in slots && Depth(n.path) < 3 && FrameOf(slots[n]) == FrameOf(table)
      requires i < 512 && 0 < flags < PAGE_SIZE && Spare() != {} && Child(n, i) !in slots
      modifies this`slots, this`tables, pmm`live, pmm.ram
      ensures TreeOk() && Child(n, i) in slots && DenseBut(slots, Child(n, i))
      ensures GrowsBy(old(slots), slots, n.sp, flags) && slots.Keys == old(slots.Keys) + {Child(n, i)}
      ensures Client() == old(Client()) && old(pmm.live) <= pmm.live
      ensures SameOn(old(pmm.ram[..]), pmm.ram[..], Client())
    {
      hide BitmapInv, Consistent, DenseBut, EntryStored, GrowsBy, Word, BitOr, FrameOf, ZeroFrame, ReachSet, Depth;
      ghost var c := Child(n, i);
      ChildFacts(n, i);
      TableIsLive(n);
      var addr := TakeFrame();
      var e := BitOr(addr, flags);
      EntryNames(addr, flags);
      ghost var m := pmm.ram[..];
      StoreEntry(table, i, e);
      assert forall j: nat :: j < 512 ==> Word(pmm.ram[FrameOf(e)], j) == 0 by { ZeroFrameWords(); }
      PutSlot(m, pmm.ram[..], p4, slots, tables, n, i, e);
      GrownDense(slots, n, i, e);
      slots := slots[c := e];
      tables := tables[FrameOf(e) := c];
      GrewBy(old(slots), slots, c, flags);
    }

    /** The four tables above a page are among those that mapping it takes. */
    lemma TablesWanted(s: nat, virt: nat, i4: nat, i3: nat, i2: nat, i1: nat)
      requires Valid() && Room(0, flat.Keys + {Page(s, PageNo(virt))})
      requires PagePath(PageNo(virt)) == Sub(Sub(Sub(Sub(Root, i4), i3), i2), i1)
      ensures var ns := TableNodes(flat.Keys + {Page(s, PageNo(virt))});
        var n4 := Node(s, Root);
        && Places(ns) && n4 in ns && Child(n4, i4) in ns
        && Child(Child(n4, i4), i3) in ns && Child(Child(Child(n4, i4), i3), i2) in ns
    {
      hide BitmapInv, Dense, IsFlat, Mirrors, FrameOf, Depth, PagePath, PageNo, ReachSet;
      var g := Page(s, PageNo(virt));
      assert TablesAbove(g) <= TableNodes(flat.Keys + {g});
      SlotsAreTables(pmm.ram[..], p4, slots, tables, flat);
      MorePagesMoreTables(flat.Keys, flat.Keys + {g});
    }

    /** `if (mm->p4 == 0) mm->p4 = pmm_alloc()`. */
    method EnsureRoot(s: nat, ghost flags: nat, ghost ns: set<Node>)
      requires TreeOk() && Dense(slots) && s in p4 && Places(ns) && Node(s, Root) in ns
      modifies this`p4, this`slots, this`tables, pmm`live, pmm.ram
      ensures TreeOk() && Node(s, Root) in slots && DenseBut(slots, Node(s, Root)) && Places(ns)
      ensures p4.Keys == old(p4.Keys) && GrowsBy(old(slots), slots, s, flags)
      ensures Client() == old(Client()) && old(pmm.live) <= pmm.live
      ensures SameOn(old(pmm.ram[..]), pmm.ram[..], Client())
    {
      hide BitmapInv, GrowsBy, FrameOf, TablesOk, Mirrors, SlotsOk, Mapper.Near;
      ghost var r := Node(s, Root);
      if p4[s] == 0 {
        NoRoot(p4, slots, s);
        FrameLeft(ns, r);
        AddRoot(s, flags);
      } else {
        GrewBy(slots, slots, r, flags);
      }
    }

    method AddRoot(s: nat, ghost flags: nat)
      requires TreeOk() && Dense(slots) && s in p4 && p4[s] == 0 && Node(s, Root) !in slots && Spare() != {}
      modifies this`p4, this`slots, this`tables, pmm`live, pmm.ram
      ensures TreeOk() && slots.Keys == old(slots.Keys) + {Node(s, Root)} && DenseBut(slots, Node(s, Root))
      ensures p4.Keys == old(p4.Keys) && GrowsBy(old(slots), slots, s, flags)
      ensures Client() == old(Client()) && old(pmm.live) <= pmm.live
      ensures SameOn(old(pmm.ram[..]), pmm.ram[..], Client())
    {
      hide BitmapInv, EntryStored, GrowsBy, Word, FrameOf, ZeroFrame, ReachSet, TablesOk, Mirrors, SlotsOk;
      ghost var r := Node(s, Root);
      var addr := TakeFrame();
      ghost var m := pmm.ram[..];
      assert forall j: nat :: j < 512 ==> Word(m[FrameOf(addr)], j) == 0 by { ZeroFrameWords(); }
      PutRoot(m, m, p4, slots, tables, s, addr);
      RootDense(slots, s, addr);
      p4 := p4[s := addr];
      slots := slots[r := addr];
      tables := tables[FrameOf(addr) := r];
      GrewBy(old(slots), slots, r, flags);
    }

    /** The final store of `vmm_map_page`. */
    method SetLeaf(table: nat, i: nat, e: nat, ghost n: Node)
      requires TreeOk() && DenseBut(slots, n)
      requires n in slots && Depth(n.path) == 3 && FrameOf(slots[n]) == FrameOf(table)
      requires i < 512 && 0 < e < WORD_LIMIT
      modifies this`slots, pmm.ram
      ensures TreeOk() && Dense(slots) && slots == old(slots)[Child(n, i) := e]
      ensures SameOn(old(pmm.ram[..]), pmm.ram[..], Client())
    {
      hide BitmapInv, Consistent, DenseBut, Dense, EntryStored, Word, FrameOf;
      ghost var m := pmm.ram[..];
      ChildFacts(n, i);
      TableIsLive(n);
      StoreEntry(table, i, e);
      PutSlot(m, pmm.ram[..], p4, slots, tables, n, i, e);
      GrownDense(slots, n, i, e);
      slots := slots[Child(n, i) := e];
      LeafDense(slots, Child(n, i));
    }

    /**
     * Memory is large enough for the tables of a set of mapped pages and `data` frames more than the
     * layer above has. With the pages mapped and data 0 this holds in every state.
     */
    ghost predicate Room(data: nat, pages: set<Page>)
      reads this`tables, pmm`live
    {
      |Client()| + data + |TableNodes(pages)| <= |Within()|
    }

    /** Room for more is room for less. */
    lemma Narrow(data: nat, pages: set<Page>, less: nat, fewer: set<Page>)
      requires Room(data, pages) && less <= data && fewer <= pages
      ensures Room(less, fewer)
    {
      MorePagesMoreTables(fewer, pages);
    }

    /** The table frames are exactly as many as there are places above mapped pages. */
    lemma TablesCounted()
      requires Valid()
      ensures |tables| == |TableNodes(flat.Keys)| && |pmm.live| == |Client()| + |TableNodes(flat.Keys)|
      ensures |Spare()| == |Within()| - |Client()| - |TableNodes(flat.Keys)|
    {
      hide BitmapInv, Dense, IsFlat, TableNodes, ReachSet, FrameOf, Depth, Mirrors;
      SlotsAreTables(pmm.ram[..], p4, slots, tables, flat);
      TablesFit(tables, slots, TableNodes(flat.Keys));
      OntoSize(tables, TableNodes(flat.Keys));
      SplitSize(pmm.live, tables.Keys);
      SplitSize(Within(), pmm.live);
    }

    /** All tables are at places of ns, for which memory is large enough. */
    ghost predicate Places(ns: set<Node>)
      reads this`slots, this`tables, pmm`live
    {
      && |Client()| + |ns| <= |Within()|
      && (forall n :: n in slots && Depth(n.path) < 4 ==> n in ns)
    }

    /** While a table is missing from such places, a frame is free. */
    lemma FrameLeft(ns: set<Node>, c: Node)
      requires TreeOk() && Places(ns) && c in ns && c !in slots
      ensures Spare() != {}
    {
      hide BitmapInv, ReachSet, FrameOf, Depth, Mirrors;
      TablesFit(tables, slots, ns - {c});
      SplitSize(pmm.live, tables.Keys);
      SplitSize(Within(), pmm.live);
    }

    /** `vmm_map_page`: exactly one page of one space is translated differently. */
    method MapPage(s: nat, virt: nat, phys: nat, flags: nat)
      requires Valid() && s in p4 && Room(0, flat.Keys + {Page(s, PageNo(virt))})
      requires 0 < flags < PAGE_SIZE && BitOr(phys, flags) < WORD_LIMIT
      modifies this`p4, this`slots, this`tables, this`flat, pmm`live, pmm.ram
      ensures Valid() && p4.Keys == old(p4.Keys)
      ensures flat == old(flat)[Page(s, PageNo(virt)) := BitOr(phys, flags)]
      ensures OnlySpace(old(slots), slots, s) && Taken(old(slots), slots, flags)
      ensures Client() == old(Client()) && old(pmm.live) <= pmm.live
      ensures SameOn(old(pmm.ram[..]), pmm.ram[..], Client())
    {
      hide BitmapInv, Consistent, DenseBut, Dense, IsFlat, GrowsBy, OnlySpace, Taken, FrameOf, Masked, Load;
      hide Mapper.TreeOk, Mapper.Client, Mapper.Room;
      hide BitOr, ReachSet, PagePath, PageNo, P4Ndx, P3Ndx, P2Ndx;
      hide P1Ndx, P4Entry, P3Entry, P2Entry, TableNodes, Mapper.Places;
      var i4, i3, i2, i1 := Index(virt);
      ghost var s0 := slots;
      TablesWanted(s, virt, i4, i3, i2, i1);
      ghost var n1 := EnsureTables(s, i4, i3, i2, flags, TableNodes(flat.Keys + {Page(s, PageNo(virt))}));
      Getters(s, i4, i3, i2);
      var e := BitOr(phys, flags);
      ghost var s4 := slots;
      SetLeaf(Masked(P2Entry(pmm.ram[..], p4[s], i4, i3, i2)), i1, e, n1);
      ghost var g := Page(s, PageNo(virt));
      Mapped(s0, s4, flat, g, e, flags);
      flat := flat[g := e];
    }

    /** The four tests for missing tables of `vmm_map_page`. */
    method EnsureTables(s: nat, i4: nat, i3: nat, i2: nat, flags: nat, ghost ns: set<Node>) returns (ghost n1: Node)
      requires TreeOk() && Dense(slots) && s in p4 && i4 < 512 && i3 < 512 && i2 < 512 && 0 < flags < PAGE_SIZE
      requires Places(ns) && Node(s, Root) in ns && Child(Node(s, Root), i4) in ns
      requires Child(Child(Node(s, Root), i4), i3) in ns && Child(Child(Child(Node(s, Root), i4), i3), i2) in ns
      modifies this`p4, this`slots, this`tables, pmm`live, pmm.ram
      ensures TreeOk() && n1 == Child(Child(Child(Node(s, Root), i4), i3), i2) && Depth(n1.path) == 3
      ensures n1 in slots && DenseBut(slots, n1) && GrowsBy(old(slots), slots, s, flags) && p4.Keys == old(p4.Keys)
      ensures Client() == old(Client()) && old(pmm.live) <= pmm.live
      ensures SameOn(old(pmm.ram[..]), pmm.ram[..], Client())
    {
      hide BitmapInv, Consistent, DenseBut, Dense, GrowsBy, FrameOf, Masked, Load, ReachSet, P4Entry, P3Entry, P2Entry;
      hide Mapper.Places;
      ghost var s0 := slots;
      EnsureRoot(s, flags, ns);
      ghost var n4, s1 := Node(s, Root), slots;
      ghost var n3 := Child(n4, i4);
      ChildFacts(n4, i4);
      Getters(s, i4, i3, i2);
      EnsureEntry(p4[s], i4, flags, n4, ns);
      ghost var s2 := slots;
      Chain(s0, s1, s2, s, flags);
      ghost var n2 := Child(n3, i3);
      ChildFacts(n3, i3);
      Getters(s, i4, i3, i2);
      EnsureEntry(Masked(P4Entry(pmm.ram[..], p4[s], i4)), i3, flags, n3, ns);
      ghost var s3 := slots;
      Chain(s0, s2, s3, s, flags);
      n1 := Child(n2, i2);
      ChildFacts(n2, i2);
      Getters(s, i4, i3, i2);
      EnsureEntry(Masked(P3Entry(pmm.ram[..], p4[s], i4, i3)), i2, flags, n2, ns);
      Chain(s0, s3, slots, s, flags);
    }

    /** The scan of a table's 512 entries. */
    method TableEmpty(table: nat) returns (empty: bool)
      requires FrameOf(table) < pmm.ram.Length
      ensures empty <==> forall j: nat :: j < 512 ==> Word(pmm.ram[FrameOf(table)], j) == 0
    {
      hide Word;
      for i := 0 to 512
        invariant forall j: nat :: j < i ==> Word(pmm.ram[FrameOf(table)], j) == 0
      {
        if Word(pmm.ram[FrameOf(table)], i) != 0 { return false; }
      }
      return true;
    }

    /** The first store of `vmm_unmap_page`. */
    method ClearLeaf(table: nat, i: nat, ghost n: Node)
      requires TreeOk() && Dense(slots)
      requires n in slots && Depth(n.path) == 3 && FrameOf(slots[n]) == FrameOf(table)
      requires i < 512 && Child(n, i) in slots
      modifies this`slots, pmm.ram
      ensures TreeOk() && slots == old(slots) - {Child(n, i)} && DenseBut(slots, n)
      ensures Client() == old(Client()) && SameOn(old(pmm.ram[..]), pmm.ram[..], Client())
    {
      hide BitmapInv, Consistent, DenseBut, Dense, EntryStored, Word, FrameOf;
      ghost var m := pmm.ram[..];
      TableIsLive(n);
      StoreEntry(table, i, 0);
      DropSlot(m, pmm.ram[..], p4, slots, tables, n, i);
      DroppedDense(slots, n, i);
      slots := slots - {Child(n, i)};
    }

    /** Gives the frame of an empty table back; the place is the root or entry i of table `up`. */
    method PruneTable(table: nat, up: nat, i: nat, ghost n: Node)
      requires TreeOk() && DenseBut(slots, Child(n, i)) && i < 512
      requires n in slots && Depth(n.path) < 3 && FrameOf(slots[n]) == FrameOf(up)
      requires Child(n, i) in slots && FrameOf(slots[Child(n, i)]) == FrameOf(table) && table % PAGE_SIZE == 0
      requires !HasChild(slots, Child(n, i))
      modifies this`slots, this`tables, pmm`live, pmm.ram
      ensures TreeOk() && slots == old(slots) - {Child(n, i)} && DenseBut(slots, n)
      ensures Client() == old(Client()) && pmm.live <= old(pmm.live)
      ensures SameOn(old(pmm.ram[..]), pmm.ram[..], Client())
    {
      hide BitmapInv, IsBitmap, Consistent, DenseBut, EntryStored, Word, FrameOf, ReachSet, Depth, HasChild;
      ghost var c := Child(n, i);
      ghost var m := pmm.ram[..];
      ChildFacts(n, i);
      TableIsLive(n);
      TableIsLive(c);
      TablesDiffer(n, c);
      LiveIsNotBitmap(m, pmm.regions, pmm.live);
      ReleaseTable(table);
      ghost var m1 := pmm.ram[..];
      StillConsistent(m, m1, p4, slots, tables);
      StoreEntry(up, i, 0);
      DropSlot(m1, pmm.ram[..], p4, slots, tables, n, i);
      DroppedTableDense(slots, n, i);
      slots := slots - {c};
      tables := tables - {FrameOf(table)};
    }

    /** The last stage of `vmm_unmap_page`: the root table is empty. */
    method PruneRoot(s: nat)
      requires TreeOk() && DenseBut(slots, Node(s, Root)) && s in p4
      requires Node(s, Root) in slots && !HasChild(slots, Node(s, Root))
      modifies this`p4, this`slots, this`tables, pmm`live, pmm.ram
      ensures TreeOk() && slots == old(slots) - {Node(s, Root)} && Dense(slots) && p4 == old(p4)[s := 0]
      ensures Client() == old(Client()) && pmm.live <= old(pmm.live)
      ensures SameOn(old(pmm.ram[..]), pmm.ram[..], Client())
    {
      hide BitmapInv, IsBitmap, DenseBut, Dense, FrameOf, ReachSet, Depth, HasChild, Consistent;
      ghost var r := Node(s, Root);
      RootFacts(pmm.ram[..], p4, slots, tables, s);
      ghost var m := pmm.ram[..];
      TableIsLive(r);
      LiveIsNotBitmap(m, pmm.regions, pmm.live);
      ReleaseTable(p4[s]);
      DropRoot(m, pmm.ram[..], p4, slots, tables, s);
      DroppedRootDense(slots, s);
      p4 := p4[s := 0];
      slots := slots - {r};
      tables := tables - {FrameOf(old(p4[s]))};
    }

    method ReleaseTable(table: nat)
      requires pmm.Valid() && table % PAGE_SIZE == 0 && FrameOf(table) in pmm.live
      modifies pmm`live, pmm.ram
      ensures pmm.Valid() && pmm.live == old(pmm.live) - {FrameOf(table)} && pmm.live <= old(pmm.live)
      ensures SameOn(old(pmm.ram[..]), pmm.ram[..], old(pmm.live))
    {
      hide BitmapInv, IsBitmap, ReachSet;
      LiveIsNotBitmap(pmm.ram[..], pmm.regions, pmm.live);
      pmm.Release(table);
    }

    /** `vmm_unmap_page` of a mapped page: that page goes, emptied tables go, nothing else changes. */
    method UnmapPage(s: nat, virt: nat)
      requires Valid() && s in p4 && Page(s, PageNo(virt)) in flat
      modifies this`p4, this`slots, this`tables, this`flat, pmm`live, pmm.ram
      ensures Valid() && p4.Keys == old(p4.Keys)
      ensures flat == old(flat) - {Page(s, PageNo(virt))}
      ensures OnlySpace(old(slots), slots, s) && Shrinks(old(slots), slots)
      ensures Client() == old(Client()) && pmm.live <= old(pmm.live)
      ensures SameOn(old(pmm.ram[..]), pmm.ram[..], Client())
    {
      hide DenseBut, Dense, IsFlat, OnlySpace, Shrinks, FrameOf, Masked, PagePath, PageNo, P4Ndx, P3Ndx, P2Ndx, P1Ndx;
      hide P2Entry, Depth, Mapper.TreeOk, Mapper.Client, SameOn, Consistent;
      var i4, i3, i2, i1 := Index(virt);
      ghost var g := Page(s, PageNo(virt));
      ghost var n4 := Node(s, Root);
      ghost var n1 := Child(Child(Child(n4, i4), i3), i2);
      TreeFacts();
      LeafChain(pmm.ram[..], p4, slots, tables, flat, g, n4, i4, i3, i2, i1) by { assert Leaf(g) == Child(n1, i1); }
      Unmapped(slots, flat, g);
      ghost var s0 := slots;
      flat := flat - {g};
      Getters(s, i4, i3, i2);
      ClearLeaf(Masked(P2Entry(pmm.ram[..], p4[s], i4, i3, i2)), i1, n1);
      ghost var m1 := pmm.ram[..];
      PruneTables(s, i4, i3, i2, s0);
      SameOnTwice(old(pmm.ram[..]), m1, pmm.ram[..], Client());
    }

    /** The rest of `vmm_unmap_page`: gives back the tables above a cleared entry that are now empty. */
    method PruneTables(s: nat, i4: nat, i3: nat, i2: nat, ghost s0: map<Node, nat>)
      requires TreeOk() && IsFlat(slots, flat) && s in p4 && i4 < 512 && i3 < 512 && i2 < 512
      requires OnlySpace(s0, slots, s) && Shrinks(s0, slots)
      requires var n4 := Node(s, Root); var n3 := Child(n4, i4); var n2 := Child(n3, i3); var n1 := Child(n2, i2);
        && n4 in slots && n3 in slots && n2 in slots && n1 in slots && DenseBut(slots, n1)
        && Depth(n1.path) == 3 && Depth(n2.path) == 2 && Depth(n3.path) == 1 && Depth(n4.path) == 0
      modifies this`p4, this`slots, this`tables, pmm`live, pmm.ram
      ensures Valid() && p4.Keys == old(p4.Keys) && OnlySpace(s0, slots, s) && Shrinks(s0, slots)
      ensures Client() == old(Client()) && pmm.live <= old(pmm.live)
      ensures SameOn(old(pmm.ram[..]), pmm.ram[..], Client())
    {
      hide DenseBut, Dense, IsFlat, OnlySpace, Shrinks, FrameOf, Masked, Load, Word;
      hide PagePath, P4Entry, P3Entry, P2Entry, HasChild, Depth, Mapper.TreeOk, Mapper.Client;
      ghost var n4 := Node(s, Root);
      ghost var n3 := Child(n4, i4);
      ghost var n2 := Child(n3, i3);
      ghost var n1 := Child(n2, i2);
      Getters(s, i4, i3, i2);
      var p1 := Masked(P2Entry(pmm.ram[..], p4[s], i4, i3, i2));
      Pruned(s0, slots, flat, n1);
      var more := PruneIfEmpty(p1, Masked(P3Entry(pmm.ram[..], p4[s], i4, i3)), i2, n2);
      if !more { return; }
      Getters(s, i4, i3, i2);
      var p2 := Masked(P3Entry(pmm.ram[..], p4[s], i4, i3));
      Pruned(s0, slots, flat, n2);
      more := PruneIfEmpty(p2, Masked(P4Entry(pmm.ram[..], p4[s], i4)), i3, n3);
      if !more { return; }
      Getters(s, i4, i3, i2);
      var p3 := Masked(P4Entry(pmm.ram[..], p4[s], i4));
      Pruned(s0, slots, flat, n3);
      more := PruneIfEmpty(p3, p4[s], i4, n4);
      if !more { return; }
      Getters(s, i4, i3, i2);
      EmptyMeans(n4, p4[s]);
      var empty := TableEmpty(p4[s]);
      if !empty { DenseAgain(slots, n4); return; }
      Pruned(s0, slots, flat, n4);
      PruneRoot(s);
    }

    /** One stage of `vmm_unmap_page`: stop at a table that still has an entry, else give it back. */
    method PruneIfEmpty(table: nat, up: nat, i: nat, ghost n: Node) returns (more: bool)
      requires TreeOk() && DenseBut(slots, Child(n, i)) && i < 512
      requires n in slots && Depth(n.path) < 3 && FrameOf(slots[n]) == FrameOf(up)
      requires Child(n, i) in slots && FrameOf(slots[Child(n, i)]) == FrameOf(table) && table % PAGE_SIZE == 0
      modifies this`slots, this`tables, pmm`live, pmm.ram
      ensures TreeOk()
      ensures more ==> slots == old(slots) - {Child(n, i)} && DenseBut(slots, n)
      ensures !more ==> slots == old(slots) && Dense(slots)
      ensures Client() == old(Client()) && pmm.live <= old(pmm.live)
      ensures SameOn(old(pmm.ram[..]), pmm.ram[..], Client())
    {
      hide BitmapInv, Consistent, DenseBut, Dense, FrameOf, Word, ReachSet, HasChild, Depth;
      ChildFacts(n, i);
      EmptyMeans(Child(n, i), table);
      var empty := TableEmpty(table);
      if empty {
        PruneTable(table, up, i, n);
      } else {
        DenseAgain(slots, Child(n, i));
      }
      more := empty;
    }

    /** `vmm_get_phys` of a mapped page. */
    method GetPhys(s: nat, virt: nat) returns (phys: nat)
      requires Valid() && s in p4 && Page(s, PageNo(virt)) in flat
      ensures phys == Masked(flat[Page(s, PageNo(virt))])
      ensures phys == Masked(Walk(pmm.ram[..], p4[s], PageNo(virt)))
    {
      hide BitmapInv, Dense, FrameOf, Masked, PagePath, PageNo, P1Entry, Walk;
      var e := LeafEntry(s, virt);
      WalkIsFlat(pmm.ram[..], p4, slots, tables, flat, s, PageNo(virt));
      phys := Masked(e);
    }

    /** `p1_get_entry` at the four indices of a mapped page. */
    method LeafEntry(s: nat, virt: nat) returns (e: nat)
      requires Valid() && s in p4 && Page(s, PageNo(virt)) in flat
      ensures e == flat[Page(s, PageNo(virt))]
    {
      hide BitmapInv, Consistent, Dense, FrameOf, Masked, PagePath, PageNo, P1Entry, Depth;
      var i4, i3, i2, i1 := Index(virt);
      ghost var g := Page(s, PageNo(virt));
      ghost var n1 := Child(Child(Child(Node(s, Root), i4), i3), i2);
      LeafChain(pmm.ram[..], p4, slots, tables, flat, g, Node(s, Root), i4, i3, i2, i1) by {
        assert Leaf(g) == Child(n1, i1);
      }
      GettersFollowWalk(pmm.ram[..], p4, slots, tables, s, i4, i3, i2, i1);
      e := P1Entry(pmm.ram[..], p4[s], i4, i3, i2, i1);
    }

    /** The walk that the processor makes through memory, for every space and page number. */
    ghost predicate WalksAre(m: map<Page, nat>)
      reads this, pmm, pmm.ram
    {
      forall s, v: nat :: s in p4 && v < PAGES ==>
        Walk(pmm.ram[..], p4[s], v) == if Page(s, v) in m then m[Page(s, v)] else 0
    }

    lemma WalksAreFlat()
      requires Valid()
      ensures WalksAre(flat)
    {
      hide Walk, PageNo;
      forall s, v: nat | s in p4 && v < PAGES
        ensures Walk(pmm.ram[..], p4[s], v) == if Page(s, v) in flat then flat[Page(s, v)] else 0
      {
        WalkIsFlat(pmm.ram[..], p4, slots, tables, flat, s, v);
      }
    }

    lemma EntryPresent(g: Page)
      requires Valid() && g in flat
      ensures 0 < flat[g] < WORD_LIMIT && g.v < PAGES
    {
      hide BitmapInv, Mirrors, TablesOk, Dense, PagePath;
      assert Leaf(g) in slots;
    }

    lemma PagesBelow()
      requires Valid()
      ensures forall g :: g in flat ==> g.v < PAGES
    {
      hide BitmapInv, Consistent, Dense, PagePath;
    }

    /** An unknown space has no entry. */
    lemma NoEntries(s: nat)
      requires Valid() && s !in p4
      ensures forall n :: n in slots ==> n.sp != s
    {
      hide BitmapInv, Mirrors, TablesOk, Dense, IsFlat;
    }

    /** No frame past the limit is in use. */
    lemma LiveNear(f: nat)
      requires Valid() && f in pmm.live
      ensures f < limit
    {
      hide BitmapInv, Consistent, Dense, IsFlat;
      assert f in Within();
    }

    lemma ClientNear(f: nat)
      requires Valid() && f in Client()
      ensures f < limit
    {
      hide Mapper.Valid;
      LiveNear(f);
    }

    /** A space has a root table exactly when one of its pages is mapped. */
    lemma RootIffMapped(s: nat)
      requires Valid() && s in p4
      ensures p4[s] == 0 <==> forall g :: g in flat ==> g.sp != s
    {
      hide BitmapInv, PagePath;
      TreeIsPages(pmm.ram[..], p4, slots, tables, flat, Node(s, Root));
      forall g | g in flat
        ensures Above(Root, PagePath(g.v))
      {
        RootAbove(PagePath(g.v));
      }
    }

    /** Mapping a page that was not mapped and unmapping it again restores every allocated frame. */
    method MapThenUnmap(s: nat, virt: nat, phys: nat, flags: nat)
      requires Valid() && s in p4 && Room(0, flat.Keys + {Page(s, PageNo(virt))})
      requires 0 < flags < PAGE_SIZE && BitOr(phys, flags) < WORD_LIMIT
      requires Page(s, PageNo(virt)) !in flat
      modifies this`p4, this`slots, this`tables, this`flat, pmm`live, pmm.ram
      ensures Valid() && flat == old(flat) && pmm.live == old(pmm.live) && slots == old(slots)
      ensures p4 == old(p4)
    {
      hide Mapper.Valid, Mapper.Client, Mapper.Room, Consistent, Dense, IsFlat, PageNo, KeepsTables, Shrinks, SameOn;
      hide OnlySpace, BitOr, TablesTake;
      TreeFacts();
      ghost var m0, p0, s0, t0 := pmm.ram[..], p4, slots, tables;
      MapPage(s, virt, phys, flags);
      ghost var s1 := slots;
      UnmapPage(s, virt);
      assert flat == old(flat);
      TreeFacts();
      SamePagesSameTree(m0, p0, s0, t0, s1, pmm.ram[..], p4, slots, tables, flat);
      SameRest(old(pmm.live), pmm.live, t0.Keys);
    }

    method Perform(op: PageOp)
      requires Valid() && Legal(flat, p4.Keys, op) && Room(0, Apply(flat, op).Keys)
      modifies this`p4, this`slots, this`tables, this`flat, pmm`live, pmm.ram
      ensures Valid() && flat == Apply(old(flat), op) && p4.Keys == old(p4.Keys)
      ensures Client() == old(Client()) && SameOn(old(pmm.ram[..]), pmm.ram[..], Client())
    {
      hide BitmapInv, Consistent, Dense, IsFlat, ReachSet, PageNo, OnlySpace, KeepsTables, Shrinks, BitOr, TableNodes;
      match op {
        case MapOp(s, virt, phys, flags) =>
          assert Apply(flat, op).Keys == flat.Keys + {Page(s, PageNo(virt))};
          MapPage(s, virt, phys, flags);
        case UnmapOp(s, virt) =>
          UnmapPage(s, virt);
      }
    }

    /**
     * Any run of map and unmap, as long as the tables of the pages mapped at each moment fit into
     * memory, acts on the flat map as the same run of map updates.
     */
    method RunOps(ops: seq<PageOp>)
      requires Valid() && LegalRun(flat, p4.Keys, ops)
      requires forall k :: 0 <= k <= |ops| ==> Room(0, ApplyAll(flat, ops[..k]).Keys)
      modifies this`p4, this`slots, this`tables, this`flat, pmm`live, pmm.ram
      ensures Valid() && flat == ApplyAll(old(flat), ops) && p4.Keys == old(p4.Keys) && WalksAre(flat)
      ensures Client() == old(Client())
      ensures SameOn(old(pmm.ram[..]), pmm.ram[..], Client())
    {
      hide Mapper.Valid, Mapper.Client, Mapper.WalksAre, ReachSet, Apply, Legal, TableNodes, SameOn;
      SameOnStart(pmm.ram[..], Client());
      for i := 0 to |ops|
        invariant Valid() && p4.Keys == old(p4.Keys)
        invariant flat == ApplyAll(old(flat), ops[..i])
        invariant Client() == old(Client())
        invariant SameOn(old(pmm.ram[..]), pmm.ram[..], Client())
      {
        assert ops[..i + 1][..i] == ops[..i] && ops[..i + 1][i] == ops[i];
        LegalAt(old(flat), p4.Keys, ops, i);
        assert old(Room(0, ApplyAll(flat, ops[..i + 1]).Keys));
        ghost var m1 := pmm.ram[..];
        Perform(ops[i]);
        SameOnTwice(old(pmm.ram[..]), m1, pmm.ram[..], Client());
      }
      assert ops[..|ops|] == ops;
      WalksAreFlat();
    }

    /** A new `struct mm`, zeroed: no table yet. */
    method AddSpace(s: nat)
      requires Valid() && s !in p4
      modifies this`p4
      ensures Valid() && p4 == old(p4)[s := 0] && Client() == old(Client())
    {
      hide BitmapInv, Dense, IsFlat, TablesOk, Mirrors;
      p4 := p4[s := 0];
      assert SlotsOk(p4, slots) && RootsOk(p4, slots);
    }

    /** The `struct mm` of a space with nothing mapped is freed. */
    method RemoveSpace(s: nat)
      requires Valid() && s in p4 && (forall g :: g in flat ==> g.sp != s)
      modifies this`p4
      ensures Valid() && p4 == old(p4) - {s} && Client() == old(Client())
    {
      hide BitmapInv, Dense, IsFlat, TablesOk, Mirrors;
      forall n | n in slots
        ensures n.sp != s
      {
        ghost var g := PageBelow(p4, slots, flat, n);
      }
      p4 := p4 - {s};
      assert SlotsOk(p4, slots) && RootsOk(p4, slots);
    }

    /** Takes a zeroed frame for data. */
    method TakeData() returns (addr: nat)
      requires Valid() && Room(1, flat.Keys)
      modifies pmm`live, pmm.ram
      ensures Valid() && addr > 0 && addr % PAGE_SIZE == 0 && addr + PAGE_SIZE <= WORD_LIMIT
      ensures FrameOf(addr) !in old(pmm.live) && FrameOf(addr) < pmm.ram.Length
      ensures Client() == old(Client()) + {FrameOf(addr)} && pmm.ram[FrameOf(addr)] == ZeroFrame()
      ensures pmm.live == old(pmm.live) + {FrameOf(addr)} && |Client()| == |old(Client())| + 1
      ensures SameOn(old(pmm.ram[..]), pmm.ram[..], old(Client()))
    {
      hide Mapper.TreeOk, Dense, IsFlat, FrameOf, ReachSet, ZeroFrame, TableNodes, FoundWithin, SameOn;
      TablesCounted();
      TreeFacts();
      addr := TakeFrame();
      OneMore(old(pmm.live), tables.Keys, FrameOf(addr));
      SameOnLess(old(pmm.ram[..]), pmm.ram[..], old(pmm.live), old(Client()));
    }

    /** `pmm_alloc` and `vmm_map_page`: a page over a zeroed frame of its own. */
    method MapData(s: nat, virt: nat, flags: nat, ghost all: set<Page>) returns (frame: nat)
      requires Valid() && s in p4 && 0 < flags < PAGE_SIZE
      requires Room(1, all) && flat.Keys <= all && Page(s, PageNo(virt)) in all
      modifies this`p4, this`slots, this`tables, this`flat, pmm`live, pmm.ram
      ensures Valid() && p4.Keys == old(p4.Keys) && flat.Keys <= all
      ensures flat == old(flat)[Page(s, PageNo(virt)) := BitOr(frame, flags)] && OnlySpace(old(slots), slots, s)
      ensures Taken(old(slots), slots, flags)
      ensures frame > 0 && frame % PAGE_SIZE == 0 && frame + PAGE_SIZE <= WORD_LIMIT
      ensures FrameOf(frame) !in old(pmm.live) && FrameOf(frame) < pmm.ram.Length
      ensures Client() == old(Client()) + {FrameOf(frame)} && |Client()| == |old(Client())| + 1
      ensures old(Client()) <= old(pmm.live) <= pmm.live && pmm.ram[FrameOf(frame)] == ZeroFrame()
      ensures SameOn(old(pmm.ram[..]), pmm.ram[..], old(Client()))
    {
      hide Mapper.Valid, FrameOf, ReachSet, ZeroFrame, TableNodes, OnlySpace, Taken, PageNo, BitOr;
      Narrow(1, all, 1, flat.Keys);
      frame := TakeData();
      ghost var m1 := pmm.ram[..];
      Narrow(0, all, 0, flat.Keys + {Page(s, PageNo(virt))});
      EntryFits(frame, flags);
      MapPage(s, virt, frame, flags);
      SameOnChain(old(pmm.ram[..]), m1, pmm.ram[..], old(Client()), Client(), FrameOf(frame));
    }

    /** Gives a data frame back. */
    method ReleaseData(phys: nat)
      requires Valid() && phys % PAGE_SIZE == 0 && FrameOf(phys) in Client()
      modifies pmm`live, pmm.ram
      ensures Valid() && Client() == old(Client()) - {FrameOf(phys)} && pmm.live <= old(pmm.live)
      ensures SameOn(old(pmm.ram[..]), pmm.ram[..], old(Client()))
    {
      hide BitmapInv, Consistent, Dense, IsFlat, FrameOf, ReachSet;
      ghost var m := pmm.ram[..];
      LiveIsNotBitmap(m, pmm.regions, pmm.live);
      ReleaseTable(phys);
      StillConsistent(m, pmm.ram[..], p4, slots, tables);
    }

    /** A store by the owner of a data frame. */
    method WriteData(f: nat, content: Frame)
      requires Valid() && f in Client() && f < pmm.ram.Length
      modifies pmm.ram
      ensures Valid() && pmm.ram[..] == old(pmm.ram[..])[f := content]
    {
      hide BitmapInv, Consistent, Dense, IsFlat, FrameOf, ReachSet;
      ghost var m := pmm.ram[..];
      LiveIsNotBitmap(m, pmm.regions, pmm.live);
      ClientWriteKeepsInv(m, pmm.regions, pmm.live, f, content);
      StillConsistent(m, m[f := content], p4, slots, tables);
      pmm.ram[f] := content;
      assert pmm.ram[..] == m[f := content];
    }

    /** `pmm_free(mm->p4)` once the last unmap has cleared `p4`: address 0 is in no region. */
    method ReleaseRoot(s: nat)
      requires Valid() && s in p4 && p4[s] == 0
      modifies pmm`live, pmm.ram
      ensures Valid() && pmm.live == old(pmm.live) && pmm.ram[..] == old(pmm.ram[..])
    {
      hide BitmapInv, Consistent, Dense, IsFlat, ReachSet;
      LiveIsNotBitmap(pmm.ram[..], pmm.regions, pmm.live);
      pmm.Release(p4[s]);
      assert pmm.live == old(pmm.live);
    }

    lemma TreeFacts()
      requires Valid()
      ensures Consistent(pmm.ram[..], p4, slots, tables) && Dense(slots) && IsFlat(slots, flat)
      ensures tables.Keys <= pmm.live && Client() == pmm.live - tables.Keys
    {
    }

    lemma TablesAreOk()
      requires Valid()
      ensures TablesOk(slots, tables) && pmm.live == Client() + tables.Keys
      ensures forall f :: f in tables ==> tables[f].sp in p4
    {
      hide BitmapInv, FrameOf;
    }

    lemma ClientInRam()
      requires Valid()
      ensures Client() <= pmm.live && forall f :: f in Client() ==> f < pmm.ram.Length
    {
      hide BitmapInv, Consistent;
      LiveIsNotBitmap(pmm.ram[..], pmm.regions, pmm.live);
    }

    /** Scanning a table's words tells whether it has an entry. */
    lemma EmptyMeans(n: Node, table: nat)
      requires TreeOk() && n in slots && Depth(n.path) < 4 && FrameOf(slots[n]) == FrameOf(table)
      ensures FrameOf(table) < pmm.ram.Length
      ensures HasChild(slots, n) <==> !(forall j: nat :: j < 512 ==> Word(pmm.ram[FrameOf(table)], j) == 0)
    {
      hide BitmapInv, Word;
      TableIsLive(n);
      var f := FrameOf(table);
      assert tables[f] == n;
      assert forall j: nat :: j < 512 ==> Word(pmm.ram[..][f], j) == Slot(slots, Child(n, j));
    }

    lemma TablesDiffer(n: Node, c: Node)
      requires TreeOk() && n in slots && c in slots && n != c && Depth(n.path) < 4 && Depth(c.path) < 4
      ensures FrameOf(slots[n]) != FrameOf(slots[c])
    {
      hide BitmapInv;
    }

    /** The address that a setter stores through names the frame of the table above the entry. */
    lemma Getters(s: nat, i4: nat, i3: nat, i2: nat)
      requires TreeOk() && s in p4 && i4 < 512 && i3 < 512 && i2 < 512
      ensures var m := pmm.ram[..];
        var n4 := Node(s, Root); var n3 := Child(n4, i4); var n2 := Child(n3, i3); var n1 := Child(n2, i2);
        && (n4 in slots ==> FrameOf(slots[n4]) == FrameOf(p4[s]))
        && (n3 in slots ==> FrameOf(slots[n3]) == FrameOf(Masked(P4Entry(m, p4[s], i4))))
        && (n2 in slots ==> FrameOf(slots[n2]) == FrameOf(Masked(P3Entry(m, p4[s], i4, i3))))
        && (n1 in slots ==> FrameOf(slots[n1]) == FrameOf(Masked(P2Entry(m, p4[s], i4, i3, i2))))
    {
      hide BitmapInv, P4Entry, P3Entry, P2Entry, Masked;
      var n4 := Node(s, Root);
      var n3 := Child(n4, i4);
      var n2 := Child(n3, i3);
      var n1 := Child(n2, i2);
      GettersFollowWalk(pmm.ram[..], p4, slots, tables, s, i4, i3, i2, 0);
      if n3 in slots { MaskedFrame(slots[n3]); }
      if n2 in slots { MaskedFrame(slots[n2]); }
      if n1 in slots { MaskedFrame(slots[n1]); }
    }

    lemma TableIsLive(n: Node)
      requires TreeOk() && n in slots && Depth(n.path) < 4
      ensures FrameOf(slots[n]) in tables && FrameOf(slots[n]) in pmm.live
      ensures FrameOf(slots[n]) < pmm.ram.Length
    {
      LiveIsNotBitmap(pmm.ram[..], pmm.regions, pmm.live);
    }
  }

  /** `P4_NDX` to `P1_NDX` of an address. */
  method Index(virt: nat) returns (i4: nat, i3: nat, i2: nat, i1: nat)
    ensures i4 < 512 && i3 < 512 && i2 < 512 && i1 < 512
    ensures i4 == P4Ndx(virt) && i3 == P3Ndx(virt) && i2 == P2Ndx(virt) && i1 == P1Ndx(virt)
    ensures PagePath(PageNo(virt)) == Sub(Sub(Sub(Sub(Root, i4), i3), i2), i1)
  {
    IndicesSpellPage(virt);
    return P4Ndx(virt), P3Ndx(virt), P2Ndx(virt), P1Ndx(virt);
  }

  lemma Chain(a: map<Node, nat>, b: map<Node, nat>, c: map<Node, nat>, sp: nat,
              flags: nat)
    requires GrowsBy(a, b, sp, flags) && GrowsBy(b, c, sp, flags)
    ensures GrowsBy(a, c, sp, flags)
  {
  }

  /** Setting the leaf entry of a page sets that page of the flat map. */
  lemma Mapped(s0: map<Node, nat>, s1: map<Node, nat>, flat: map<Page, nat>, g: Page, e: nat, flags: nat)
    requires IsFlat(s0, flat) && GrowsBy(s0, s1, g.sp, flags) && g.v < PAGES
    ensures IsFlat(s1[Leaf(g) := e], flat[g := e])
    ensures OnlySpace(s0, s1[Leaf(g) := e], g.sp) && Taken(s0, s1[Leaf(g) := e], flags)
  {
    hide PagePath;
    PageOfPagePath(g.v);
    forall h: Page | h.v < PAGES
      ensures Depth(Leaf(h).path) == 4 && (Leaf(h) == Leaf(g) ==> h == g)
    {
      PageOfPagePath(h.v);
      if Leaf(h) == Leaf(g) { PagesApart(h.v, g.v); }
    }
  }

  lemma RootDense(slots: map<Node, nat>, s: nat, e: nat)
    requires Dense(slots)
    ensures DenseBut(slots[Node(s, Root) := e], Node(s, Root))
  {
    var s1 := slots[Node(s, Root) := e];
    forall k | k in s1 && Depth(k.path) < 4 && k != Node(s, Root)
      ensures HasChild(s1, k)
    {
      var j: nat :| j < 512 && Child(k, j) in slots;
      assert Child(k, j) in s1;
    }
  }

  lemma LeafDense(slots: map<Node, nat>, c: Node)
    requires DenseBut(slots, c) && Depth(c.path) == 4
    ensures Dense(slots)
  {
  }

  // ---------- runs ----------

  datatype PageOp = MapOp(sp: nat, virt: nat, phys: nat, flags: nat) | UnmapOp(sp: nat, virt: nat)

  function Apply(flat: map<Page, nat>, op: PageOp): map<Page, nat>
  {
    match op
    case MapOp(s, virt, phys, flags) => flat[Page(s, PageNo(virt)) := BitOr(phys, flags)]
    case UnmapOp(s, virt) => flat - {Page(s, PageNo(virt))}
  }

  function ApplyAll(flat: map<Page, nat>, ops: seq<PageOp>): map<Page, nat>
  {
    if |ops| == 0 then flat else Apply(ApplyAll(flat, ops[..|ops| - 1]), ops[|ops| - 1])
  }

  predicate Legal(flat: map<Page, nat>, spaces: set<nat>, op: PageOp)
  {
    op.sp in spaces &&
    match op
    case MapOp(_, _, phys, flags) => 0 < flags < PAGE_SIZE && BitOr(phys, flags) < WORD_LIMIT
    case UnmapOp(s, virt) => Page(s, PageNo(virt)) in flat
  }

  /** Each step meets what the code expects: entries are nonzero, only mapped pages are unmapped. */
  predicate LegalRun(flat: map<Page, nat>, spaces: set<nat>, ops: seq<PageOp>)
  {
    |ops| > 0 ==>
      LegalRun(flat, spaces, ops[..|ops| - 1]) &&
      Legal(ApplyAll(flat, ops[..|ops| - 1]), spaces, ops[|ops| - 1])
  }

  lemma {:induction false} LegalAt(flat: map<Page, nat>, spaces: set<nat>, ops: seq<PageOp>, i: nat)
    requires LegalRun(flat, spaces, ops) && i < |ops|
    ensures Legal(ApplyAll(flat, ops[..i]), spaces, ops[i])
  {
    if i < |ops| - 1 {
      LegalAt(flat, spaces, ops[..|ops| - 1], i);
      assert ops[..|ops| - 1][..i] == ops[..i];
    }
  }

  lemma SameOnStart(m: seq<Frame>, c: set<nat>)
    ensures SameOn(m, m, c)
  {
  }

  lemma SameOnTwice(m0: seq<Frame>, m1: seq<Frame>, m2: seq<Frame>, c: set<nat>)
    requires SameOn(m0, m1, c) && SameOn(m1, m2, c)
    ensures SameOn(m0, m2, c)
  {
  }

  lemma PresentShrunk(s0: map<Node, nat>, s1: map<Node, nat>)
    requires TablesPresent(s0) && Shrinks(s0, s1)
    ensures TablesPresent(s1)
  {
  }

  /** The tables above a mapped page stay as they are, and with them what they let through. */
  lemma CarriedKept(p4: map<nat, nat>, s0: map<Node, nat>, s1: map<Node, nat>, g: Page, b: nat)
    requires SlotsOk(p4, s0) && g.v < PAGES && Leaf(g) in s0 && KeepsTables(s0, s1)
    requires Carried(s0, g.sp, LowestTable(g.v), b)
    ensures Carried(s1, g.sp, LowestTable(g.v), b)
  {
    hide PagePath, Bit;
    PageOfPagePath(g.v);
    var leaf := PagePath(g.v);
    forall q | Above(q, leaf.up) && q.Sub? && Node(g.sp, q) in s1 ensures Bit(s1[Node(g.sp, q)], b) {
      AboveStep(q, leaf);
      AncestorPresent(p4, s0, g.sp, q, leaf);
      AboveDepth(q, leaf.up);
    }
  }

  // ---------- counting frames ----------

  /** The places of tables are those above mapped pages. */
  lemma SlotsAreTables(m: seq<Frame>, p4: map<nat, nat>, slots: map<Node, nat>, tables: map<nat, Node>,
                       flat: map<Page, nat>)
    requires Consistent(m, p4, slots, tables) && Dense(slots) && IsFlat(slots, flat)
    ensures forall n :: n in slots && Depth(n.path) < 4 <==> n in TableNodes(flat.Keys)
    ensures forall n :: n in TableNodes(flat.Keys) ==> exists f :: f in tables && tables[f] == n
  {
    hide PagePath, TablesAbove, Depth, Dense, IsFlat, Mirrors, FrameOf;
    forall n ensures n in slots && Depth(n.path) < 4 <==> n in TableNodes(flat.Keys) {
      if n in slots && Depth(n.path) < 4 {
        var g := PageBelow(p4, slots, flat, n);
        AboveIsTable(g, n.path);
      }
      if n in TableNodes(flat.Keys) {
        var g :| g in flat && n in TablesAbove(g);
        TablesAreAbove(g, n);
        TreeIsPages(m, p4, slots, tables, flat, n);
      }
    }
    forall n | n in TableNodes(flat.Keys) ensures exists f :: f in tables && tables[f] == n {
      assert tables[FrameOf(slots[n])] == n;
    }
  }

  lemma TablesFit(tables: map<nat, Node>, slots: map<Node, nat>, ns: set<Node>)
    requires TablesOk(slots, tables) && forall n :: n in slots && Depth(n.path) < 4 ==> n in ns
    ensures |tables| <= |ns|
  {
    hide FrameOf, Depth;
    InjectionSize(tables, ns);
  }

  lemma OneMore(live: set<nat>, part: set<nat>, f: nat)
    requires f !in live && part <= live
    ensures live + {f} - part == live - part + {f} && |live + {f} - part| == |live - part| + 1
  {
    assert live + {f} - part == live - part + {f};
  }

  lemma SameOnLess(m0: seq<Frame>, m1: seq<Frame>, c: set<nat>, d: set<nat>)
    requires SameOn(m0, m1, c) && d <= c
    ensures SameOn(m0, m1, d)
  {
  }

  lemma SplitSize(a: set<nat>, b: set<nat>)
    requires b <= a
    ensures |a - b| == |a| - |b|
  {
    assert a == b + (a - b);
  }

  // ---------- the tree is determined by the pages ----------

  lemma {:induction false} AboveParent(p: Path, i: nat, q: Path)
    requires Above(Sub(p, i), q)
    ensures Above(p, q)
  {
    if q != Sub(p, i) { AboveParent(p, i, q.up); }
  }

  lemma {:induction false} AncestorPresent(p4: map<nat, nat>, slots: map<Node, nat>, s: nat, p: Path, q: Path)
    requires SlotsOk(p4, slots) && Node(s, q) in slots && Above(p, q)
    ensures Node(s, p) in slots
  {
    if p != q {
      assert Node(s, q).path.up == q.up;
      AncestorPresent(p4, slots, s, p, q.up);
    }
  }

  /** From any table one can walk down to a mapped page. */
  lemma PageBelow(p4: map<nat, nat>, slots: map<Node, nat>, flat: map<Page, nat>, n: Node) returns (g: Page)
    requires SlotsOk(p4, slots) && Dense(slots) && IsFlat(slots, flat) && n in slots
    ensures g in flat && g.sp == n.sp && Above(n.path, PagePath(g.v))
    decreases 4 - Depth(n.path)
  {
    hide PagePath;
    if Depth(n.path) == 4 {
      var v := PageAt(n.path);
      g := Page(n.sp, v);
      assert Leaf(g) == n;
    } else {
      var i: nat :| i < 512 && Child(n, i) in slots;
      ChildFacts(n, i);
      g := PageBelow(p4, slots, flat, Child(n, i));
      AboveParent(n.path, i, PagePath(g.v));
    }
  }

  /** A table exists at a place exactly when some mapped page lies below it. */
  lemma TreeIsPages(m: seq<Frame>, p4: map<nat, nat>, slots: map<Node, nat>, tables: map<nat, Node>,
                    flat: map<Page, nat>, n: Node)
    requires Consistent(m, p4, slots, tables) && Dense(slots) && IsFlat(slots, flat)
    ensures n in slots <==> exists g :: g in flat && g.sp == n.sp && Above(n.path, PagePath(g.v))
  {
    hide PagePath;
    if n in slots {
      var g := PageBelow(p4, slots, flat, n);
    }
    if g :| g in flat && g.sp == n.sp && Above(n.path, PagePath(g.v)) {
      assert Leaf(g) in slots;
      AncestorPresent(p4, slots, n.sp, n.path, PagePath(g.v));
    }
  }

  /** Sets that agree in and outside a common part are equal. */
  lemma SameRest(a: set<nat>, b: set<nat>, t: set<nat>)
    requires t <= a && t <= b && a - t == b - t
    ensures a == b
  {
    assert a == (a - t) + t && b == (b - t) + t;
  }

  /** If a tree grew, then shrank back to the same pages, it is the same tree in the same frames. */
  lemma SamePagesSameTree(m0: seq<Frame>, p0: map<nat, nat>, s0: map<Node, nat>, t0: map<nat, Node>, s1: map<Node, nat>,
                          m2: seq<Frame>, p2: map<nat, nat>, s2: map<Node, nat>, t2: map<nat, Node>, flat: map<Page,
                          nat>)
    requires Consistent(m0, p0, s0, t0) && Dense(s0) && IsFlat(s0, flat)
    requires Consistent(m2, p2, s2, t2) && Dense(s2) && IsFlat(s2, flat)
    requires KeepsTables(s0, s1) && Shrinks(s1, s2) && p0.Keys == p2.Keys
    ensures s2 == s0 && t2.Keys == t0.Keys && p2 == p0
  {
    hide PagePath, Mirrors, SlotsOk, Dense, FrameOf, TablesOk, RootsOk;
    assert s0.Keys == s2.Keys by {
      forall n
        ensures n in s0.Keys <==> n in s2.Keys
      {
        TreeIsPages(m0, p0, s0, t0, flat, n);
        TreeIsPages(m2, p2, s2, t2, flat, n);
      }
    }
    assert s2 == s0 by {
      forall n | n in s0
        ensures s2[n] == s0[n]
      {
        SameEntry(p0, s0, s1, s2, flat, n);
      }
    }
    SameFrames(s0, t0, t2);
    SameRoots(p0, p2, s0);
  }

  lemma SameEntry(p0: map<nat, nat>, s0: map<Node, nat>, s1: map<Node, nat>, s2: map<Node, nat>, flat: map<Page,
                  nat>, n: Node)
    requires SlotsOk(p0, s0) && IsFlat(s0, flat) && IsFlat(s2, flat) && KeepsTables(s0, s1) && Shrinks(s1, s2)
    requires n in s0 && n in s2
    ensures s2[n] == s0[n]
  {
    hide PagePath;
    if Depth(n.path) == 4 {
      var v := PageAt(n.path);
      assert Leaf(Page(n.sp, v)) == n;
    }
  }

  lemma SameFrames(slots: map<Node, nat>, t0: map<nat, Node>, t2: map<nat, Node>)
    requires TablesOk(slots, t0) && TablesOk(slots, t2)
    ensures t0.Keys == t2.Keys
  {
    hide FrameOf;
    forall f ensures f in t0.Keys <==> f in t2.Keys {
      if f in t0 { assert FrameOf(slots[t0[f]]) == f; }
      if f in t2 { assert FrameOf(slots[t2[f]]) == f; }
    }
  }

  lemma SameRoots(p0: map<nat, nat>, p2: map<nat, nat>, slots: map<Node, nat>)
    requires RootsOk(p0, slots) && RootsOk(p2, slots) && p0.Keys == p2.Keys
    ensures p0 == p2
  {
  }

  lemma NoRoot(p4: map<nat, nat>, slots: map<Node, nat>, s: nat)
    requires SlotsOk(p4, slots) && RootsOk(p4, slots) && s in p4 && p4[s] == 0
    ensures Node(s, Root) !in slots
  {
  }

  lemma RootFacts(m: seq<Frame>, p4: map<nat, nat>, slots: map<Node, nat>, tables: map<nat, Node>, s: nat)
    requires Consistent(m, p4, slots, tables) && s in p4 && Node(s, Root) in slots
    ensures Depth(Node(s, Root).path) == 0 && p4[s] == slots[Node(s, Root)] && p4[s] % PAGE_SIZE == 0
  {
  }

  /** Dropping an entry of table n can leave only n empty. */
  lemma DroppedDense(s0: map<Node, nat>, n: Node, i: nat)
    requires Dense(s0)
    ensures DenseBut(s0 - {Child(n, i)}, n)
  {
    var s1 := s0 - {Child(n, i)};
    forall k | k in s1 && Depth(k.path) < 4 && k != n
      ensures HasChild(s1, k)
    {
      var j: nat :| j < 512 && Child(k, j) in s0;
      assert Child(k, j) in s1;
    }
  }

  lemma DroppedTableDense(s0: map<Node, nat>, n: Node, i: nat)
    requires DenseBut(s0, Child(n, i))
    ensures DenseBut(s0 - {Child(n, i)}, n)
  {
    var s1 := s0 - {Child(n, i)};
    forall k | k in s1 && Depth(k.path) < 4 && k != n
      ensures HasChild(s1, k)
    {
      var j: nat :| j < 512 && Child(k, j) in s0;
      assert Child(k, j) in s1;
    }
  }

  lemma DroppedRootDense(s0: map<Node, nat>, s: nat)
    requires DenseBut(s0, Node(s, Root))
    ensures Dense(s0 - {Node(s, Root)})
  {
    var s1 := s0 - {Node(s, Root)};
    forall k | k in s1 && Depth(k.path) < 4
      ensures HasChild(s1, k)
    {
      var j: nat :| j < 512 && Child(k, j) in s0;
      assert Child(k, j) in s1;
    }
  }

  lemma DenseAgain(slots: map<Node, nat>, n: Node)
    requires DenseBut(slots, n) && HasChild(slots, n)
    ensures Dense(slots)
  {
  }

  /** Above a mapped page all four tables are present. */
  lemma LeafChain(m: seq<Frame>, p4: map<nat, nat>, slots: map<Node, nat>, tables: map<nat, Node>,
                  flat: map<Page, nat>, g: Page, n4: Node, i4: nat, i3: nat, i2: nat, i1: nat)
    requires Consistent(m, p4, slots, tables) && IsFlat(slots, flat) && g in flat && n4 == Node(g.sp, Root)
    requires Leaf(g) == Child(Child(Child(Child(n4, i4), i3), i2), i1)
    ensures var n3 := Child(n4, i4); var n2 := Child(n3, i3); var n1 := Child(n2, i2);
      && Child(n1, i1) in slots && n1 in slots && n2 in slots && n3 in slots && n4 in slots
      && Depth(n1.path) == 3 && Depth(n2.path) == 2 && Depth(n3.path) == 1 && Depth(n4.path) == 0
  {
    var n3 := Child(n4, i4);
    var n2 := Child(n3, i3);
    var n1 := Child(n2, i2);
    assert Child(n1, i1).path.up == n1.path && n1.path.up == n2.path;
    assert n2.path.up == n3.path && n3.path.up == n4.path;
  }

  /** Clearing the leaf entry of a page removes that page of the flat map. */
  lemma Unmapped(s0: map<Node, nat>, flat: map<Page, nat>, g: Page)
    requires IsFlat(s0, flat) && g.v < PAGES
    ensures IsFlat(s0 - {Leaf(g)}, flat - {g})
    ensures OnlySpace(s0, s0 - {Leaf(g)}, g.sp) && Shrinks(s0, s0 - {Leaf(g)})
  {
    hide PagePath;
    forall h: Page | h.v < PAGES && Leaf(h) == Leaf(g)
      ensures h == g
    {
      PagesApart(h.v, g.v);
    }
  }

  /** Removing an empty table afterwards changes neither the flat map nor another space. */
  lemma Pruned(s0: map<Node, nat>, s1: map<Node, nat>, flat: map<Page, nat>, n: Node)
    requires IsFlat(s1, flat) && Depth(n.path) < 4 && OnlySpace(s0, s1, n.sp) && Shrinks(s0, s1)
    ensures IsFlat(s1 - {n}, flat) && OnlySpace(s0, s1 - {n}, n.sp) && Shrinks(s0, s1 - {n})
  {
    hide PagePath;
    forall h: Page | h.v < PAGES
      ensures Leaf(h) != n
    {
      PageOfPagePath(h.v);
    }
  }

  lemma EntryFits(addr: nat, flags: nat)
    requires addr % PAGE_SIZE == 0 && addr + PAGE_SIZE <= WORD_LIMIT && flags < PAGE_SIZE
    ensures BitOr(addr, flags) < WORD_LIMIT
  {
    BitOrKeepsFrame(addr, flags);
  }

  lemma EntryNames(addr: nat, flags: nat)
    requires addr > 0 && flags < PAGE_SIZE
    ensures FrameOf(BitOr(addr, flags)) == FrameOf(addr)
    ensures 0 < BitOr(addr, flags) <= addr + flags
    ensures addr % PAGE_SIZE == 0 ==> Carries(BitOr(addr, flags), flags)
  {
    BitOrKeepsFrame(addr, flags);
  }

  lemma SameFrameLoad(m: seq<Frame>, t: nat, u: nat, i: nat)
    requires FrameOf(t) == FrameOf(u) && i < 512
    ensures Load(m, t, i) == Load(m, u, i)
  {
  }

  lemma SlotIsZero(m: seq<Frame>, p4: map<nat, nat>, slots: map<Node, nat>, tables: map<nat, Node>, n: Node)
    requires Consistent(m, p4, slots, tables) && Slot(slots, n) == 0
    ensures n !in slots
  {
  }

  lemma GrewBy(s0: map<Node, nat>, s1: map<Node, nat>, c: Node, flags: nat)
    requires s1 == s0 || (c !in s0 && Depth(c.path) < 4 && c in s1 && s1 == s0[c := s1[c]])
    requires s1 == s0 || c.path.Root? || Carries(s1[c], flags)
    ensures GrowsBy(s0, s1, c.sp, flags)
  {
  }

  lemma DenseMoves(slots: map<Node, nat>, n: Node, i: nat)
    requires DenseBut(slots, n) && i < 512 && Child(n, i) in slots
    ensures DenseBut(slots, Child(n, i))
  {
    assert HasChild(slots, n);
  }

  lemma GrownDense(s0: map<Node, nat>, n: Node, i: nat, e: nat)
    requires DenseBut(s0, n) && i < 512
    ensures DenseBut(s0[Child(n, i) := e], Child(n, i))
  {
    var s1 := s0[Child(n, i) := e];
    forall k | k in s1 && Depth(k.path) < 4 && k != Child(n, i)
      ensures HasChild(s1, k)
    {
      if k == n {
        assert Child(n, i) in s1;
      } else {
        var j: nat :| j < 512 && Child(k, j) in s0;
        assert Child(k, j) in s1;
      }
    }
  }
}
