/** Address spaces (src/mm/vmm.c, lines 186-477): building, duplicating and freeing them. */
module Vmm {
  import opened Bytes
  import opened Pmm
  import opened PageTables
  import opened Counts
  import opened Paging
  import opened Views
  import opened Fork
  import opened Teardown
  import opened Fill

  class AddressSpaces {
    const mapper: Mapper
    /** The `vm_areas` list of every `struct mm`, and all `struct vm_area`, by address. */
    var areas: map<nat, seq<nat>>
    var vmas: map<nat, Vma>
    /** Names from here on have not been given to an area, and to a space. */
    var next: nat
    var nextSpace: nat
    ghost var owner: map<Page, nat>
    ghost var home: map<nat, Page>

    ghost function V(): View
      reads this, mapper, mapper.pmm, mapper.pmm.ram
    {
      View(areas, vmas, mapper.flat, owner, home, mapper.Client(), mapper.pmm.live, mapper.slots, mapper.tables,
           mapper.pmm.ram[..])
    }

    /** The state as it will be once area a exists. */
    ghost function With(a: nat, nv: Vma): View
      reads this, mapper, mapper.pmm, mapper.pmm.ram
    {
      V().(vmas := vmas[a := nv])
    }

    ghost predicate Base()
      reads this, mapper, mapper.pmm, mapper.pmm.ram
    {
      && mapper.Valid() && mapper.p4.Keys == areas.Keys
      && (forall s :: s in areas ==> s < nextSpace) && (forall a :: a in vmas ==> a < next)
      && TablesPresent(mapper.slots)
    }

    ghost predicate Valid()
      reads this, mapper, mapper.pmm, mapper.pmm.ram
    {
      Base() && Core(V()) && Lists(V()) && Guarded(V())
    }

    /** Every frame that may be handed out is reached through the map of physical memory. */
    ghost predicate Covered()
      reads mapper`flat
    {
      PhysMapped(mapper.flat, mapper.limit)
    }

    /** `kernel_mm` as the program starts: statically zeroed. */
    constructor (m: Mapper)
      requires m.Valid() && m.p4 == map[] && m.flat == map[] && m.Client() == {} && m.slots == map[]
      modifies m`p4
      ensures Valid() && mapper == m && m.flat == old(m.flat) && areas == map[KERNEL := []] && vmas == map[]
      ensures nextSpace == 1 && mapper.slots == map[]
    {
      hide BitmapInv, Consistent, Dense, IsFlat, Mapper.Within;
      mapper := m;
      areas, vmas, next, nextSpace := map[KERNEL := []], map[], 1, 1;
      owner, home := map[], map[];
      new;
      hide Mapper.Valid, Mapper.Client;
      mapper.AddSpace(KERNEL);
      EmptySpace(V());
    }

    /** The loop of `anon_mmap`: a zeroed frame for every page of a new area. */
    method MapFresh(s: nat, ghost a: nat, nv: Vma, flags: nat, ghost all: set<Page>)
      requires Base() && s in areas && VmaOk(nv) && flags == Flags(nv.prot, nv.user)
      requires a !in vmas && Core(With(a, nv))
      requires nv.kind.Reg? || (nv.kind.KernelHeap? && s == KERNEL)
      requires forall p: nat :: Covers(nv, p) ==> Page(s, p) !in mapper.flat
      requires mapper.Room(nv.pages, all) && mapper.flat.Keys + Stretch(s, FirstPage(nv), nv.pages) <= all
      modifies this`owner, this`home, mapper`p4, mapper`slots, mapper`tables, mapper`flat
      modifies mapper.pmm`live, mapper.pmm.ram
      ensures Base() && Core(With(a, nv))
      ensures Grown(old(With(a, nv)), With(a, nv), s, a, FirstPage(nv), nv.pages)
      ensures FreshPages(old(With(a, nv)), With(a, nv)) && Isolated(old(With(a, nv)), With(a, nv), s)
      ensures |mapper.Client()| == |old(mapper.Client())| + nv.pages && mapper.flat.Keys <= all
      ensures Taken(old(mapper.slots), mapper.slots, flags)
    {
      hide Mapper.Valid, Mapper.Client, Core, Isolated, Grown, FreshPages, Taken, TablesPresent, PageNo, FrameOf, Flags;
      hide TableNodes;
      TakenNothing(mapper.slots, flags);
      KeysInCore(With(a, nv));
      IsolatedStart(With(a, nv), s, a, FirstPage(nv));
      for i := 0 to nv.pages
        invariant Base() && Core(With(a, nv))
        invariant Grown(old(With(a, nv)), With(a, nv), s, a, FirstPage(nv), i)
        invariant FreshPages(old(With(a, nv)), With(a, nv)) && Isolated(old(With(a, nv)), With(a, nv), s)
        invariant |mapper.Client()| == |old(mapper.Client())| + i && mapper.flat.Keys <= all
        invariant Taken(old(mapper.slots), mapper.slots, flags)
      {
        ghost var s1 := mapper.slots;
        PageOfOffset(nv, i);
        var virt := nv.start + PAGE_SIZE * i;
        ghost var g := Page(s, PageNo(virt));
        assert Covers(nv, g.v) && g in Stretch(s, FirstPage(nv), nv.pages);
        MapFreshPage(s, a, nv, flags, virt, g, FirstPage(nv), i, i + 1, old(With(a, nv)), all);
        TakenTwice(old(mapper.slots), s1, mapper.slots, flags);
      }
    }

    ghost method NotePage(g: Page, a: nat, f: nat)
      modifies this`owner, this`home
      ensures owner == old(owner)[g := a] && home == old(home)[f := g]
    {
      owner := owner[g := a];
      home := home[f := g];
    }

    method MapFreshPage(s: nat, ghost a: nat, nv: Vma, flags: nat, virt: nat,
                        ghost g: Page, ghost first: nat, ghost i: nat, ghost n: nat, ghost v0: View,
                        ghost all: set<Page>)
      requires Base() && s in areas && flags == Flags(nv.prot, nv.user)
      requires a !in vmas && Core(With(a, nv))
      requires nv.kind.Reg? || (nv.kind.KernelHeap? && s == KERNEL)
      requires first == FirstPage(nv) && i < nv.pages && n == i + 1
      requires g == Page(s, PageNo(virt)) && g.v == first + i && g !in v0.flat
      requires Grown(v0, With(a, nv), s, a, first, i)
      requires FreshPages(v0, With(a, nv)) && Isolated(v0, With(a, nv), s) && v0.owner.Keys == v0.flat.Keys
      requires mapper.Room(1, all) && mapper.flat.Keys <= all && g in all
      modifies this`owner, this`home, mapper`p4, mapper`slots, mapper`tables, mapper`flat
      modifies mapper.pmm`live, mapper.pmm.ram
      ensures Base() && Core(With(a, nv))
      ensures Grown(v0, With(a, nv), s, a, first, n)
      ensures FreshPages(v0, With(a, nv)) && Isolated(v0, With(a, nv), s)
      ensures |mapper.Client()| == |old(mapper.Client())| + 1 && mapper.flat.Keys <= all
      ensures Taken(old(mapper.slots), mapper.slots, flags)
    {
      hide Taken, TablesPresent, Bit;
      hide Mapper.Within, Grown, FreshPages, OnlySpace, HomesKept, BitOr, Mapper.Valid, Mapper.Client, TableNodes;
      hide PageNo, FrameOf, Flags, Core, EntryFor, ZeroFrame, Covers, SameOn, Isolated, FirstPage;
      ghost var v := With(a, nv);
      FlagsFit(nv);
      var frame := mapper.MapData(s, virt, flags, all);
      ghost var e := BitOr(frame, flags);
      FreshEntry(frame, flags, nv);
      StillPresent(v.slots, mapper.slots, flags);
      TakenKeeps(v.slots, mapper.slots, flags);
      NotePage(g, a, FrameOf(e));
      FreshPageDone(v0, v, With(a, nv), s, g, a, nv, first, i, n, e);
    }

    /** `mm_insert_vma`. */
    method InsertVma(s: nat, a: nat)
      requires s in areas && a in vmas
      modifies this`areas, this`vmas
      ensures areas == old(areas)[s := [a] + old(areas)[s]]
      ensures vmas == old(vmas)[a := old(vmas)[a].(refcnt := old(vmas)[a].refcnt + 1)]
    {
      vmas := vmas[a := vmas[a].(refcnt := vmas[a].refcnt + 1)];
      areas := areas[s := [a] + areas[s]];
    }

    /** A newly allocated area structure is put at the head of a space's list. */
    method LinkVma(s: nat, nv: Vma)
      requires Base() && s in areas
      modifies this`areas, this`vmas, this`next
      ensures Base()
      ensures areas == old(areas)[s := [old(next)] + old(areas)[s]] && next == old(next) + 1
      ensures vmas == old(vmas)[old(next) := nv.(refcnt := nv.refcnt + 1)]
    {
      hide Mapper.Valid, TablesPresent;
      var p := next;
      vmas := vmas[p := nv];
      next := next + 1;
      InsertVma(s, p);
    }

    /**
     * `anon_mmap` of a range in which the space maps nothing: every page gets a frame of its own,
     * newly allocated and zero, and the other spaces keep their pages, tables and memory.
     */
    method AnonMmap(s: nat, start: nat, pages: nat, prot: nat, user: bool) returns (ghost a: nat)
      requires Valid() && Covered() && s in areas && s != KERNEL
      requires VmaOk(Vma(1, Reg, start, pages, user, prot))
      requires forall p: nat :: Covers(Vma(1, Reg, start, pages, user, prot), p) ==> Page(s, p) !in mapper.flat
      requires mapper.Room(pages, mapper.flat.Keys + Stretch(s, PageNo(start), pages))
      modifies this, mapper`p4, mapper`slots, mapper`tables, mapper`flat, mapper.pmm`live, mapper.pmm.ram
      ensures Valid() && Covered()
      ensures a !in old(vmas) && vmas == old(vmas)[a := Vma(1, Reg, start, pages, user, prot)]
      ensures areas == old(areas)[s := [a] + old(areas)[s]]
      ensures Grown(old(V()), V(), s, a, PageNo(start), pages)
      ensures FreshPages(old(V()), V()) && Isolated(old(V()), V(), s)
      ensures |mapper.Client()| == |old(mapper.Client())| + pages && nextSpace == old(nextSpace)
      ensures mapper.flat.Keys == old(mapper.flat.Keys) + Stretch(s, PageNo(start), pages)
      ensures Taken(old(mapper.slots), mapper.slots, Flags(prot, user))
    {
      hide Taken, Guarded, TablesPresent, Consistent, Dense, IsFlat, Mapper.Room, TableNodes, Stretch;
      hide Mapper.Valid, FrameAllocator.Free, Mapper.Client;
      hide Core, Lists, Grown, FreshPages, Isolated, VmaOk, Covers, PageNo, Flags, PhysMapped;
      var flags := Flags(prot, user);
      ghost var nv := Vma(1, Reg, start, pages, user, prot);
      var p := next;
      a := p;
      ghost var v0 := V();
      mapper.TreeFacts();
      ghost var w0 := With(a, nv);
      NewArea(v0, w0, a);
      MapFresh(s, a, Vma(1, Reg, start, pages, user, prot), flags, v0.flat.Keys + Stretch(s, FirstPage(nv), pages));
      ghost var w1 := With(a, nv);
      LinkVma(s, Vma(0, Reg, start, pages, user, prot));
      ghost var v1 := V();
      MmapDone(v0, w0, w1, v1, old(mapper.p4), s, a, nv, mapper.limit);
    }

    /** The loop of `mm_share_vma`, from the kernel's space. */
    method SharePages(s: nat, a: nat, ghost all: set<Page>)
      requires Base() && Core(V()) && s in areas && s != KERNEL && KERNEL in areas
      requires a in vmas && !vmas[a].kind.Reg? && VmaOk(vmas[a])
      requires forall p: nat :: Covers(vmas[a], p) ==>
        Page(s, p) !in mapper.flat && Page(KERNEL, p) in owner && owner[Page(KERNEL, p)] == a
      requires mapper.Room(0, all) && mapper.flat.Keys + Stretch(s, FirstPage(vmas[a]), vmas[a].pages) <= all
      modifies this`owner, mapper`p4, mapper`slots, mapper`tables, mapper`flat, mapper.pmm`live, mapper.pmm.ram
      ensures Base() && Core(V()) && mapper.Client() == old(mapper.Client())
      ensures Grown(old(V()), V(), s, a, FirstPage(vmas[a]), vmas[a].pages) && Isolated(old(V()), V(), s)
      ensures mapper.flat.Keys <= all
      ensures Taken(old(mapper.slots), mapper.slots, Flags(vmas[a].prot, vmas[a].user))
    {
      hide Taken, TablesPresent;
      hide Mapper.Valid, FrameAllocator.Free, Mapper.Client;
      hide Core, Grown, Isolated, PageNo, Flags, TableNodes;
      var nv := vmas[a];
      var flags := Flags(nv.prot, nv.user);
      ghost var v0 := V();
      assert v0.owner.Keys == v0.flat.Keys by { KeysInCore(v0); }
      IsolatedStart(v0, s, a, FirstPage(nv));
      TakenNothing(v0.slots, flags);
      for i := 0 to nv.pages
        invariant Base() && Core(V()) && mapper.Client() == old(mapper.Client())
        invariant Grown(v0, V(), s, a, FirstPage(nv), i) && Isolated(v0, V(), s)
        invariant mapper.flat.Keys <= all
        invariant Taken(v0.slots, mapper.slots, flags)
      {
        ghost var s1 := mapper.slots;
        PageOfOffset(nv, i);
        var virt := nv.start + PAGE_SIZE * i;
        ghost var g := Page(s, PageNo(virt));
        assert Covers(nv, g.v) && g in Stretch(s, FirstPage(nv), nv.pages);
        SharePage(s, a, flags, virt, g, FirstPage(nv), i, i + 1, v0, all);
        TakenTwice(v0.slots, s1, mapper.slots, flags);
      }
    }

    method SharePage(s: nat, a: nat, flags: nat, virt: nat,
                     ghost g: Page, ghost first: nat, ghost i: nat, ghost n: nat, ghost v0: View, ghost all: set<Page>)
      requires Base() && Core(V()) && s in areas && s != KERNEL && KERNEL in areas && a in vmas
      requires !vmas[a].kind.Reg? && flags == Flags(vmas[a].prot, vmas[a].user)
      requires first == FirstPage(vmas[a]) && i < vmas[a].pages && n == i + 1
      requires g == Page(s, PageNo(virt)) && g.v == first + i && g !in v0.flat
      requires Page(KERNEL, g.v) in v0.owner && v0.owner[Page(KERNEL, g.v)] == a
      requires Grown(v0, V(), s, a, first, i) && Isolated(v0, V(), s) && v0.owner.Keys == v0.flat.Keys
      requires mapper.Room(0, all) && mapper.flat.Keys <= all && g in all
      modifies this`owner, mapper`p4, mapper`slots, mapper`tables, mapper`flat, mapper.pmm`live, mapper.pmm.ram
      ensures Base() && Core(V()) && mapper.Client() == old(mapper.Client())
      ensures Grown(v0, V(), s, a, first, n) && Isolated(v0, V(), s)
      ensures mapper.flat.Keys <= all
      ensures Taken(old(mapper.slots), mapper.slots, flags)
    {
      hide Bit, TablesPresent, Taken;
      hide BitmapInv, Consistent, Dense, IsFlat, Mapper.Within, KeepsTables, Grown, OnlySpace, HomesKept;
      hide PageNo, FrameOf, Flags, Core, Covers, SameOn, Isolated, FirstPage;
      hide Mapper.Valid, FrameAllocator.Free, Mapper.Client, TableNodes;
      ghost var v := V();
      mapper.Narrow(0, all, 0, mapper.flat.Keys + {g});
      KernelPage(v0, v, g, s, a, first, i);
      var phys := mapper.LeafEntry(KERNEL, virt);
      mapper.EntryPresent(Page(KERNEL, g.v));
      EntryOfPage(v, Page(KERNEL, g.v), a);
      SharedEntry(phys, flags, vmas[a]);
      var e := BitOr(phys, flags);
      owner := owner[g := a];
      mapper.MapPage(s, virt, phys, flags);
      StillPresent(v.slots, mapper.slots, flags);
      TakenKeeps(v.slots, mapper.slots, flags);
      SharedPageDone(v0, v, V(), s, g, a, first, i, n, e);
    }

    /**
     * `mm_new` and `mm_init`: a space that shares every kernel area, adding one reference to each,
     * and maps nothing else. The only frames it takes hold its tables.
     */
    method MmNew() returns (m: nat)
      requires Valid() && Covered()
      requires mapper.Room(0, mapper.flat.Keys + Renamed(mapper.flat.Keys, KERNEL, nextSpace))
      modifies this, mapper`p4, mapper`slots, mapper`tables, mapper`flat, mapper.pmm`live, mapper.pmm.ram
      ensures Valid() && Covered()
      ensures m !in old(areas) && m != KERNEL && m in areas && areas == old(areas)[m := areas[m]]
      ensures m == old(nextSpace) && nextSpace == m + 1
      ensures Reversed(areas[m], old(areas[KERNEL]), |old(areas[KERNEL])|)
      ensures Bumped(old(vmas), vmas, old(areas[KERNEL]), |old(areas[KERNEL])|)
      ensures KernelMapped(old(V()), V(), m, old(areas[KERNEL]), |old(areas[KERNEL])|)
      ensures forall p: nat :: Page(m, p) in mapper.flat <==> Page(KERNEL, p) in old(mapper.flat)
      ensures Isolated(old(V()), V(), m) && mapper.Client() == old(mapper.Client()) && home == old(home)
      ensures mapper.flat.Keys == old(mapper.flat.Keys) + Renamed(old(mapper.flat.Keys), KERNEL, m)
    {
      hide Mapper.Valid, Mapper.Client, Core, Isolated, Bumped, KernelMapped, Reversed, SpaceOk, Counted, TableNodes;
      hide PhysMapped, TablesPresent, TablesOpen, Consistent, Dense, IsFlat, Lit;
      ghost var v0 := V();
      ghost var all := mapper.flat.Keys + Renamed(mapper.flat.Keys, KERNEL, nextSpace);
      mapper.TreeFacts();
      m := nextSpace;
      AddMm(m);
      ShareKernel(m, v0, all);
      mapper.PagesBelow();
      NewSpaceDone(v0, V(), old(mapper.p4), m, mapper.limit);
    }

    /** A zeroed `struct mm`. */
    method AddMm(m: nat)
      requires Base() && Core(V()) && KERNEL in areas && m == nextSpace
      modifies this`areas, this`nextSpace, mapper`p4
      ensures Base() && Core(V()) && areas == old(areas)[m := []] && nextSpace == m + 1 && m !in old(areas)
      ensures m != KERNEL
      ensures Bumped(old(vmas), vmas, areas[KERNEL], 0) && KernelMapped(old(V()), V(), m, areas[KERNEL], 0)
      ensures Isolated(old(V()), V(), m) && Lit(mapper.slots, m, WRITE) && mapper.Client() == old(mapper.Client())
    {
      hide Mapper.Valid, Mapper.Client, Core, Isolated, Bumped, KernelMapped, TablesPresent;
      ghost var v0 := V();
      mapper.NoEntries(m);
      nextSpace := m + 1;
      areas := areas[m := []];
      mapper.AddSpace(m);
      NewSpaceStart(v0, V(), m, areas[KERNEL]);
    }

    /** The loop of `mm_new` over the kernel's areas. */
    method ShareKernel(m: nat, ghost v0: View, ghost all: set<Page>)
      requires Base() && Core(V()) && m in areas && KERNEL in areas && areas == v0.areas[m := []]
      requires Core(v0) && Lists(v0) && m !in v0.areas && Bumped(v0.vmas, vmas, areas[KERNEL], 0)
      requires KernelMapped(v0, V(), m, areas[KERNEL], 0) && Isolated(v0, V(), m) && mapper.Room(0, all)
      requires KernelOnly(v0) && Lit(mapper.slots, m, WRITE)
      requires mapper.flat.Keys == v0.flat.Keys && v0.flat.Keys + Renamed(v0.flat.Keys, KERNEL, m) <= all
      modifies this`areas, this`vmas, this`owner
      modifies mapper`p4, mapper`slots, mapper`tables, mapper`flat, mapper.pmm`live, mapper.pmm.ram
      ensures Base() && Core(V()) && m in areas && areas == v0.areas[m := areas[m]]
      ensures var ks := v0.areas[KERNEL];
        Reversed(areas[m], ks, |ks|) && Bumped(v0.vmas, vmas, ks, |ks|) && KernelMapped(v0, V(), m, ks, |ks|)
      ensures Isolated(v0, V(), m) && mapper.Client() == old(mapper.Client()) && home == old(home)
      ensures Lit(mapper.slots, m, WRITE)
    {
      hide Mapper.Valid, Mapper.Client, Core, Isolated, Bumped, KernelMapped, SpaceOk, Counted, TableNodes;
      hide Lit, TablesPresent, Bit;
      var ks := areas[KERNEL];
      for j := 0 to |ks|
        invariant Base() && Core(V()) && m in areas && areas == v0.areas[m := areas[m]]
        invariant Reversed(areas[m], ks, j) && Bumped(v0.vmas, vmas, ks, j) && KernelMapped(v0, V(), m, ks, j)
        invariant Isolated(v0, V(), m) && mapper.Client() == old(mapper.Client()) && home == old(home)
        invariant mapper.flat.Keys <= all && Lit(mapper.slots, m, WRITE)
      {
        hide Reversed;
        KernelArea(v0, V(), ks, j);
        KernelStretch(v0, V(), ks, j, m);
        ShareVma(m, ks[j], v0, ks, j, all);
      }
    }

    /** `mm_share_vma`. */
    method ShareVma(m: nat, a: nat, ghost v0: View, ghost ks: seq<nat>, ghost j: nat, ghost all: set<Page>)
      requires Base() && Core(V()) && m in areas && areas == v0.areas[m := areas[m]]
      requires Core(v0) && Lists(v0) && KERNEL in v0.areas && m !in v0.areas
      requires ks == v0.areas[KERNEL] && j < |ks| && a == ks[j]
      requires a in v0.vmas && a in vmas && !vmas[a].kind.Reg? && VmaOk(vmas[a]) && SameArea(v0.vmas[a], vmas[a])
      requires Reversed(areas[m], ks, j) && Bumped(v0.vmas, vmas, ks, j) && KernelMapped(v0, V(), m, ks, j)
      requires Isolated(v0, V(), m) && mapper.Room(0, all) && Lit(mapper.slots, m, WRITE) && Bit(vmas[a].prot, 1)
      requires mapper.flat.Keys + Stretch(m, FirstPage(vmas[a]), vmas[a].pages) <= all
      modifies this`areas, this`vmas, this`owner
      modifies mapper`p4, mapper`slots, mapper`tables, mapper`flat, mapper.pmm`live, mapper.pmm.ram
      ensures Base() && Core(V()) && m in areas && areas == v0.areas[m := areas[m]]
      ensures Reversed(areas[m], ks, j + 1) && Bumped(v0.vmas, vmas, ks, j + 1) && KernelMapped(v0, V(), m, ks, j + 1)
      ensures Isolated(v0, V(), m) && mapper.Client() == old(mapper.Client()) && home == old(home)
      ensures mapper.flat.Keys <= all && Lit(mapper.slots, m, WRITE)
    {
      hide Lit, TablesPresent, Bit;
      hide Mapper.Valid, FrameAllocator.Free, Mapper.Client;
      hide Core, Isolated, Bumped, KernelMapped, Reversed, Lists, Grown, FirstPage, VmaOk, TableNodes;
      ghost var v1 := V();
      ShareIsFree(v0, v1, m, ks, j);
      SharePages(m, a, all);
      StillLit(v1.slots, mapper.slots, m, Flags(vmas[a].prot, vmas[a].user), WRITE);
      ghost var v2 := V();
      InsertVma(m, a);
      ShareDone(v0, v1, v2, V(), m, ks, j);
    }

    /** `mm_copy_from_mm`: copies the frames behind a range of regular pages. */
    method CopyFromMm(dst: nat, src: nat, start: nat, pages: nat)
      requires Valid() && Covered() && dst in areas && src in areas && dst != src
      requires VmaOk(Vma(1, Reg, start, pages, false, 0))
      requires forall p: nat :: PageNo(start) <= p < PageNo(start) + pages ==>
        RegularAt(V(), dst, p) && RegularAt(V(), src, p)
      modifies mapper.pmm.ram
      ensures Valid() && Covered() && V() == old(V()).(mem := mapper.pmm.ram[..])
      ensures Copied(old(V()), mapper.pmm.ram[..], dst, src, PageNo(start), pages)
    {
      hide Mapper.Valid, FrameAllocator.Free, Mapper.Client;
      hide Core, Lists, Copied, PageNo, RegularAt, VmaOk, PhysMapped;
      ghost var v0 := V();
      ghost var first := PageNo(start);
      mapper.ClientInRam();
      assert Copied(v0, mapper.pmm.ram[..], dst, src, first, 0) by { CopyNothing(v0, dst, src, first); }
      for i := 0 to pages
        invariant Valid() && V() == v0.(mem := mapper.pmm.ram[..])
        invariant Copied(v0, mapper.pmm.ram[..], dst, src, first, i)
      {
        PageOfOffset(Vma(1, Reg, start, pages, false, 0), i);
        var virt := start + PAGE_SIZE * i;
        ghost var p := PageNo(virt);
        assert RegularAt(v0, dst, p) && RegularAt(v0, src, p);
        CopyPage(dst, src, virt, v0, first, i, p);
      }
    }

    method CopyPage(dst: nat, src: nat, virt: nat, ghost v0: View, ghost first: nat, ghost i: nat, ghost p: nat)
      requires Valid() && dst in areas && src in areas && dst != src && p == PageNo(virt) == first + i
      requires V() == v0.(mem := mapper.pmm.ram[..]) && Core(v0) && (forall f :: f in v0.client ==> f < |v0.mem|)
      requires forall q: nat :: first <= q < first + i + 1 ==> RegularAt(v0, dst, q) && RegularAt(v0, src, q)
      requires Copied(v0, mapper.pmm.ram[..], dst, src, first, i) && RegularAt(v0, dst, p) && RegularAt(v0, src, p)
      modifies mapper.pmm.ram
      ensures Valid() && V() == v0.(mem := mapper.pmm.ram[..])
      ensures Copied(v0, mapper.pmm.ram[..], dst, src, first, i + 1)
    {
      hide Mapper.Valid, FrameAllocator.Free, Mapper.Client;
      hide Core, Lists, Copied, PageNo, FrameOf;
      ghost var m1 := mapper.pmm.ram[..];
      ghost var before := V();
      RegularFrame(v0, dst, p);
      RegularFrame(v0, src, p);
      var s := mapper.LeafEntry(src, virt);
      var d := mapper.LeafEntry(dst, virt);
      CopiedSize(v0, m1, dst, src, first, i);
      mapper.WriteData(FrameOf(d), mapper.pmm.ram[FrameOf(s)]);
      CopyStep(v0, m1, mapper.pmm.ram[..], dst, src, first, i);
      ValidAfterWrite(before, V());
    }

    /**
     * `mm_dupe`: the new space maps the same pages. A regular page gets a new frame with the same
     * bytes and permissions; a kernel page the same frame. The source and every other space keep
     * their pages, tables, frames and memory.
     */
    method MmDupe(m: nat) returns (n: nat)
      requires Valid() && Covered() && m in areas
      requires mapper.Room(|RegularPages(V(), m)|, mapper.flat.Keys + Renamed(mapper.flat.Keys, m, nextSpace))
      modifies this, mapper`p4, mapper`slots, mapper`tables, mapper`flat, mapper.pmm`live, mapper.pmm.ram
      ensures Valid() && Covered() && n !in old(areas) && n in areas && areas == old(areas)[n := areas[n]]
      ensures Forked(old(V()), V(), m, n, old(areas[m]), |old(areas[m])|)
      ensures forall p: nat :: Page(n, p) in mapper.flat <==> Page(m, p) in old(mapper.flat)
      ensures Isolated(old(V()), V(), n)
      ensures n == old(nextSpace) && nextSpace == n + 1
      ensures |mapper.Client()| == |old(mapper.Client())| + |RegularPages(old(V()), m)|
      ensures mapper.flat.Keys == old(mapper.flat.Keys) + Renamed(old(mapper.flat.Keys), m, n)
    {
      hide Mapper.Valid, FrameAllocator.Free, Mapper.Client;
      hide Core, Isolated, Bumped, KernelMapped, Reversed, SpaceOk, Counted, Forked, RegTotal, TableNodes, RegularPages;
      hide PhysMapped;
      ghost var v0 := V();
      ghost var all, data := mapper.flat.Keys + Renamed(mapper.flat.Keys, m, nextSpace), |RegularPages(V(), m)|;
      mapper.ClientInRam();
      KernelWithin(v0, m, nextSpace);
      mapper.Narrow(data, all, 0, mapper.flat.Keys + Renamed(mapper.flat.Keys, KERNEL, nextSpace));
      n := MmNew();
      var ls := areas[m];
      assert ls == v0.areas[m];
      ForkStart(v0, V(), m, n);
      DataCount(v0, m);
      assert ls[..0] == [];
      for i := 0 to |ls|
        invariant Valid() && Covered() && n in areas && areas == v0.areas[n := areas[n]]
        invariant Forked(v0, V(), m, n, ls, i) && Isolated(v0, V(), n)
        invariant |mapper.Client()| == |v0.client| + RegTotal(v0.vmas, ls[..i]) && mapper.flat.Keys <= all
        invariant nextSpace == n + 1
      {
        AreaAt(v0, V(), m, n, ls, i);
        RegTotalPrefix(v0.vmas, ls, i);
        if vmas[ls[i]].kind.Reg? {
          AreaStretch(v0, V(), m, n, ls, i);
          DupeArea(m, n, ls[i], v0, ls, i, all);
        } else {
          SkipStep(v0, V(), m, n, ls, i);
        }
      }
      assert ls[..|ls|] == ls;
      SamePageSet(v0, V(), m, n);
      DupePageSet(v0, V(), m, n);
    }

    /** One regular area of `mm_dupe`: `anon_mmap` followed by `mm_copy_from_mm`. */
    method DupeArea(m: nat, n: nat, a: nat, ghost v0: View, ghost ls: seq<nat>, ghost i: nat, ghost all: set<Page>)
      requires Valid() && Covered() && n in areas && areas == v0.areas[n := areas[n]] && n != KERNEL && m != n
      requires Core(v0) && Lists(v0) && m in v0.areas && n !in v0.areas && KERNEL in v0.areas && SpaceOk(v0, m)
      requires (forall f :: f in v0.client ==> f < |v0.mem|)
      requires ls == v0.areas[m] && i < |ls| && a == ls[i] && Forked(v0, V(), m, n, ls, i) && Isolated(v0, V(), n)
      requires a in v0.vmas && a in vmas && SameArea(v0.vmas[a], vmas[a]) && vmas[a].kind.Reg? && VmaOk(vmas[a])
      requires mapper.Room(v0.vmas[a].pages, all)
      requires mapper.flat.Keys + Stretch(n, FirstPage(vmas[a]), vmas[a].pages) <= all
      modifies this, mapper`p4, mapper`slots, mapper`tables, mapper`flat, mapper.pmm`live, mapper.pmm.ram
      ensures Valid() && Covered() && n in areas && areas == v0.areas[n := areas[n]]
      ensures Forked(v0, V(), m, n, ls, i + 1) && Isolated(v0, V(), n)
      ensures |mapper.Client()| == |old(mapper.Client())| + v0.vmas[a].pages
      ensures mapper.flat.Keys <= all && nextSpace == old(nextSpace)
    {
      hide Mapper.Valid, FrameAllocator.Free, Mapper.Client;
      hide Core, Isolated, SpaceOk, Forked, Grown, FreshPages, VmaOk;
      hide PageNo, Copied, Lists, Covers, RegularAt, TableNodes, PhysMapped;
      var x := vmas[a];
      ghost var v := V();
      DupeIsFree(v0, v, m, n, ls, i, x);
      mapper.ClientInRam();
      mapper.Narrow(x.pages, all, x.pages, mapper.flat.Keys + Stretch(n, FirstPage(x), x.pages));
      ghost var b := AnonMmap(n, x.start, x.pages, x.prot, x.user);
      ghost var v1 := V();
      DupeRegular(v0, v, v1, m, n, ls, i, b);
      VmaOkRange(x);
      mapper.ClientInRam();
      CopyFromMm(n, m, x.start, x.pages);
      ghost var v2 := V();
      CopyAreaStep(v0, v, v1, v2, m, n, ls, i, b);
      CopyIsolated(v0, v, v1, v2, n, m, FirstPage(x), x.pages);
    }

    /**
     * `mm_copy_from_buf`: the bytes of a buffer go to consecutive virtual addresses, whatever frames
     * back them; bytes past the end of the buffer keep their value.
     */
    method CopyFromBuf(m: nat, src: seq<byte>, start: nat, len: nat, ghost pages: nat)
      requires Valid() && Covered() && m in areas && len <= |src| && len <= pages * PAGE_SIZE
      requires VmaOk(Vma(1, Reg, start, pages, false, 0))
      requires forall p: nat :: PageNo(start) <= p < PageNo(start) + pages ==> RegularAt(V(), m, p)
      modifies mapper.pmm.ram
      ensures Valid() && Covered() && V() == old(V()).(mem := mapper.pmm.ram[..])
      ensures FilledTo(old(V()), mapper.pmm.ram[..], m, PageNo(start), pages, src, len, pages)
    {
      hide Mapper.Valid, FrameAllocator.Free, Mapper.Client;
      hide Core, Lists, FilledTo, PageNo, RegularAt, VmaOk, PhysMapped;
      ghost var v0 := V();
      ghost var first := PageNo(start);
      mapper.ClientInRam();
      var left, pg := len, 0;
      FillNothing(v0, m, first, pages, src, len);
      while left > 0
        invariant Valid() && V() == v0.(mem := mapper.pmm.ram[..])
        invariant FilledTo(v0, mapper.pmm.ram[..], m, first, pages, src, len, pg)
        invariant left == if len > pg * PAGE_SIZE then len - pg * PAGE_SIZE else 0
        invariant pg <= pages && (left == 0 || pg < pages)
        decreases left
      {
        var off := PAGE_SIZE * pg;
        PageOfOffset(Vma(1, Reg, start, pages, false, 0), pg);
        var virt := start + off;
        ghost var p := PageNo(virt);
        assert RegularAt(v0, m, p);
        var bytes := if left > PAGE_SIZE then PAGE_SIZE else left;
        CopyChunk(m, virt, src[off..off + bytes], v0, first, pages, src, len, pg, p);
        left := left - bytes;
        pg := pg + 1;
      }
      if pg < pages {
        RestIsPast(v0, mapper.pmm.ram[..], m, first, pages, src, len, pg);
      } else {
        AllFilled(v0, mapper.pmm.ram[..], m, first, pages, src, len, pg);
      }
    }

    method CopyChunk(m: nat, virt: nat, chunk: seq<byte>, ghost v0: View, ghost first: nat, ghost pages: nat,
                     ghost src: seq<byte>, ghost len: nat, ghost i: nat, ghost p: nat)
      requires Valid() && m in areas && p == PageNo(virt) == first + i && i < pages
      requires V() == v0.(mem := mapper.pmm.ram[..]) && Core(v0) && (forall f :: f in v0.client ==> f < |v0.mem|)
      requires forall q: nat :: first <= q < first + pages ==> RegularAt(v0, m, q)
      requires RegularAt(v0, m, p) && |chunk| <= PAGE_SIZE && len <= |src| && Chunk(src, len, i) == chunk
      requires FilledTo(v0, mapper.pmm.ram[..], m, first, pages, src, len, i)
      modifies mapper.pmm.ram
      ensures Valid() && V() == v0.(mem := mapper.pmm.ram[..])
      ensures FilledTo(v0, mapper.pmm.ram[..], m, first, pages, src, len, i + 1)
    {
      hide Mapper.Valid, FrameAllocator.Free, Mapper.Client;
      hide Core, Lists, FilledTo, PageNo, FrameOf, Chunk;
      ghost var m1 := mapper.pmm.ram[..];
      ghost var before := V();
      RegularFrame(v0, m, p);
      FilledSize(v0, m1, m, first, pages, src, len, i);
      var d := mapper.LeafEntry(m, virt);
      var old_frame := mapper.pmm.ram[FrameOf(d)];
      mapper.WriteData(FrameOf(d), chunk + old_frame[|chunk|..]);
      FillStep(v0, m1, mapper.pmm.ram[..], m, first, pages, src, len, i);
      ValidAfterWrite(before, V());
    }

    /** One page of `mm_free_reg_vma`: read the frame, unmap the page, free the frame. */
    method FreeRegPage(s: nat, virt: nat, ghost a: nat, ghost g: Page, ghost first: nat, ghost i: nat, ghost n: nat,
                       ghost v0: View)
      requires Base() && Core(V()) && s in areas && g == Page(s, PageNo(virt)) && g.v == first + i && n == i + 1
      requires g in mapper.flat && g in owner && owner[g] == a && a in vmas && vmas[a].kind.Reg?
      requires Shrunk(v0, V(), s, first, i) && Withdrawn(v0, V(), s)
      modifies this`owner, this`home, mapper`p4, mapper`slots, mapper`tables, mapper`flat
      modifies mapper.pmm`live, mapper.pmm.ram
      ensures Base() && Core(V()) && Shrunk(v0, V(), s, first, n) && Withdrawn(v0, V(), s)
    {
      hide BitmapInv, Consistent, Dense, IsFlat, Mapper.Within, Shrinks, OnlySpace, HomesKept;
      hide PageNo, FrameOf, Core, SameOn, Shrunk, Withdrawn, Masked;
      hide Mapper.Valid, FrameAllocator.Free, Mapper.Client;
      ghost var v := V();
      var phys := mapper.LeafEntry(s, virt);
      MaskedFrame(phys);
      ghost var f := FrameOf(phys);
      RegularOwns(v, g);
      mapper.UnmapPage(s, virt);
      PresentShrunk(v.slots, mapper.slots);
      ghost var m1 := mapper.pmm.ram[..];
      owner := owner - {g};
      home := home - {f};
      mapper.ReleaseData(Masked(phys));
      SameOnChain2(v.mem, m1, mapper.pmm.ram[..], v.client, mapper.Client());
      FreePageDone(v0, v, V(), s, g, first, i, n);
    }

    /** One page of `mm_unshare_vma`. */
    method UnsharePage(s: nat, virt: nat, ghost a: nat, ghost g: Page, ghost first: nat, ghost i: nat, ghost n: nat,
                       ghost v0: View)
      requires Base() && Core(V()) && s in areas && s != KERNEL && g == Page(s, PageNo(virt))
      requires g.v == first + i && n == i + 1
      requires g in mapper.flat && g in owner && owner[g] == a && a in vmas && !vmas[a].kind.Reg?
      requires Shrunk(v0, V(), s, first, i) && Withdrawn(v0, V(), s)
      modifies this`owner, mapper`p4, mapper`slots, mapper`tables, mapper`flat, mapper.pmm`live, mapper.pmm.ram
      ensures Base() && Core(V()) && Shrunk(v0, V(), s, first, n) && Withdrawn(v0, V(), s)
    {
      hide BitmapInv, Consistent, Dense, IsFlat, Mapper.Within, Shrinks, OnlySpace, HomesKept;
      hide PageNo, FrameOf, Core, SameOn, Shrunk, Withdrawn;
      hide Mapper.Valid, FrameAllocator.Free, Mapper.Client;
      ghost var v := V();
      owner := owner - {g};
      mapper.UnmapPage(s, virt);
      PresentShrunk(v.slots, mapper.slots);
      UnsharePageDone(v0, v, V(), s, g, first, i, n);
    }

    /** The loop shared by `mm_free_reg_vma` and `mm_unshare_vma`. */
    method DropPages(s: nat, a: nat)
      requires Base() && Core(V()) && s in areas && s != KERNEL && a in vmas && VmaOk(vmas[a]) && Complete(V(), s, a)
      modifies this`owner, this`home, mapper`p4, mapper`slots, mapper`tables, mapper`flat
      modifies mapper.pmm`live, mapper.pmm.ram
      ensures Base() && Core(V()) && Withdrawn(old(V()), V(), s)
      ensures Shrunk(old(V()), V(), s, FirstPage(vmas[a]), vmas[a].pages)
    {
      hide Core, PageNo, Shrunk, Withdrawn, VmaOk, Covers;
      hide Mapper.Valid, Mapper.Client;
      var x := vmas[a];
      ghost var v0 := V();
      ghost var first := FirstPage(x);
      assert v0.owner.Keys == v0.flat.Keys by { KeysInCore(v0); }
      WithdrawnStart(v0, s, first);
      for i := 0 to x.pages
        invariant Base() && Core(V()) && Shrunk(v0, V(), s, first, i) && Withdrawn(v0, V(), s)
      {
        PageOfOffset(x, i);
        NextIsThere(v0, V(), s, a, i);
        var virt := x.start + PAGE_SIZE * i;
        ghost var g := Page(s, PageNo(virt));
        if x.kind.Reg? {
          FreeRegPage(s, virt, a, g, first, i, i + 1, v0);
        } else {
          UnsharePage(s, virt, a, g, first, i, i + 1, v0);
        }
      }
    }

    /**
     * `mm_free` of a space other than the kernel's: its pages, its regular areas, its frames and its
     * tables are all gone, and every other space is untouched. The result is false when a kernel area,
     * which is static, loses its last reference and is passed to `free`: exactly for the last user space.
     */
    method MmFree(m: nat) returns (ok: bool)
      requires Valid() && Covered() && m in areas && m != KERNEL
      modifies this`areas, this`vmas, this`owner, this`home
      modifies mapper`p4, mapper`slots, mapper`tables, mapper`flat, mapper.pmm`live, mapper.pmm.ram
      ensures ok <==> |old(areas)| > 2 || old(areas[KERNEL]) == []
      ensures ok ==> Valid() && Covered() && areas == old(areas) - {m} && Withdrawn(old(V()), V(), m)
      ensures ok ==> forall g :: g in mapper.flat <==> g in old(mapper.flat) && g.sp != m
      ensures ok ==> forall g :: g in mapper.flat ==> mapper.flat[g] == old(mapper.flat)[g]
      ensures ok ==> SameOwners(old(V()), V())
      ensures ok ==> mapper.pmm.live == Foreign(old(V()), m)
    {
      hide Mapper.Valid, Mapper.Client;
      hide Core, Withdrawn, SpaceOk, Counted, TornPages, TornAreas, Foreign, VmaOk, PhysMapped, TablesPresent, TablesOk;
      hide Guarded;
      ghost var v0 := V();
      var ls := areas[m];
      mapper.TablesAreOk();
      assert v0.owner.Keys == v0.flat.Keys by { KeysInCore(v0); }
      TornStart(v0, m, ls);
      WithdrawnStart(v0, m, 0);
      for j := 0 to |ls|
        invariant Base() && Core(V()) && areas == v0.areas && Withdrawn(v0, V(), m) && Torn(v0, V(), m, ls, j)
        invariant forall k :: 0 <= k < j ==>
          ls[k] in v0.vmas && (v0.vmas[ls[k]].kind.Reg? || v0.vmas[ls[k]].refcnt != 1)
      {
        NextAreaIsWhole(v0, V(), m, ls, j);
        AreaCounts(v0, m, j);
        if !vmas[ls[j]].kind.Reg? && vmas[ls[j]].refcnt == 1 { return false; }
        FreeArea(m, ls[j], v0, ls, j);
      }
      LastCounts(v0, m);
      FinishFree(m, v0);
      StillMapped(v0.flat, mapper.flat, mapper.limit);
      ok := true;
    }

    /** The end of `mm_free`: `pmm_free(mm->p4)` and `free(mm)`. */
    method FinishFree(m: nat, ghost v0: View)
      requires Base() && Core(V()) && areas == v0.areas && m in areas && m != KERNEL && Core(v0) && Lists(v0)
      requires KERNEL in v0.areas && Guarded(v0)
      requires Withdrawn(v0, V(), m) && Torn(v0, V(), m, v0.areas[m], |v0.areas[m]|) && TablesOk(v0.slots, v0.tables)
      modifies this`areas, mapper`p4, mapper.pmm`live, mapper.pmm.ram
      ensures Valid() && areas == v0.areas - {m} && Withdrawn(v0, V(), m) && mapper.pmm.live == Foreign(v0, m)
      ensures forall g :: g in mapper.flat <==> g in v0.flat && g.sp != m
      ensures (forall g :: g in mapper.flat ==> mapper.flat[g] == v0.flat[g]) && SameOwners(v0, V())
    {
      hide Mapper.Valid, Mapper.Client, FrameAllocator.Free;
      hide Core, Withdrawn, Lists, Torn, Foreign, SameOwners, TablesOk;
      ghost var w := V();
      TornApart(v0, w, m);
      mapper.RootIffMapped(m);
      areas := areas - {m};
      mapper.TablesAreOk();
      mapper.ReleaseRoot(m);
      mapper.RemoveSpace(m);
      mapper.TablesAreOk();
      assert V() == w.(areas := areas);
      FreeDone(v0, V(), m);
      FreeGuarded(v0, V(), m) by { WithdrawnSpaces(v0, V(), m); TornAgain(v0, w, V(), m); HasKernel(v0); }
    }

    /** `if (--vma->refcnt == 0) free(vma)`. */
    method DropReference(a: nat)
      requires a in vmas
      modifies this`vmas
      ensures vmas == if old(vmas)[a].refcnt == 1 then old(vmas) - {a}
        else old(vmas)[a := old(vmas)[a].(refcnt := old(vmas)[a].refcnt - 1)]
    {
      vmas := vmas[a := vmas[a].(refcnt := vmas[a].refcnt - 1)];
      if vmas[a].refcnt == 0 {
        vmas := vmas - {a};
        assert vmas == old(vmas) - {a};
      }
    }

    /** One area of `mm_free`. */
    method FreeArea(m: nat, a: nat, ghost v0: View, ghost ls: seq<nat>, ghost j: nat)
      requires Base() && Core(V()) && areas == v0.areas && Withdrawn(v0, V(), m)
      requires Core(v0) && Lists(v0) && m in v0.areas && m != KERNEL
      requires a in vmas && (vmas[a].refcnt == 1 <==> vmas[a].kind.Reg?)
      requires ls == v0.areas[m] && j < |ls| && a == ls[j] && Torn(v0, V(), m, ls, j)
      requires a in v0.vmas && a in vmas && vmas[a] == v0.vmas[a] && a !in ls[..j] && VmaOk(vmas[a])
      requires Complete(V(), m, a)
      modifies this`owner, this`home, this`vmas, mapper`p4, mapper`slots, mapper`tables, mapper`flat
      modifies mapper.pmm`live, mapper.pmm.ram
      ensures Base() && Core(V()) && Withdrawn(v0, V(), m) && Torn(v0, V(), m, ls, j + 1)
    {
      hide Mapper.Valid, Mapper.Client;
      hide Core, Withdrawn, Torn, VmaOk, Complete, Shrunk, FirstPage, Lists, FrameAllocator.Free;
      ghost var v := V();
      DropPages(m, a);
      ghost var v1 := V();
      DropReference(a);
      AreaDone(v0, v, v1, V(), m, ls, j);
    }
  }

  /** Pages of programs lie apart from the kernel's, and no table is lost. */
  lemma MmapGuarded(v0: View, v1: View, p4: map<nat, nat>, s: nat, a: nat, first: nat, n: nat)
    requires Core(v0) && Lists(v0) && Guarded(v0) && IsFlat(v0.slots, v0.flat)
    requires Consistent(v0.mem, p4, v0.slots, v0.tables)
    requires s in v0.areas && s != KERNEL && Grown(v0, v1, s, a, first, n) && Isolated(v0, v1, s)
    requires a !in v0.vmas && a in v1.vmas && v1.vmas == v0.vmas[a := v1.vmas[a]]
    requires v1.areas == v0.areas[s := [a] + v0.areas[s]]
    ensures Guarded(v1)
  {
    hide Core, LowestTable, Carried, SpaceOk, Counted, IsFlat, Consistent, Isolated, Grown, KernelOnly;
    forall g | g in v1.flat && Page(KERNEL, g.v) in v1.flat ensures Carried(v1.slots, g.sp, LowestTable(g.v), WRITE) {
      KernelPageOld(v0, v1, s, a, first, n, g);
      StillCarried(v0, v1, p4, s, g);
    }
    assert KernelOnly(v1) by { KernelAreasOld(v0, v1, s, a); }
  }

  lemma KernelAreasOld(v0: View, v1: View, s: nat, a: nat)
    requires Lists(v0) && KernelOnly(v0) && s in v0.areas && s != KERNEL && a !in v0.vmas
    requires v1.vmas.Keys == v0.vmas.Keys + {a} && (forall b :: b in v0.vmas ==> v1.vmas[b] == v0.vmas[b])
    requires v1.areas == v0.areas[s := [a] + v0.areas[s]]
    ensures KernelOnly(v1)
  {
    hide Bit, VmaOk, Complete, Counted;
    assert SpaceOk(v0, KERNEL);
  }

  lemma KernelPageOld(v0: View, v1: View, s: nat, a: nat, first: nat, n: nat, g: Page)
    requires Core(v0) && Lists(v0) && s in v0.areas && s != KERNEL && Grown(v0, v1, s, a, first, n)
    requires g in v1.flat && Page(KERNEL, g.v) in v1.flat
    ensures g in v0.flat && Page(KERNEL, g.v) in v0.flat
  {
    hide Core, Lists;
    if g !in v0.flat {
      KernelEverywhere(v0, s, g.v);
    }
  }

  lemma StillCarried(v0: View, v1: View, p4: map<nat, nat>, s: nat, g: Page)
    requires IsFlat(v0.slots, v0.flat) && Consistent(v0.mem, p4, v0.slots, v0.tables) && Isolated(v0, v1, s)
    requires TablesOpen(v0) && g in v0.flat && Page(KERNEL, g.v) in v0.flat
    ensures Carried(v1.slots, g.sp, LowestTable(g.v), WRITE)
  {
    hide PagePath, LowestTable, Carried, Mirrors, TablesOk, OnlySpace, KeepsTables;
    CarriedKept(p4, v0.slots, v1.slots, g, WRITE);
  }

  /** A new space has the kernel's pages, below tables made for them. */
  lemma NewGuarded(v0: View, v1: View, p4: map<nat, nat>, m: nat)
    requires Lists(v0) && Guarded(v0) && Consistent(v0.mem, p4, v0.slots, v0.tables) && IsFlat(v0.slots, v0.flat)
    requires Core(v0) && Core(v1) && m !in v0.areas && v1.areas.Keys == v0.areas.Keys + {m}
    requires v1.areas[KERNEL] == v0.areas[KERNEL] && Isolated(v0, v1, m) && Lit(v1.slots, m, WRITE)
    requires var ks := v0.areas[KERNEL]; Bumped(v0.vmas, v1.vmas, ks, |ks|) && KernelMapped(v0, v1, m, ks, |ks|)
    requires forall g :: g in v1.flat ==> g.v < PAGES
    ensures Guarded(v1)
  {
    hide Core, LowestTable, Carried, Lit, Isolated, Consistent, IsFlat, SpaceOk, Counted, Bumped, KernelMapped;
    hide KernelOnly;
    forall g | g in v1.flat && Page(KERNEL, g.v) in v1.flat ensures Carried(v1.slots, g.sp, LowestTable(g.v), WRITE) {
      NewOrOld(v0, v1, m, g);
      if g in v0.flat { StillCarried(v0, v1, p4, m, g); }
      else { LowestIsTable(g.v); LitCarried(v1.slots, m, LowestTable(g.v), WRITE); }
    }
    assert KernelOnly(v1) by { BumpedAreas(v0, v1); }
  }

  lemma NewOrOld(v0: View, v1: View, m: nat, g: Page)
    requires Core(v0) && Core(v1) && m != KERNEL && KERNEL in v0.areas
    requires KernelMapped(v0, v1, m, v0.areas[KERNEL], |v0.areas[KERNEL]|)
    requires g in v1.flat && Page(KERNEL, g.v) in v1.flat
    ensures Page(KERNEL, g.v) in v0.flat && (g in v0.flat || g.sp == m)
  {
    hide Homes, Shared, Flagged, Covers;
  }

  lemma BumpedAreas(v0: View, v1: View)
    requires KERNEL in v0.areas && KernelOnly(v0) && KERNEL in v1.areas && v1.areas[KERNEL] == v0.areas[KERNEL]
    requires Bumped(v0.vmas, v1.vmas, v0.areas[KERNEL], |v0.areas[KERNEL]|)
    ensures KernelOnly(v1)
  {
    hide Bit;
  }

  /** What is left of the other spaces is as it was. */
  lemma FreeGuarded(v0: View, v1: View, m: nat)
    requires KERNEL in v0.areas && Guarded(v0) && m in v0.areas && m != KERNEL && v1.areas == v0.areas - {m}
    requires Torn(v0, v1, m, v0.areas[m], |v0.areas[m]|) && OnlySpace(v0.slots, v1.slots, m)
    requires forall g :: g in v1.flat <==> g in v0.flat && g.sp != m
    ensures Guarded(v1)
  {
    hide LowestTable, TornPages, Bit;
    forall g | g in v1.flat && Page(KERNEL, g.v) in v1.flat ensures Carried(v1.slots, g.sp, LowestTable(g.v), WRITE) {
      assert Carried(v0.slots, g.sp, LowestTable(g.v), WRITE);
    }
  }

  lemma HasKernel(v: View)
    requires Lists(v)
    ensures KERNEL in v.areas
  {
  }

  lemma WithdrawnSpaces(v0: View, v1: View, m: nat)
    requires Withdrawn(v0, v1, m)
    ensures OnlySpace(v0.slots, v1.slots, m)
  {
  }

  lemma TornAgain(v0: View, w: View, v1: View, m: nat)
    requires m in v0.areas && Torn(v0, w, m, v0.areas[m], |v0.areas[m]|) && SamePages(w, v1) && v1.vmas == w.vmas
    ensures Torn(v0, v1, m, v0.areas[m], |v0.areas[m]|)
  {
  }

  lemma EmptySpace(v: View)
    requires v.areas == map[KERNEL := []] && v.vmas == map[] && v.flat == map[] && v.owner == map[] && v.home == map[]
    requires v.client == {}
    ensures Core(v) && Lists(v) && Guarded(v)
  {
    assert |v.areas| == 1 by { assert v.areas.Keys == {KERNEL}; }
  }

  lemma NewSpaceDone(v0: View, v1: View, p4: map<nat, nat>, m: nat, limit: nat)
    requires Lists(v0) && Core(v0) && Core(v1) && m !in v0.areas && m in v1.areas
    requires v1.areas == v0.areas[m := v1.areas[m]] && PhysMapped(v0.flat, limit)
    requires var ks := v0.areas[KERNEL];
      Reversed(v1.areas[m], ks, |ks|) && Bumped(v0.vmas, v1.vmas, ks, |ks|) && KernelMapped(v0, v1, m, ks, |ks|)
    requires Guarded(v0) && Consistent(v0.mem, p4, v0.slots, v0.tables) && IsFlat(v0.slots, v0.flat)
    requires Isolated(v0, v1, m) && Lit(v1.slots, m, WRITE) && forall g :: g in v1.flat ==> g.v < PAGES
    ensures Lists(v1) && PhysMapped(v1.flat, limit) && Guarded(v1)
    ensures forall p: nat :: Page(m, p) in v1.flat <==> Page(KERNEL, p) in v0.flat
    ensures v1.flat.Keys == v0.flat.Keys + Renamed(v0.flat.Keys, KERNEL, m)
  {
    hide Core, SpaceOk, Counted, Bumped, KernelMapped, Reversed, PhysMapped, Guarded, Consistent, IsFlat, Isolated, Lit;
    var ks := v0.areas[KERNEL];
    NewGuarded(v0, v1, p4, m) by { assert v1.areas.Keys == v0.areas.Keys + {m}; }
    ListsAfterNewSpace(v0, v1, m);
    SamePagesAsKernel(v0, v1, m);
    NewPageSet(v0, v1, m);
    SharedCovers(v0, v1, m, ks, limit);
  }

  lemma SharedCovers(v0: View, v1: View, m: nat, ks: seq<nat>, limit: nat)
    requires KernelMapped(v0, v1, m, ks, |ks|) && PhysMapped(v0.flat, limit)
    ensures PhysMapped(v1.flat, limit)
  {
    hide PhysMapped;
    StillMapped(v0.flat, v1.flat, limit);
  }

  lemma NewSpaceStart(v0: View, v1: View, m: nat, ks: seq<nat>)
    requires Core(v0) && m !in v0.areas && v1 == v0.(areas := v0.areas[m := []])
    ensures Core(v1) && Reversed([], ks, 0) && Bumped(v0.vmas, v1.vmas, ks, 0)
    ensures KernelMapped(v0, v1, m, ks, 0) && Isolated(v0, v1, m)
  {
    hide Owned, Homes, Shared, Flagged, Covers;
    CoreRelisted(v0, v1);
    IsolatedStart(v0, m, 0, 0);
    assert Isolated(v0, v1, m);
  }

  lemma SamePagesAsKernel(v0: View, v: View, m: nat)
    requires Core(v0) && Core(v) && Lists(v0) && m !in v0.areas
    requires var ks := v0.areas[KERNEL]; Bumped(v0.vmas, v.vmas, ks, |ks|) && KernelMapped(v0, v, m, ks, |ks|)
    ensures forall p: nat :: Page(m, p) in v.flat <==> Page(KERNEL, p) in v0.flat
  {
    hide FrameOf, Covers, VmaOk, EntryFor, Homes, Flagged, Bumped, KernelMapped, Complete;
    assert SpaceOk(v0, KERNEL);
    forall p: nat
      ensures Page(m, p) in v.flat <==> Page(KERNEL, p) in v0.flat
    {
      SharedPage(v0, v, KERNEL, m, p);
    }
  }

  lemma KernelArea(v0: View, v1: View, ks: seq<nat>, j: nat)
    requires Lists(v0) && ks == v0.areas[KERNEL] && j < |ks| && Bumped(v0.vmas, v1.vmas, ks, j)
    ensures ks[j] in v0.vmas && ks[j] in v1.vmas && SameArea(v0.vmas[ks[j]], v1.vmas[ks[j]])
    ensures !v1.vmas[ks[j]].kind.Reg? && VmaOk(v1.vmas[ks[j]])
  {
    hide PageNo;
    assert SpaceOk(v0, KERNEL) && ks[j] in v0.areas[KERNEL];
  }

  lemma ShareIsFree(v0: View, v1: View, m: nat, ks: seq<nat>, j: nat)
    requires Lists(v0) && Core(v0) && Core(v1) && ks == v0.areas[KERNEL] && j < |ks| && m !in v0.areas
    requires Bumped(v0.vmas, v1.vmas, ks, j) && KernelMapped(v0, v1, m, ks, j)
    requires ks[j] in v0.vmas && ks[j] in v1.vmas && SameArea(v0.vmas[ks[j]], v1.vmas[ks[j]])
    ensures forall p: nat :: Covers(v1.vmas[ks[j]], p) ==>
      Page(m, p) !in v1.flat && Page(KERNEL, p) in v1.owner && v1.owner[Page(KERNEL, p)] == ks[j]
  {
    hide Homes, Shared, Flagged, Bumped, KernelMapped, Lists, Owned, Covers;
    forall p: nat | Covers(v1.vmas[ks[j]], p)
      ensures Page(m, p) !in v1.flat && Page(KERNEL, p) in v1.owner && v1.owner[Page(KERNEL, p)] == ks[j]
    {
      SameMeaning(v0.vmas[ks[j]], v1.vmas[ks[j]], p, 0);
      NextAreaIsFree(v0, v1, m, ks, j, p);
    }
  }

  /** Sharing one more kernel area. */
  lemma ShareDone(v0: View, v1: View, v2: View, v3: View, m: nat, ks: seq<nat>, j: nat)
    requires Lists(v0) && Core(v0) && Core(v1) && Core(v2) && ks == v0.areas[KERNEL] && j < |ks| && m !in v0.areas
    requires m in v1.areas && v1.areas == v0.areas[m := v1.areas[m]] && v2.areas == v1.areas && v2.vmas == v1.vmas
    requires Reversed(v1.areas[m], ks, j) && Bumped(v0.vmas, v1.vmas, ks, j) && KernelMapped(v0, v1, m, ks, j)
    requires ks[j] in v0.vmas && ks[j] in v1.vmas && SameArea(v0.vmas[ks[j]], v1.vmas[ks[j]])
    requires forall p: nat :: Covers(v1.vmas[ks[j]], p) ==> Page(m, p) !in v1.flat
    requires Grown(v1, v2, m, ks[j], FirstPage(v1.vmas[ks[j]]), v1.vmas[ks[j]].pages)
    requires Isolated(v0, v1, m) && Isolated(v1, v2, m)
    requires SamePages(v2, v3) && v3.areas == v2.areas[m := [ks[j]] + v2.areas[m]]
    requires v3.vmas == v2.vmas[ks[j] := v2.vmas[ks[j]].(refcnt := v2.vmas[ks[j]].refcnt + 1)]
    ensures Core(v3) && v3.areas == v0.areas[m := v3.areas[m]]
    ensures Reversed(v3.areas[m], ks, j + 1) && Bumped(v0.vmas, v3.vmas, ks, j + 1)
    ensures KernelMapped(v0, v3, m, ks, j + 1) && Isolated(v0, v3, m)
  {
    hide Homes, Shared, Flagged, Covers, Isolated, KernelMapped, Bumped, Reversed, PageNo, Grown, Counted;
    assert SpaceOk(v0, KERNEL);
    var a := ks[j];
    ReversedFacts(v1.areas[m], ks, j);
    BumpedStep(v0.vmas, v1.vmas, ks, j);
    forall p: nat ensures Covers(v0.vmas[a], p) == Covers(v1.vmas[a], p) {
      SameMeaning(v0.vmas[a], v1.vmas[a], p, 0);
    }
    KernelMappedStep(v0, v1, v2, m, ks, j);
    assert KernelMapped(v0, v3, m, ks, j + 1) by { SameKernelMapped(v0, v2, v3, m, ks, j + 1); }
    CoreRelisted(v2, v3);
    IsolatedStep(v0, v1, v2, m);
    SameIsolated(v0, v2, v3, m);
  }

  lemma SameKernelMapped(v0: View, v2: View, v3: View, m: nat, ks: seq<nat>, j: nat)
    requires j <= |ks| && KernelMapped(v0, v2, m, ks, j) && SamePages(v2, v3)
    ensures KernelMapped(v0, v3, m, ks, j)
  {
    hide Covers;
  }

  lemma SameIsolated(v0: View, v2: View, v3: View, m: nat)
    requires Isolated(v0, v2, m) && SamePages(v2, v3)
    ensures Isolated(v0, v3, m)
  {
  }

  lemma ListsAfterNewSpace(v0: View, v1: View, m: nat)
    requires Lists(v0) && Core(v0) && Core(v1) && m !in v0.areas && m in v1.areas
    requires v1.areas == v0.areas[m := v1.areas[m]]
    requires var ks := v0.areas[KERNEL];
      Reversed(v1.areas[m], ks, |ks|) && Bumped(v0.vmas, v1.vmas, ks, |ks|) && KernelMapped(v0, v1, m, ks, |ks|)
    ensures Lists(v1)
  {
    hide Lists, Reversed, Bumped, KernelMapped, Owned;
    ListsAfterNew(v0, v1, m, v1.areas[m]);
  }

  lemma CopyNothing(v: View, dst: nat, src: nat, first: nat)
    ensures Copied(v, v.mem, dst, src, first, 0)
  {
    hide FrameOf;
  }

  lemma CopiedSize(v: View, m1: seq<Frame>, dst: nat, src: nat, first: nat, i: nat)
    requires Copied(v, m1, dst, src, first, i)
    ensures |m1| == |v.mem|
  {
  }

  lemma ValidAfterWrite(v0: View, v1: View)
    requires Core(v0) && Lists(v0) && v1 == v0.(mem := v1.mem)
    ensures Core(v1) && Lists(v1)
  {
    hide Owned, Homes, Shared, Flagged, Lists;
    CoreSame(v0, v1);
    SameLists(v0, v1);
  }

  lemma SameLists(v0: View, v1: View)
    requires v1 == v0.(mem := v1.mem) && Lists(v0)
    ensures Lists(v1)
  {
    hide VmaOk, Covers;
    forall s | s in v1.areas ensures SpaceOk(v1, s) {
      assert SpaceOk(v0, s);
      SpaceTransfer(v0, v1, s);
    }
  }

  lemma GrownPages(v0: View, v1: View, s: nat, a: nat, first: nat, n: nat, limit: nat)
    requires Grown(v0, v1, s, a, first, n) && PhysMapped(v0.flat, limit)
    ensures v1.flat.Keys == v0.flat.Keys + Stretch(s, first, n) && PhysMapped(v1.flat, limit)
  {
    hide PhysMapped;
    StillMapped(v0.flat, v1.flat, limit);
    forall g ensures g in v1.flat <==> g in v0.flat || g in Stretch(s, first, n) {
      assert g == Page(g.sp, g.v);
    }
  }

  /** The pages of a kernel area, in a new space, are copies of kernel pages. */
  lemma KernelStretch(v0: View, v1: View, ks: seq<nat>, j: nat, m: nat)
    requires Core(v0) && Lists(v0) && ks == v0.areas[KERNEL] && j < |ks| && ks[j] in v0.vmas && ks[j] in v1.vmas
    requires SameArea(v0.vmas[ks[j]], v1.vmas[ks[j]])
    ensures Stretch(m, FirstPage(v1.vmas[ks[j]]), v1.vmas[ks[j]].pages) <= Renamed(v0.flat.Keys, KERNEL, m)
  {
    hide VmaOk, PageNo, Homes, Shared, Flagged;
    var a := v1.vmas[ks[j]];
    assert SpaceOk(v0, KERNEL) && ks[j] in v0.areas[KERNEL];
    forall g | g in Stretch(m, FirstPage(a), a.pages) ensures g in Renamed(v0.flat.Keys, KERNEL, m) {
      assert Covers(v0.vmas[ks[j]], g.v);
      assert Page(KERNEL, g.v) in v0.owner;
    }
  }

  lemma NewPageSet(v0: View, v: View, m: nat)
    requires Core(v0) && Core(v) && KERNEL in v0.areas && m !in v0.areas
    requires KernelMapped(v0, v, m, v0.areas[KERNEL], |v0.areas[KERNEL]|)
    requires forall p: nat :: Page(m, p) in v.flat <==> Page(KERNEL, p) in v0.flat
    ensures v.flat.Keys == v0.flat.Keys + Renamed(v0.flat.Keys, KERNEL, m)
  {
    hide Covers, Homes, Shared, Flagged;
    CopiedPages(v0, v, KERNEL, m);
  }

  lemma CopiedPages(v0: View, v: View, m: nat, n: nat)
    requires forall g :: g in v0.flat ==> g in v.flat
    requires forall g :: g in v.flat && g !in v0.flat ==> g.sp == n
    requires forall p: nat :: Page(n, p) in v.flat <==> Page(m, p) in v0.flat
    ensures v.flat.Keys == v0.flat.Keys + Renamed(v0.flat.Keys, m, n)
  {
    forall g ensures g in v.flat <==> g in v0.flat || g in Renamed(v0.flat.Keys, m, n) {
      if g in v.flat && g !in v0.flat { assert g == Page(n, g.v) && Page(m, g.v) in v0.flat; }
      if g in Renamed(v0.flat.Keys, m, n) { assert Page(m, g.v) in v0.flat && g == Page(n, g.v); }
    }
  }

  lemma DupePageSet(v0: View, v: View, m: nat, n: nat)
    requires m in v0.areas && Forked(v0, v, m, n, v0.areas[m], |v0.areas[m]|)
    requires forall p: nat :: Page(n, p) in v.flat <==> Page(m, p) in v0.flat
    ensures v.flat.Keys == v0.flat.Keys + Renamed(v0.flat.Keys, m, n)
  {
    hide Twin;
    CopiedPages(v0, v, m, n);
  }

  /** A space has all pages of the kernel's, so its copy has all that a new space has. */
  lemma KernelWithin(v: View, m: nat, n: nat)
    requires Core(v) && Lists(v) && m in v.areas
    ensures Renamed(v.flat.Keys, KERNEL, n) <= Renamed(v.flat.Keys, m, n)
  {
    hide VmaOk, Homes, Shared, Flagged;
    assert SpaceOk(v, KERNEL) && SpaceOk(v, m);
    forall g | g in Renamed(v.flat.Keys, KERNEL, n) ensures g in Renamed(v.flat.Keys, m, n) {
      var k := Page(KERNEL, g.v);
      assert k in v.flat && k in v.owner && Covers(v.vmas[v.owner[k]], g.v);
      assert Complete(v, m, v.owner[k]);
      assert Page(m, g.v) in v.owner;
    }
  }

  lemma DataCount(v: View, m: nat)
    requires Core(v) && Lists(v) && m in v.areas
    ensures RegTotal(v.vmas, v.areas[m]) == |RegularPages(v, m)| && RegTotal(v.vmas, []) == 0
  {
    hide Homes, Shared, Flagged, Owned, RegularPages;
    RegTotalIsCount(v, m);
  }

  /** The pages of an area, in the copy, are copies of its pages. */
  lemma AreaStretch(v0: View, v: View, m: nat, n: nat, ls: seq<nat>, i: nat)
    requires Core(v0) && KERNEL in v0.areas && m in v0.areas && SpaceOk(v0, m) && ls == v0.areas[m] && i < |ls|
    requires ls[i] in v0.vmas && ls[i] in v.vmas && SameArea(v0.vmas[ls[i]], v.vmas[ls[i]])
    ensures Stretch(n, FirstPage(v.vmas[ls[i]]), v.vmas[ls[i]].pages) <= Renamed(v0.flat.Keys, m, n)
  {
    hide VmaOk, PageNo, Homes, Shared, Flagged;
    var a := v.vmas[ls[i]];
    assert ls[i] in v0.areas[m] && Complete(v0, m, ls[i]);
    forall g | g in Stretch(n, FirstPage(a), a.pages) ensures g in Renamed(v0.flat.Keys, m, n) {
      assert Covers(v0.vmas[ls[i]], g.v);
      assert Page(m, g.v) in v0.owner;
    }
  }

  lemma AreaAt(v0: View, v: View, m: nat, n: nat, ls: seq<nat>, i: nat)
    requires KERNEL in v0.areas && m in v0.areas && SpaceOk(v0, m) && ls == v0.areas[m] && i < |ls|
    requires Forked(v0, v, m, n, ls, i)
    ensures ls[i] in v0.vmas && ls[i] in v.vmas && SameArea(v0.vmas[ls[i]], v.vmas[ls[i]]) && VmaOk(v.vmas[ls[i]])
  {
    hide Covers, FrameOf, Twin, VmaOk;
    assert ls[i] in v0.areas[m];
    SameOkay(v0.vmas[ls[i]], v.vmas[ls[i]]);
  }

  lemma SamePageSet(v0: View, v: View, m: nat, n: nat)
    requires Core(v0) && KERNEL in v0.areas && m in v0.areas && SpaceOk(v0, m)
    requires Forked(v0, v, m, n, v0.areas[m], |v0.areas[m]|)
    ensures forall p: nat :: Page(n, p) in v.flat <==> Page(m, p) in v0.flat
  {
    hide Covers, FrameOf, Twin, VmaOk, Homes, Shared, Flagged;
    assert v0.areas[m][..|v0.areas[m]|] == v0.areas[m];
  }

  lemma DupeIsFree(v0: View, v: View, m: nat, n: nat, ls: seq<nat>, i: nat, x: Vma)
    requires Core(v0) && KERNEL in v0.areas && m in v0.areas && SpaceOk(v0, m)
    requires ls == v0.areas[m] && i < |ls| && Forked(v0, v, m, n, ls, i)
    requires ls[i] in v0.vmas && SameArea(v0.vmas[ls[i]], x) && x.kind.Reg? && VmaOk(x)
    ensures var nv := Vma(1, Reg, x.start, x.pages, x.user, x.prot);
      VmaOk(nv) && forall p: nat :: Covers(nv, p) ==> Page(n, p) !in v.flat
    ensures forall p: nat :: FirstPage(x) <= p < FirstPage(x) + x.pages ==> Page(n, p) !in v.flat
  {
    hide Core, SpaceOk, Forked, Covers, VmaOk;
    var nv := Vma(1, Reg, x.start, x.pages, x.user, x.prot);
    SameOkay(x, nv);
    forall p: nat | Covers(nv, p) ensures Page(n, p) !in v.flat {
      SameMeaning(nv, v0.vmas[ls[i]], p, 0);
      NextIsUnmapped(v0, v, m, n, ls, i, p);
    }
    RangeIsCovered(nv);
  }

  lemma RangeIsCovered(a: Vma)
    ensures forall p: nat :: FirstPage(a) <= p < FirstPage(a) + a.pages ==> Covers(a, p)
  {
  }

  lemma VmaOkRange(x: Vma)
    requires VmaOk(x)
    ensures VmaOk(Vma(1, Reg, x.start, x.pages, false, 0))
  {
  }

  /** After the mapping, both spaces have regular pages over the whole range. */
  lemma DupeRegular(v0: View, v: View, v1: View, m: nat, n: nat, ls: seq<nat>, i: nat, b: nat)
    requires Core(v0) && Core(v) && Core(v1) && KERNEL in v0.areas && m in v0.areas && SpaceOk(v0, m) && n !in v0.areas
    requires ls == v0.areas[m] && i < |ls| && Forked(v0, v, m, n, ls, i)
    requires ls[i] in v0.vmas && v0.vmas[ls[i]].kind.Reg?
    requires var a := v0.vmas[ls[i]];
      Grown(v, v1, n, b, FirstPage(a), a.pages) && b !in v.vmas &&
      v1.vmas == v.vmas[b := Vma(1, Reg, a.start, a.pages, a.user, a.prot)]
    ensures var a := v0.vmas[ls[i]];
      forall p: nat :: FirstPage(a) <= p < FirstPage(a) + a.pages ==> RegularAt(v1, n, p) && RegularAt(v1, m, p)
  {
    hide SpaceOk, Twin, PageNo, FrameOf, Homes, Shared, Flagged, VmaOk;
    var a := v0.vmas[ls[i]];
    forall p: nat | FirstPage(a) <= p < FirstPage(a) + a.pages
      ensures RegularAt(v1, n, p) && RegularAt(v1, m, p)
    {
      assert Covers(a, p);
      NextIsUnmapped(v0, v, m, n, ls, i, p);
      assert Page(n, p) in v1.flat && Page(n, p) !in v.owner;
      assert Page(m, p) in v.owner && v.owner[Page(m, p)] == ls[i];
    }
  }

  /** Copying into fresh frames disturbs no frame that was there before. */
  lemma CopyIsolated(v0: View, v: View, v1: View, v2: View, n: nat, m: nat, first: nat, k: nat)
    requires Core(v) && Core(v1) && Isolated(v0, v, n) && Isolated(v, v1, n) && FreshPages(v, v1)
    requires v.client <= v.live && (forall p: nat :: first <= p < first + k ==> Page(n, p) !in v.flat)
    requires v2 == v1.(mem := v2.mem) && Copied(v1, v2.mem, n, m, first, k)
    ensures Isolated(v0, v2, n)
  {
    hide OnlySpace, FrameOf, Shared, Flagged, ZeroFrame, EntryFor, Covers;
    assert SameOn(v.mem, v2.mem, v.client) by {
      forall f | f in v.client && f < |v.mem|
        ensures v2.mem[f] == v1.mem[f]
      {
        assert f in v1.home ==> v1.home[f] in v1.flat;
      }
    }
    IsolatedStep(v0, v, v2, n);
  }

  lemma RegularOwns(v: View, g: Page)
    requires Core(v) && g in v.flat && v.owner[g] in v.vmas && v.vmas[v.owner[g]].kind.Reg?
    ensures FrameOf(v.flat[g]) in v.client && FrameOf(v.flat[g]) in v.home && v.home[FrameOf(v.flat[g])] == g
  {
    hide FrameOf, Covers, Shared, Flagged;
    assert Private(v, g);
  }

  lemma SameOnChain2(m0: seq<Frame>, m1: seq<Frame>, m2: seq<Frame>, c: set<nat>, d: set<nat>)
    requires SameOn(m0, m1, c) && SameOn(m1, m2, c) && d <= c
    ensures SameOn(m0, m2, d)
  {
  }

  lemma FreePageDone(v0: View, v: View, w: View, s: nat, g: Page, first: nat, i: nat, n: nat)
    requires Core(v) && g in v.flat && v.vmas[v.owner[g]].kind.Reg? && g.sp == s && g.v == first + i && n == i + 1
    requires Shrunk(v0, v, s, first, i) && Withdrawn(v0, v, s)
    requires var f := FrameOf(v.flat[g]);
      && w.areas == v.areas && w.vmas == v.vmas && w.flat == v.flat - {g} && w.owner == v.owner - {g}
      && w.home == v.home - {f} && w.client == v.client - {f}
      && OnlySpace(v.slots, w.slots, s) && SameOn(v.mem, w.mem, w.client)
    ensures Core(w) && Shrunk(v0, w, s, first, n) && Withdrawn(v0, w, s)
  {
    hide Shrunk, OnlySpace, HomesKept, SameOn, FrameOf, Homes, Shared, Flagged, Covers;
    var f := FrameOf(v.flat[g]);
    DropPrivate(v, g);
    CoreSame(v.(flat := v.flat - {g}, owner := v.owner - {g}, home := v.home - {f}, client := v.client - {f}), w);
    ShrunkStep(v0, v, w, s, first, i);
    RegularOwns(v, g);
    HomeDropped(v.home, f, s);
    WithdrawnStep(v0, v, w, s);
  }

  lemma UnsharePageDone(v0: View, v: View, w: View, s: nat, g: Page, first: nat, i: nat, n: nat)
    requires Core(v) && g in v.flat && !v.vmas[v.owner[g]].kind.Reg? && s != KERNEL
    requires g.sp == s && g.v == first + i && n == i + 1
    requires Shrunk(v0, v, s, first, i) && Withdrawn(v0, v, s)
    requires w.areas == v.areas && w.vmas == v.vmas && w.flat == v.flat - {g} && w.owner == v.owner - {g}
    requires w.home == v.home && w.client == v.client && OnlySpace(v.slots, w.slots, s)
    requires SameOn(v.mem, w.mem, w.client)
    ensures Core(w) && Shrunk(v0, w, s, first, n) && Withdrawn(v0, w, s)
  {
    hide Shrunk, OnlySpace, HomesKept, SameOn, FrameOf, Homes, Shared, Flagged, Covers;
    DropShared(v, g);
    CoreSame(v.(flat := v.flat - {g}, owner := v.owner - {g}), w);
    ShrunkStep(v0, v, w, s, first, i);
    HomesSame(v.home, s);
    WithdrawnStep(v0, v, w, s);
  }

  /** A regular area has one reference; a kernel area has one exactly when this is the only user space. */
  lemma AreaCounts(v: View, m: nat, j: nat)
    requires Lists(v) && m in v.areas && j < |v.areas[m]|
    ensures v.areas[m][j] in v.vmas
    ensures var a := v.vmas[v.areas[m][j]];
      if a.kind.Reg? then a.refcnt == 1 else a.refcnt == |v.areas| - 1 && v.areas[KERNEL] != []
  {
    hide Covers, VmaOk;
    assert SpaceOk(v, m) && v.areas[m][j] in v.areas[m];
  }

  /** If no kernel area on the list has a single reference, this is not the only user space. */
  lemma LastCounts(v: View, m: nat)
    requires Lists(v) && m in v.areas && m != KERNEL
    requires forall k :: 0 <= k < |v.areas[m]| ==>
      v.areas[m][k] in v.vmas && (v.vmas[v.areas[m][k]].kind.Reg? || v.vmas[v.areas[m][k]].refcnt != 1)
    ensures |v.areas| > 2 || v.areas[KERNEL] == []
  {
    hide Covers, VmaOk, Complete;
    assert {m, KERNEL} <= v.areas.Keys;
    SubsetSize({m, KERNEL}, v.areas.Keys);
    if v.areas[KERNEL] != [] {
      var a := v.areas[KERNEL][0];
      assert SpaceOk(v, m) && SpaceOk(v, KERNEL) && a in v.areas[KERNEL];
      assert a in v.areas[m];
      var k :| 0 <= k < |v.areas[m]| && v.areas[m][k] == a;
    }
  }

  /** Teardown leaves the areas of the remaining pages what they were. */
  lemma TornRegular(v0: View, v: View, m: nat)
    requires Core(v) && m in v0.areas && Torn(v0, v, m, v0.areas[m], |v0.areas[m]|)
    ensures SameOwners(v0, v)
  {
    hide Homes, Shared, Flagged, Covers;
  }

  lemma AreaDone(v0: View, v: View, v1: View, v2: View, m: nat, ls: seq<nat>, j: nat)
    requires Core(v0) && Lists(v0) && Core(v) && Core(v1) && m in v0.areas && ls == v0.areas[m] && j < |ls|
    requires Torn(v0, v, m, ls, j) && Withdrawn(v0, v, m) && Withdrawn(v, v1, m) && v.areas == v0.areas
    requires ls[j] in v.vmas && ls[j] in v0.vmas && v.vmas[ls[j]] == v0.vmas[ls[j]] && ls[j] !in ls[..j]
    requires Complete(v, m, ls[j]) && v1.vmas == v.vmas && v1.areas == v.areas
    requires Shrunk(v, v1, m, FirstPage(v.vmas[ls[j]]), v.vmas[ls[j]].pages)
    requires SamePages(v1, v2) && v2.areas == v1.areas
    requires var a := ls[j];
      if v.vmas[a].kind.Reg? then v2.vmas == v1.vmas - {a}
      else v2.vmas == v1.vmas[a := v1.vmas[a].(refcnt := v1.vmas[a].refcnt - 1)]
    ensures Core(v2) && Torn(v0, v2, m, ls, j + 1) && Withdrawn(v0, v2, m)
  {
    hide Homes, Shared, Flagged, Covers, Shrunk, PageNo, OnlySpace, HomesKept, SameOn, Counted, Complete, Torn, Owned;
    assert SpaceOk(v0, m) && SpaceOk(v0, KERNEL);
    TornStep(v0, v, v1, v2, m, ls, j);
    WithdrawnStep(v0, v, v1, m);
    var a := ls[j];
    if v.vmas[a].kind.Reg? {
      OnlyOwner(v0, v, m, ls, j);
      NoOwnerLeft(v, m, a, v1);
    }
    StillOwned(v1, v2, a);
    CoreKept(v1, v2);
  }

  lemma StillOwned(v1: View, v2: View, a: nat)
    requires Core(v1) && SamePages(v1, v2) && v2.areas == v1.areas && a in v1.vmas
    requires if v1.vmas[a].kind.Reg? then v2.vmas == v1.vmas - {a} && (forall g :: g in v1.owner ==> v1.owner[g] != a)
      else v2.vmas == v1.vmas[a := v1.vmas[a].(refcnt := v1.vmas[a].refcnt - 1)]
    ensures forall g :: g in v1.owner ==>
      g.sp in v2.areas && v1.owner[g] in v2.vmas && SameArea(v1.vmas[v1.owner[g]], v2.vmas[v1.owner[g]])
  {
    hide Homes, Shared, Flagged, Covers;
  }

  /** A regular area covers pages of one space only. */
  lemma OnlyOwner(v0: View, v: View, m: nat, ls: seq<nat>, j: nat)
    requires Core(v0) && Lists(v0) && Core(v) && m in v0.areas && ls == v0.areas[m] && j < |ls| && Torn(v0, v, m, ls, j)
    requires ls[j] in v0.vmas && v0.vmas[ls[j]].kind.Reg?
    ensures forall g :: g in v.owner && v.owner[g] == ls[j] ==> g.sp == m
  {
    hide Homes, Shared, Flagged, Covers, VmaOk, Complete, TornAreas;
    forall g | g in v.owner && v.owner[g] == ls[j]
      ensures g.sp == m
    {
      assert g in v0.owner && SpaceOk(v0, g.sp);
      assert ls[j] in v0.areas[g.sp] && ls[j] in v0.areas[m];
    }
  }

  /** With every area gone and the space off the books, only the other spaces' frames are left. */
  lemma FreeDone(v0: View, v1: View, m: nat)
    requires Core(v0) && Lists(v0) && m in v0.areas && m != KERNEL
    requires Torn(v0, v1.(areas := v0.areas), m, v0.areas[m], |v0.areas[m]|) && Withdrawn(v0, v1.(areas := v0.areas), m)
    requires Core(v1.(areas := v0.areas)) && v1.areas == v0.areas - {m}
    requires TablesOk(v0.slots, v0.tables) && TablesOk(v1.slots, v1.tables) && v1.live == v1.client + v1.tables.Keys
    requires forall f :: f in v1.tables ==> v1.tables[f].sp in v1.areas
    ensures Core(v1) && Lists(v1) && Withdrawn(v0, v1, m) && v1.live == Foreign(v0, m)
    ensures forall g :: g in v1.flat <==> g in v0.flat && g.sp != m
    ensures (forall g :: g in v1.flat ==> v1.flat[g] == v0.flat[g]) && SameOwners(v0, v1)
  {
    hide Homes, Shared, Flagged, Covers, TornPages, TornAreas, SpaceOk, Counted;
    hide FrameOf, OnlySpace, HomesKept, SameOn, Foreign, TablesOk, SameOwners;
    var w := v1.(areas := v0.areas);
    TornApart(v0, w, m);
    assert forall g :: g in w.owner ==> g.sp in v1.areas by { KeysInCore(w); }
    CoreKept(w, v1);
    SameTorn(v0, w, v1, m);
    ListsAfterFree(v0, v1, m);
    ForeignKept(v0, v1, m);
    AllForeign(v1, m);
    TornRegular(v0, w, m);
    SameOwnersOf(v0, w, v1);
  }

  lemma SameOwnersOf(v0: View, w: View, v1: View)
    requires SameOwners(v0, w) && w == v1.(areas := w.areas)
    ensures SameOwners(v0, v1)
  {
  }

  lemma SameTorn(v0: View, w: View, v1: View, m: nat)
    requires m in v0.areas && Torn(v0, w, m, v0.areas[m], |v0.areas[m]|) && SamePages(w, v1) && v1.vmas == w.vmas
    ensures Torn(v0, v1, m, v0.areas[m], |v0.areas[m]|)
  {
  }

  lemma KeysInCore(v: View)
    requires Core(v)
    ensures v.owner.Keys == v.flat.Keys
  {
  }

  /** The page to be shared is new in the space and mapped in the kernel's. */
  lemma KernelPage(v0: View, v: View, g: Page, s: nat, a: nat, first: nat, i: nat)
    requires Core(v) && g.sp == s && s != KERNEL && g.v == first + i && g !in v0.flat
    requires Grown(v0, v, s, a, first, i) && Page(KERNEL, g.v) in v0.owner && v0.owner[Page(KERNEL, g.v)] == a
    ensures g !in v.flat && Page(KERNEL, g.v) in v.flat && Page(KERNEL, g.v) in v.owner
    ensures v.owner[Page(KERNEL, g.v)] == a
  {
  }

  lemma EntryOfPage(v: View, g: Page, a: nat)
    requires Core(v) && g in v.owner && v.owner[g] == a && a in v.vmas
    ensures g in v.flat && EntryFor(v.flat[g], v.vmas[a])
  {
    hide Homes, Shared, EntryFor, Covers;
  }

  /** Or-ing the flags of an area into one of its entries changes nothing. */
  lemma SharedEntry(phys: nat, flags: nat, a: Vma)
    requires 0 < phys < WORD_LIMIT && flags == Flags(a.prot, a.user) && EntryFor(phys, a)
    ensures BitOr(phys, flags) == phys && 0 < flags < PAGE_SIZE
  {
    hide BitOr;
    Exp2Values();
    BitOrAgain(FrameOf(phys), flags, 12);
  }

  lemma SharedPageDone(v0: View, v: View, w: View, s: nat, g: Page, a: nat, first: nat, i: nat, n: nat, e: nat)
    requires Core(v) && s in v.areas && s != KERNEL && a in v.vmas && !v.vmas[a].kind.Reg?
    requires first == FirstPage(v.vmas[a]) && i < v.vmas[a].pages && n == i + 1 && g.sp == s && g.v == first + i
    requires Grown(v0, v, s, a, first, i) && Isolated(v0, v, s) && v0.owner.Keys == v0.flat.Keys
    requires g !in v.flat && g !in v0.flat && Page(KERNEL, g.v) in v.owner && v.owner[Page(KERNEL, g.v)] == a
    requires Page(KERNEL, g.v) in v.flat && FrameOf(e) == FrameOf(v.flat[Page(KERNEL, g.v)]) && EntryFor(e, v.vmas[a])
    requires w.areas == v.areas && w.vmas == v.vmas && w.flat == v.flat[g := e] && w.owner == v.owner[g := a]
    requires w.home == v.home && w.client == v.client && v.live <= w.live
    requires OnlySpace(v.slots, w.slots, s) && KeepsTables(v.slots, w.slots) && SameOn(v.mem, w.mem, v.client)
    ensures Core(w) && Grown(v0, w, s, a, first, n) && Isolated(v0, w, s)
  {
    hide Grown, OnlySpace, HomesKept, FrameOf, Owned, Homes, Shared, Flagged, EntryFor, Covers, PageNo, KeepsTables;
    assert Covers(v.vmas[a], g.v) by { CoversAt(v.vmas[a], i); }
    KeysAgree(v);
    AddShared(v, g, a, e);
    CoreSame(v.(flat := v.flat[g := e], owner := v.owner[g := a]), w);
    GrownStep(v0, v, w, s, a, first, i, e);
    assert Isolated(v, w, s) by { HomesSame(v.home, s); }
    IsolatedStep(v0, v, w, s);
  }

  lemma CoversAt(a: Vma, i: nat)
    requires i < a.pages
    ensures Covers(a, FirstPage(a) + i)
  {
  }

  lemma HomesSame(h: map<nat, Page>, s: nat)
    ensures HomesKept(h, h, s)
  {
  }

  lemma NewArea(v0: View, w0: View, a: nat)
    requires Core(v0) && a !in v0.vmas && a in w0.vmas && w0 == v0.(vmas := v0.vmas[a := w0.vmas[a]])
    ensures Core(w0) && SamePages(v0, w0)
  {
    hide Owned, Homes, Shared, Flagged, Covers;
    CoreRelisted(v0, w0);
  }

  /** The lists, once a freshly mapped area is on the list of its space. */
  lemma MmapDone(v0: View, w0: View, w1: View, v1: View, p4: map<nat, nat>, s: nat, a: nat, nv: Vma, limit: nat)
    requires Core(v0) && Lists(v0) && s in v0.areas && s != KERNEL
    requires a !in v0.vmas && nv.kind.Reg? && nv.refcnt == 1 && VmaOk(nv)
    requires w0 == v0.(vmas := v0.vmas[a := nv]) && w1.vmas == w0.vmas && w1.areas == w0.areas && Core(w1)
    requires forall p: nat :: Covers(nv, p) ==> Page(s, p) !in v0.flat
    requires Grown(w0, w1, s, a, FirstPage(nv), nv.pages) && FreshPages(w0, w1) && Isolated(w0, w1, s)
    requires SamePages(w1, v1) && v1.vmas == w1.vmas && v1.areas == v0.areas[s := [a] + v0.areas[s]]
    requires PhysMapped(v0.flat, limit) && Guarded(v0) && IsFlat(v0.slots, v0.flat)
    requires Consistent(v0.mem, p4, v0.slots, v0.tables)
    ensures Core(v1) && Lists(v1) && PhysMapped(v1.flat, limit) && Guarded(v1)
    ensures v1.flat.Keys == v0.flat.Keys + Stretch(s, FirstPage(nv), nv.pages)
    ensures Grown(v0, v1, s, a, FirstPage(nv), nv.pages) && FreshPages(v0, v1) && Isolated(v0, v1, s)
  {
    hide Homes, Shared, Flagged, Covers, Grown, FreshPages, Isolated, VmaOk, Lists, FirstPage, PhysMapped, Guarded;
    hide Consistent, IsFlat;
    CoreRelisted(w1, v1);
    SameGrowth(w0, w1, v0, v1, s, a, FirstPage(nv), nv.pages);
    ListsAfterMmap(v0, v1, s, a);
    GrownPages(v0, v1, s, a, FirstPage(nv), nv.pages, limit);
    MmapGuarded(v0, v1, p4, s, a, FirstPage(nv), nv.pages);
  }

  /** What mapping one page over a fresh frame amounts to. */
  lemma FreshPageDone(v0: View, v: View, w: View, s: nat, g: Page, a: nat, nv: Vma, first: nat, i: nat, n: nat, e: nat)
    requires n == i + 1 && g.sp == s
    requires Core(v) && s in v.areas && a in v.vmas && v.vmas[a] == nv && i < nv.pages && first == FirstPage(nv)
    requires nv.kind.Reg? || (nv.kind.KernelHeap? && s == KERNEL)
    requires Grown(v0, v, s, a, first, i) && g.v == first + i && g !in v0.flat
    requires FreshPages(v0, v) && Isolated(v0, v, s) && v0.owner.Keys == v0.flat.Keys
    requires EntryFor(e, nv)
    requires var f := FrameOf(e);
      && w.areas == v.areas && w.vmas == v.vmas && w.flat == v.flat[g := e] && w.owner == v.owner[g := a]
      && w.home == v.home[f := g] && w.client == v.client + {f} && v.live <= w.live
      && OnlySpace(v.slots, w.slots, s) && KeepsTables(v.slots, w.slots) && SameOn(v.mem, w.mem, v.client)
      && f !in v.live && v.client <= v.live && f < |w.mem| && w.mem[f] == ZeroFrame()
    ensures Core(w) && Grown(v0, w, s, a, first, n) && FreshPages(v0, w) && Isolated(v0, w, s)
  {
    hide Grown, FreshPages, OnlySpace, HomesKept, FrameOf, Owned, Homes, Shared, Flagged, EntryFor, ZeroFrame, Covers;
    hide VmaOk, PageNo, KeepsTables;
    var f := FrameOf(e);
    NextIsNew(v0, v, s, a, nv, i);
    KeysAgree(v);
    AddPrivate(v, g, a, e);
    CoreSame(v.(flat := v.flat[g := e], owner := v.owner[g := a], home := v.home[f := g], client := v.client + {f}), w);
    GrownStep(v0, v, w, s, a, first, i, e);
    FreshStep(v0, v, w, g);
    HomeAdded(v.home, f, g) by { HomesAreClient(v); }
    IsolatedStep(v0, v, w, s);
  }

  lemma HomeAdded(h: map<nat, Page>, f: nat, g: Page)
    requires f !in h
    ensures HomesKept(h, h[f := g], g.sp)
  {
  }

  /** The entry for a fresh frame: its address plus the flags. */
  lemma FlagsFit(a: Vma)
    ensures 0 < Flags(a.prot, a.user) < PAGE_SIZE
  {
  }

  lemma FreshEntry(frame: nat, flags: nat, a: Vma)
    requires frame % PAGE_SIZE == 0 && frame + PAGE_SIZE <= WORD_LIMIT && flags == Flags(a.prot, a.user)
    ensures var e := BitOr(frame, flags); FrameOf(e) == FrameOf(frame) && 0 < e < WORD_LIMIT && EntryFor(e, a)
    ensures 0 < flags < PAGE_SIZE
  {
    hide BitOr;
    BitOrKeepsFrame(frame, flags);
  }
}
