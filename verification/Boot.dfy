/** The kernel's own address space (src/mm/vmm.c, lines 211-222 and 360-406). */
module Boot {
  import opened Bytes
  import opened Pmm
  import opened PageTables
  import opened Counts
  import opened Reach
  import opened Paging
  import opened Views
  import opened Vmm
  import opened Rights
  import Layout

  const KERNEL_TEXT_BASE: nat := 0xffff_ffff_8000_0000

  const TEXT: Vma := Vma(0, KernelText, KERNEL_TEXT_BASE, 512, false, 3)
  const PHYS: Vma := Vma(0, PhysMem, PHYS_MAPPING_START, 1024, false, 3)
  const HEAP: Vma := Vma(0, KernelHeap, Layout.HEAP_BASE, 128, false, 3)

  /** The frames below this one are reached through the tables that the boot code sets up (1 GiB). */
  const BOOT_REACH: nat := 0x4_0000

  /** The frames that start-up takes: one for each page of the heap, and eleven tables. */
  const BOOT_FRAMES: nat := 128 + 11

  /** The pages of the kernel's three areas. */
  ghost function KernelPages(): (pages: set<Page>)
  {
    AreaPages(TEXT) + AreaPages(PHYS) + AreaPages(HEAP)
  }

  ghost function AreaPages(a: Vma): (pages: set<Page>)
  {
    Stretch(KERNEL, FirstPage(a), a.pages)
  }

  /** Pages from `first` on are mapped to physical pages from 0 on. */
  ghost predicate Identity(flat: map<Page, nat>, first: nat, n: nat)
  {
    forall p: nat :: first <= p < first + n ==> Page(KERNEL, p) in flat && FrameOf(flat[Page(KERNEL, p)]) == p - first
  }

  function TableAt(i4: nat, i3: nat, i2: nat): (n: Node)
  {
    Node(KERNEL, Sub(Sub(Sub(Root, i4), i3), i2))
  }

  /** The places of the tables above the kernel's pages. */
  function KernelPlaces(): (ns: seq<Node>)
    ensures |ns| == 11
  {
    [ Node(KERNEL, Root), Node(KERNEL, Sub(Root, 511)), Node(KERNEL, Sub(Sub(Root, 511), 510)), TableAt(511, 510, 0),
      Node(KERNEL, Sub(Root, 273)), Node(KERNEL, Sub(Sub(Root, 273), 0)), TableAt(273, 0, 0), TableAt(273, 0, 1),
      Node(KERNEL, Sub(Root, 402)), Node(KERNEL, Sub(Sub(Root, 402), 0)), TableAt(402, 0, 0)]
  }

  lemma PlacesAbove(v: nat, i4: nat, i3: nat, i2: nat)
    requires v / 0x800_0000 % 512 == i4 && v / 0x4_0000 % 512 == i3 && v / 512 % 512 == i2
    requires Node(KERNEL, Sub(Root, i4)) in KernelPlaces() && Node(KERNEL, Sub(Sub(Root, i4), i3)) in KernelPlaces()
    requires TableAt(i4, i3, i2) in KernelPlaces()
    ensures forall n :: n in TablesAbove(Page(KERNEL, v)) ==> n in KernelPlaces()
  {
  }

  /** Eleven tables lie above the kernel's pages. */
  lemma KernelTables()
    ensures |TableNodes(KernelPages())| <= 11
  {
    hide PageNo, PagePath, TablesAbove;
    KernelAreas();
    forall n | n in TableNodes(KernelPages()) ensures n in KernelPlaces() {
      var g :| g in KernelPages() && n in TablesAbove(g);
      KernelPlace(g, n);
    }
    ListedSize(TableNodes(KernelPages()), KernelPlaces());
  }

  lemma TextIndices(v: nat)
    requires 0xffff80000 <= v < 0xffff80000 + 512
    ensures v / 0x800_0000 % 512 == 511 && v / 0x4_0000 % 512 == 510 && v / 512 % 512 == 0
  {
  }

  lemma PhysIndices(v: nat)
    requires 0x888000000 <= v < 0x888000000 + 1024
    ensures v / 0x800_0000 % 512 == 273 && v / 0x4_0000 % 512 == 0
    ensures v / 512 % 512 == if v < 0x888000000 + 512 then 0 else 1
  {
  }

  lemma HeapIndices(v: nat)
    requires 0xc90000000 <= v < 0xc90000000 + 128
    ensures v / 0x800_0000 % 512 == 402 && v / 0x4_0000 % 512 == 0 && v / 512 % 512 == 0
  {
  }

  lemma KernelPlace(g: Page, n: Node)
    requires g in KernelPages() && n in TablesAbove(g)
    ensures n in KernelPlaces()
  {
    hide PageNo, TablesAbove, FirstPage;
    KernelAreas();
    var v := g.v;
    assert g == Page(KERNEL, v);
    if g in AreaPages(TEXT) {
      TextIndices(v);
      PlacesAbove(v, 511, 510, 0);
    } else if g in AreaPages(PHYS) {
      PhysIndices(v);
      PlacesAbove(v, 273, 0, if v < 0x888000000 + 512 then 0 else 1);
    } else {
      HeapIndices(v);
      PlacesAbove(v, 402, 0, 0);
    }
  }

  /** The three kernel areas are well formed and overlap nowhere, even in 36-bit page numbers. */
  lemma KernelAreas()
    ensures VmaOk(TEXT) && VmaOk(PHYS) && VmaOk(HEAP)
    ensures FirstPage(TEXT) == 0xffff80000 && FirstPage(PHYS) == 0x888000000 && FirstPage(HEAP) == 0xc90000000
  {
    hide PageNo;
    PageNoIs(KERNEL_TEXT_BASE, 0xffff, 0xffff80000);
    PageNoIs(PHYS_MAPPING_START, 0xffff, 0x888000000);
    PageNoIs(Layout.HEAP_BASE, 0xffff, 0xc90000000);
  }

  lemma PageNoIs(virt: nat, q: nat, r: nat)
    requires virt == (q * PAGES + r) * PAGE_SIZE && r < PAGES
    ensures PageNo(virt) == r && virt % PAGE_SIZE == 0
  {
    DivUnique(virt, PAGE_SIZE, q * PAGES + r, 0);
    DivUnique(q * PAGES + r, PAGES, q, r);
  }

  /** One page of `vmm_map_range` for the kernel. */
  method MapKernelPage(sp: AddressSpaces, nv: Vma, flags: nat, virt: nat, phys: nat,
                       ghost a: nat, ghost g: Page, ghost first: nat, ghost i: nat, ghost n: nat, ghost v0: View,
                       ghost all: set<Page>)
    requires sp.Base() && KERNEL in sp.areas && a !in sp.vmas && Core(sp.With(a, nv))
    requires flags == Flags(nv.prot, nv.user)
    requires (nv.kind.KernelText? || nv.kind.PhysMem?) && phys + PAGE_SIZE <= WORD_LIMIT && phys == PAGE_SIZE * i
    requires Identity(sp.mapper.flat, first, i) && sp.mapper.Room(0, all) && sp.mapper.flat.Keys <= all && g in all
    requires first == FirstPage(nv) && i < nv.pages && n == i + 1
    requires g == Page(KERNEL, PageNo(virt)) && g.v == first + i && g !in v0.flat && v0.owner.Keys == v0.flat.Keys
    requires Grown(v0, sp.With(a, nv), KERNEL, a, first, i)
    modifies sp`owner, sp.mapper, sp.mapper.pmm, sp.mapper.pmm.ram
    ensures sp.Base() && Core(sp.With(a, nv)) && Grown(v0, sp.With(a, nv), KERNEL, a, first, n)
    ensures Identity(sp.mapper.flat, first, n) && sp.mapper.flat.Keys <= all
    ensures Taken(old(sp.mapper.slots), sp.mapper.slots, flags)
    ensures sp.mapper.Client() == old(sp.mapper.Client())
  {
    hide PageNo, FrameOf, Flags, Core, Covers, SameOn, FirstPage, Grown, OnlySpace, Taken, TableNodes, Identity;
    hide TablesPresent, Bit;
    hide Mapper.Valid, FrameAllocator.Free, Mapper.Client;
    ghost var v := sp.With(a, nv);
    sp.mapper.Narrow(0, all, 0, sp.mapper.flat.Keys + {g});
    FreshEntry(phys, flags, nv);
    ghost var e := BitOr(phys, flags);
    sp.owner := sp.owner[g := a];
    sp.mapper.MapPage(KERNEL, virt, phys, flags);
    StillPresent(v.slots, sp.mapper.slots, flags);
    KernelPageDone(v0, v, sp.With(a, nv), g, a, nv, first, i, n, e);
    IdentityStep(v.flat, sp.mapper.flat, first, i, flags);
  }

  lemma IdentityStep(f0: map<Page, nat>, f1: map<Page, nat>, first: nat, i: nat, flags: nat)
    requires Identity(f0, first, i) && flags < PAGE_SIZE
    requires f1 == f0[Page(KERNEL, first + i) := BitOr(PAGE_SIZE * i, flags)]
    ensures Identity(f1, first, i + 1)
  {
    hide BitOr;
    BitOrKeepsFrame(PAGE_SIZE * i, flags);
  }

  lemma KernelPageDone(v0: View, v: View, w: View, g: Page, a: nat, nv: Vma, first: nat, i: nat, n: nat, e: nat)
    requires Core(v) && KERNEL in v.areas && a in v.vmas && v.vmas[a] == nv && i < nv.pages && first == FirstPage(nv)
    requires (nv.kind.KernelText? || nv.kind.PhysMem?) && g.sp == KERNEL && g.v == first + i && n == i + 1
    requires Grown(v0, v, KERNEL, a, first, i) && g !in v0.flat && v0.owner.Keys == v0.flat.Keys
    requires w.areas == v.areas && w.vmas == v.vmas && w.flat == v.flat[g := e] && w.owner == v.owner[g := a]
    requires w.home == v.home && w.client == v.client && EntryFor(e, nv)
    ensures Core(w) && Grown(v0, w, KERNEL, a, first, n)
  {
    hide Grown, FrameOf, Owned, Homes, Shared, Flagged, EntryFor, Covers, PageNo;
    NextIsNew(v0, v, KERNEL, a, nv, i);
    KeysAgree(v);
    AddShared(v, g, a, e);
    CoreSame(v.(flat := v.flat[g := e], owner := v.owner[g := a]), w);
    GrownStep(v0, v, w, KERNEL, a, first, i, e);
  }

  /** `vmm_map_range` of consecutive physical pages from 0 on. */
  method MapKernelRange(sp: AddressSpaces, nv: Vma, ghost a: nat, ghost all: set<Page>)
    requires sp.Base() && KERNEL in sp.areas && a !in sp.vmas && Core(sp.With(a, nv)) && VmaOk(nv)
    requires nv.kind.KernelText? || nv.kind.PhysMem?
    requires nv.pages * PAGE_SIZE <= WORD_LIMIT && sp.mapper.Room(0, all)
    requires sp.mapper.flat.Keys + AreaPages(nv) <= all
    requires forall p: nat :: Covers(nv, p) ==> Page(KERNEL, p) !in sp.mapper.flat
    modifies sp`owner, sp.mapper, sp.mapper.pmm, sp.mapper.pmm.ram
    ensures sp.Base() && Core(sp.With(a, nv))
    ensures Grown(old(sp.With(a, nv)), sp.With(a, nv), KERNEL, a, FirstPage(nv), nv.pages)
    ensures Identity(sp.mapper.flat, FirstPage(nv), nv.pages)
    ensures sp.mapper.flat.Keys <= all && sp.mapper.Client() == old(sp.mapper.Client())
    ensures Taken(old(sp.mapper.slots), sp.mapper.slots, Flags(nv.prot, nv.user))
  {
    hide Taken, TablesPresent;
    hide PageNo, Core, Grown, Flags, Mapper.Valid, FrameAllocator.Free, Mapper.Client, TableNodes;
    ghost var v0 := sp.With(a, nv);
    KeysInCore(v0);
    IsolatedStart(v0, KERNEL, a, FirstPage(nv));
    var flags := Flags(nv.prot, nv.user);
    TakenNothing(sp.mapper.slots, flags);
    for i := 0 to nv.pages
      invariant sp.Base() && Core(sp.With(a, nv)) && Grown(v0, sp.With(a, nv), KERNEL, a, FirstPage(nv), i)
      invariant Identity(sp.mapper.flat, FirstPage(nv), i)
      invariant sp.mapper.flat.Keys <= all && sp.mapper.Client() == old(sp.mapper.Client())
      invariant Taken(old(sp.mapper.slots), sp.mapper.slots, flags)
    {
      ghost var s1 := sp.mapper.slots;
      PageOfOffset(nv, i);
      var virt := nv.start + PAGE_SIZE * i;
      var phys := PAGE_SIZE * i;
      ghost var g := Page(KERNEL, PageNo(virt));
      assert Covers(nv, g.v) && g in AreaPages(nv);
      MapKernelPage(sp, nv, flags, virt, phys, a, g, FirstPage(nv), i, i + 1, v0, all);
      TakenTwice(old(sp.mapper.slots), s1, sp.mapper.slots, flags);
    }
  }

  /** A static area becomes the last of the kernel's list. */
  method AppendArea(sp: AddressSpaces, nv: Vma)
    requires KERNEL in sp.areas
    modifies sp`areas, sp`vmas, sp`next
    ensures sp.areas == old(sp.areas)[KERNEL := old(sp.areas)[KERNEL] + [old(sp.next)]]
    ensures sp.vmas == old(sp.vmas)[old(sp.next) := nv] && sp.next == old(sp.next) + 1
  {
    var a := sp.next;
    sp.vmas := sp.vmas[a := nv];
    sp.next := a + 1;
    sp.areas := sp.areas[KERNEL := sp.areas[KERNEL] + [a]];
  }

  /** The data frames of an area: only the heap has frames of its own. */
  function Frames(a: Vma): (n: nat)
  {
    if a.kind.KernelHeap? then a.pages else 0
  }

  /** v1 is v0 with one more area of the kernel: old pages are kept, the new ones map what they should. */
  ghost predicate AreaAdded(v0: View, v1: View, nv: Vma)
  {
    && v1.areas.Keys == {KERNEL} && v1.flat.Keys == v0.flat.Keys + AreaPages(nv)
    && (forall g :: g in v0.flat ==> v1.flat[g] == v0.flat[g])
    && (forall g :: g in AreaPages(nv) ==> v1.flat[g] % 4096 == 3)
    && HeapPages(v1) == HeapPages(v0) + (if nv.kind.KernelHeap? then AreaPages(nv) else {})
    && (nv.kind.KernelHeap? ==> forall g :: g in AreaPages(nv) ==> Holds(v1, g, ZeroFrame()))
    && (!nv.kind.KernelHeap? ==> Identity(v1.flat, FirstPage(nv), nv.pages))
  }

  /** Maps one kernel area and appends it to the kernel's list, while no other space exists. */
  method AddKernelArea(sp: AddressSpaces, nv: Vma, ghost all: set<Page>)
    requires sp.Valid() && sp.areas.Keys == {KERNEL} && VmaOk(nv) && nv.refcnt == 0 && !nv.kind.Reg?
    requires Bit(nv.prot, 1) && !nv.user && Lit(sp.mapper.slots, KERNEL, WRITE)
    requires nv.pages <= 1024 && sp.mapper.Room(Frames(nv), all) && sp.mapper.flat.Keys + AreaPages(nv) <= all
    requires forall p: nat :: Covers(nv, p) ==> Page(KERNEL, p) !in sp.mapper.flat
    modifies sp, sp.mapper, sp.mapper.pmm, sp.mapper.pmm.ram
    ensures sp.Valid() && AreaAdded(old(sp.V()), sp.V(), nv) && sp.nextSpace == old(sp.nextSpace)
    ensures |sp.mapper.Client()| == |old(sp.mapper.Client())| + Frames(nv)
    ensures |sp.areas[KERNEL]| == |old(sp.areas)[KERNEL]| + 1 && Lit(sp.mapper.slots, KERNEL, WRITE)
  {
    hide PageNo, Core, Grown, Flags, VmaOk, Lists;
    hide FreshPages, Isolated, Mapper.Valid, FrameAllocator.Free, Mapper.Client;
    hide TableNodes, Identity, AreaAdded, Lit, Taken, TablesPresent, Guarded, Bit;
    var a := sp.next;
    ghost var v0 := sp.V();
    ghost var w0 := sp.With(a, nv);
    NewArea(v0, w0, a);
    if nv.kind.KernelHeap? {
      sp.MapFresh(KERNEL, a, nv, Flags(nv.prot, nv.user), all);
    } else {
      MapKernelRange(sp, nv, a, all);
    }
    ghost var w1 := sp.With(a, nv);
    AppendArea(sp, nv);
    ghost var v1 := sp.V();
    assert v1 == w1.(areas := v1.areas);
    KernelAreaDone(v0, w0, w1, v1, a, nv);
    AreaIsAdded(v0, w0, w1, v1, a, nv);
    StillLit(v0.slots, v1.slots, KERNEL, Flags(nv.prot, nv.user), WRITE);
    sp.mapper.PagesBelow();
    KernelGuarded(v0, v1, a, nv);
  }

  /** While only the kernel's space exists, all its tables let stores through. */
  lemma KernelGuarded(v0: View, v1: View, a: nat, nv: Vma)
    requires Core(v1) && KERNEL in v0.areas && Guarded(v0) && v1.areas == v0.areas[KERNEL := v0.areas[KERNEL] + [a]]
    requires v1.areas.Keys == {KERNEL} && v1.vmas == v0.vmas[a := nv] && Bit(nv.prot, 1) && !nv.user
    requires a !in v0.vmas && Lit(v1.slots, KERNEL, WRITE) && forall g :: g in v1.flat ==> g.v < PAGES
    ensures Guarded(v1)
  {
    hide Homes, Shared, Flagged, Covers, LowestTable, Carried, Lit, Bit;
    forall g | g in v1.flat ensures Carried(v1.slots, g.sp, LowestTable(g.v), WRITE) {
      LowestIsTable(g.v);
      LitCarried(v1.slots, KERNEL, LowestTable(g.v), WRITE);
    }
  }

  lemma AreaIsAdded(v0: View, w0: View, w1: View, v1: View, a: nat, nv: Vma)
    requires Core(v0) && Core(v1) && a !in v0.vmas && w0 == v0.(vmas := v0.vmas[a := nv]) && w1.vmas == w0.vmas
    requires v1 == w1.(areas := v1.areas) && v1.areas.Keys == {KERNEL}
    requires Grown(w0, w1, KERNEL, a, FirstPage(nv), nv.pages)
    requires forall p: nat :: Covers(nv, p) ==> Page(KERNEL, p) !in v0.flat
    requires if nv.kind.KernelHeap? then FreshPages(w0, w1) else Identity(w1.flat, FirstPage(nv), nv.pages)
    requires Bit(nv.prot, 1) && !nv.user
    ensures AreaAdded(v0, v1, nv)
  {
    hide Core, FirstPage, FreshPages, Identity, HeapPages, Holds;
    HeapGrows(v0, w1, v1, a, nv);
    forall g ensures g in v1.flat <==> g in v0.flat || g in AreaPages(nv) { assert g == Page(g.sp, g.v); }
    KernelFlags(v0, w1, v1, a, nv);
    if nv.kind.KernelHeap? { HeapIsZero(v0, w0, w1, v1, nv); }
  }

  /** Entries of the kernel's areas are present and writable, and nothing else. */
  lemma KernelFlags(v0: View, w1: View, v1: View, a: nat, nv: Vma)
    requires Core(v0) && Core(v1) && a in v1.vmas && v1.vmas[a] == nv && Bit(nv.prot, 1) && !nv.user
    requires Grown(v0.(vmas := v1.vmas), w1, KERNEL, a, FirstPage(nv), nv.pages)
    requires v1.flat == w1.flat && v1.owner == w1.owner && v1.flat.Keys == v0.flat.Keys + AreaPages(nv)
    requires forall p: nat :: Covers(nv, p) ==> Page(KERNEL, p) !in v0.flat
    ensures forall g :: g in AreaPages(nv) ==> v1.flat[g] % 4096 == 3
  {
    hide Homes, Shared, FirstPage, FrameOf, Bit;
    forall g | g in AreaPages(nv) ensures v1.flat[g] % 4096 == 3 {
      assert g == Page(KERNEL, g.v) && Covers(nv, g.v);
      assert g !in v0.owner && v1.owner[g] == a;
      assert EntryFor(v1.flat[g], nv);
      ThreeFlags(v1.flat[g], FrameOf(v1.flat[g]), nv);
    }
  }

  lemma ThreeFlags(e: nat, f: nat, nv: Vma)
    requires e == f * PAGE_SIZE + Flags(nv.prot, nv.user) && Bit(nv.prot, 1) && !nv.user
    ensures e % 4096 == 3
  {
    DivUnique(e, 4096, f, 3);
  }

  lemma HeapGrows(v0: View, w1: View, v1: View, a: nat, nv: Vma)
    requires Core(v0) && Core(v1) && a !in v0.vmas && v1.vmas == v0.vmas[a := nv] && v1.owner == w1.owner
    requires Grown(v0.(vmas := v1.vmas), w1, KERNEL, a, FirstPage(nv), nv.pages) && v1.flat == w1.flat
    requires forall p: nat :: Covers(nv, p) ==> Page(KERNEL, p) !in v0.flat
    ensures HeapPages(v1) == HeapPages(v0) + if nv.kind.KernelHeap? then AreaPages(nv) else {}
  {
    hide Homes, Shared, Flagged, FirstPage;
    forall g ensures g in HeapPages(v1) <==> g in HeapPages(v0) || (nv.kind.KernelHeap? && g in AreaPages(nv)) {
      assert g == Page(g.sp, g.v);
      assert Covers(nv, g.v) <==> FirstPage(nv) <= g.v < FirstPage(nv) + nv.pages;
    }
  }

  lemma HeapIsZero(v0: View, w0: View, w1: View, v1: View, nv: Vma)
    requires FreshPages(w0, w1) && w0.flat == v0.flat && v1.flat == w1.flat && v1.mem == w1.mem
    requires forall p: nat :: Covers(nv, p) ==> Page(KERNEL, p) !in v0.flat
    requires v1.flat.Keys == v0.flat.Keys + AreaPages(nv)
    ensures forall g :: g in AreaPages(nv) ==> Holds(v1, g, ZeroFrame())
  {
    hide FirstPage, ZeroFrame, FrameOf;
    forall g | g in AreaPages(nv) ensures Holds(v1, g, ZeroFrame()) {
      assert g == Page(KERNEL, g.v) && Covers(nv, g.v);
    }
  }

  lemma KernelAreaDone(v0: View, w0: View, w1: View, v1: View, a: nat, nv: Vma)
    requires Core(v0) && Lists(v0) && v0.areas.Keys == {KERNEL} && a !in v0.vmas && VmaOk(nv) && nv.refcnt == 0
    requires !nv.kind.Reg?
    requires w0 == v0.(vmas := v0.vmas[a := nv]) && w1.vmas == w0.vmas && w1.areas == w0.areas && Core(w1)
    requires forall p: nat :: Covers(nv, p) ==> Page(KERNEL, p) !in v0.flat
    requires Grown(w0, w1, KERNEL, a, FirstPage(nv), nv.pages)
    requires v1 == w1.(areas := v1.areas) && v1.areas == v0.areas[KERNEL := v0.areas[KERNEL] + [a]]
    ensures Core(v1) && Lists(v1) && v1.areas.Keys == {KERNEL}
  {
    hide Homes, Shared, Flagged, Owned, VmaOk, PageNo, SpaceOk, Counted, Complete;
    CoreRelisted(w1, v1);
    assert v1.areas.Keys == {KERNEL};
    assert SpaceOk(v0, KERNEL);
    KernelSpaceOk(v0, v1, a, nv);
    KernelCounted(v0, v1, a, nv);
  }

  /** The only space is the kernel's, so no area is counted yet. */
  lemma KernelCounted(v0: View, v1: View, a: nat, nv: Vma)
    requires v0.areas.Keys == {KERNEL} && SpaceOk(v0, KERNEL) && Counted(v0) && !nv.kind.Reg? && nv.refcnt == 0
    requires v1.vmas == v0.vmas[a := nv] && v1.areas == v0.areas[KERNEL := v0.areas[KERNEL] + [a]]
    ensures Counted(v1)
  {
    hide Complete, VmaOk, NoDup;
    assert v1.areas.Keys == {KERNEL};
    assert |v1.areas| == 1 && |v0.areas| == 1 by { assert |v1.areas.Keys| == 1 && |v0.areas.Keys| == 1; }
    forall b | b in v1.areas[KERNEL] ensures b in v1.vmas && !v1.vmas[b].kind.Reg? && v1.vmas[b].refcnt == 0 {
      if b != a { assert b in v0.areas[KERNEL]; }
    }
  }

  lemma KernelSpaceOk(v0: View, v1: View, a: nat, nv: Vma)
    requires Owned(v0) && Owned(v1) && KERNEL in v0.areas && SpaceOk(v0, KERNEL) && a !in v0.vmas && VmaOk(nv)
    requires !nv.kind.Reg?
    requires v1.vmas == v0.vmas[a := nv] && v1.areas == v0.areas[KERNEL := v0.areas[KERNEL] + [a]]
    requires forall p: nat :: Covers(nv, p) ==> Page(KERNEL, p) !in v0.flat
    requires forall g :: g in v1.flat <==> g in v0.flat || (g.sp == KERNEL && Covers(nv, g.v))
    requires forall g :: g in v0.owner ==> g in v1.owner && v1.owner[g] == v0.owner[g]
    requires forall g :: g in v1.owner && g !in v0.owner ==> v1.owner[g] == a
    ensures SpaceOk(v1, KERNEL)
  {
    hide VmaOk, Covers;
    forall b | b in v1.areas[KERNEL]
      ensures b in v1.vmas && VmaOk(v1.vmas[b]) && Complete(v1, KERNEL, b)
    {
      if b != a {
        assert b in v0.areas[KERNEL] && Complete(v0, KERNEL, b);
      } else {
        forall p: nat | Covers(nv, p)
          ensures Page(KERNEL, p) in v1.owner && v1.owner[Page(KERNEL, p)] == a
        {
          assert Page(KERNEL, p) in v1.flat;
        }
      }
    }
  }

  /** The kernel's space: its pages, the frames behind two of its areas, and a heap of zero bytes. */
  ghost predicate Started(v: View)
  {
    && v.areas.Keys == {KERNEL} && v.flat.Keys == KernelPages()
    && Identity(v.flat, FirstPage(TEXT), 512) && Identity(v.flat, FirstPage(PHYS), 1024)
    && (forall g :: g in v.flat ==> v.flat[g] % 4096 == 3) && HeapPages(v) == AreaPages(HEAP)
    && (forall g :: g in AreaPages(HEAP) ==> g in v.flat && Holds(v, g, ZeroFrame()))
  }

  /** `kernel_mm_init`: from nothing to the state that every other operation starts from. */
  method KernelMmInit(sp: AddressSpaces)
    requires sp.Valid() && sp.areas == map[KERNEL := []] && sp.mapper.flat == map[] && sp.mapper.slots == map[]
    requires sp.mapper.Room(128, KernelPages())
    modifies sp, sp.mapper, sp.mapper.pmm, sp.mapper.pmm.ram
    ensures sp.Valid() && Started(sp.V()) && |sp.areas[KERNEL]| == 3 && sp.nextSpace == old(sp.nextSpace)
    ensures |sp.mapper.Client()| == |old(sp.mapper.Client())| + 128
  {
    hide Core, Lists, VmaOk, Mapper.Valid, FrameAllocator.Free, Mapper.Client, FirstPage, TableNodes, HeapPages, Covers;
    hide AreaAdded, Started, AreaPages, Guarded, TablesPresent, Bit;
    assert Lit(sp.mapper.slots, KERNEL, WRITE) && Bit(3, 1) by { ThreeBits(3); }
    hide Lit;
    KernelAreas();
    ghost var v0 := sp.V();
    NoHeap(v0);
    AddKernelArea(sp, TEXT, KernelPages());
    ghost var v1 := sp.V();
    TextAdded(v0, v1);
    AddKernelArea(sp, PHYS, KernelPages());
    ghost var v2 := sp.V();
    PhysAdded(v0, v1, v2);
    AddKernelArea(sp, HEAP, KernelPages());
    HeapAdded(v0, v1, v2, sp.V());
  }

  lemma TextAdded(v0: View, v1: View)
    requires v0.flat == map[] && AreaAdded(v0, v1, TEXT)
    ensures v1.areas.Keys == {KERNEL} && v1.flat.Keys + AreaPages(PHYS) <= KernelPages()
    ensures forall p: nat :: Covers(PHYS, p) ==> Page(KERNEL, p) !in v1.flat
  {
    hide FirstPage, Identity, HeapPages;
    KernelAreas();
  }

  lemma PhysAdded(v0: View, v1: View, v2: View)
    requires v0.flat == map[] && AreaAdded(v0, v1, TEXT) && AreaAdded(v1, v2, PHYS)
    ensures v2.areas.Keys == {KERNEL} && v2.flat.Keys + AreaPages(HEAP) <= KernelPages()
    ensures forall p: nat :: Covers(HEAP, p) ==> Page(KERNEL, p) !in v2.flat
  {
    hide FirstPage, Identity, HeapPages;
    KernelAreas();
  }

  lemma HeapAdded(v0: View, v1: View, v2: View, v3: View)
    requires v0.flat == map[] && HeapPages(v0) == {}
    requires AreaAdded(v0, v1, TEXT) && AreaAdded(v1, v2, PHYS) && AreaAdded(v2, v3, HEAP)
    ensures Started(v3)
  {
    hide FirstPage, HeapPages, Holds;
    KernelAreas();
  }

  lemma NoHeap(v: View)
    requires Core(v) && v.flat == map[]
    ensures HeapPages(v) == {}
  {
  }

  /** The boot tables reach the bitmap of every region. */
  predicate BitmapsInReach(rs: seq<Region>)
  {
    forall k :: 0 <= k < |rs| ==> Base(rs[k]) + BitmapFrames(rs[k]) <= BOOT_REACH
  }

  /**
   * From memory of any contents and a list of regions to the running memory manager. All of this runs
   * on the tables of the boot code; what it leaves behind can be worked on exactly if the frames
   * handed out are within the 1024 that the kernel's own tables reach.
   */
  method StartMemory(rs: seq<Region>, memory: array<Frame>, ghost limit: nat) returns (sp: AddressSpaces)
    requires RegionsOk(rs, memory.Length) && memory.Length > 0 && memory.Length * PAGE_SIZE + PAGE_SIZE <= WORD_LIMIT
    requires BitmapsInReach(rs) && limit <= BOOT_REACH && |ReachSet(rs, memory.Length, limit)| >= BOOT_FRAMES
    modifies memory
    ensures fresh(sp) && fresh(sp.mapper) && fresh(sp.mapper.pmm) && sp.nextSpace == 1
    ensures sp.mapper.pmm.regions == rs && sp.mapper.pmm.ram == memory && sp.mapper.limit == limit
    ensures sp.Valid() && Started(sp.V()) && |sp.areas[KERNEL]| == 3 && |sp.mapper.Client()| == 128
    ensures sp.Covered() <==> limit <= 1024
  {
    hide Core, Lists, RegionsOk, ReachSet, BitmapInv, Covers, TableNodes, Started, PhysMapped;
    var pmm := new FrameAllocator(rs, memory);
    var mapper := new Mapper(pmm, limit);
    sp := new AddressSpaces(mapper);
    KernelTables();
    KernelMmInit(sp);
    CoveredIff(sp.V(), limit);
  }

  /** The page through which the kernel reaches a frame. */
  lemma PhysPageIs(f: nat)
    requires f < BOOT_REACH
    ensures PhysPage(f) == 0x888000000 + f
  {
    hide PageNo;
    PageNoIs(PToV(f), 0xffff, 0x888000000 + f);
  }

  /** In the kernel's space the map of physical memory ends after 1024 frames. */
  lemma PhysPageIff(v: View, f: nat)
    requires Started(v) && f < BOOT_REACH
    ensures Page(KERNEL, PhysPage(f)) in v.flat <==> f < 1024
    ensures f < 1024 ==> FrameOf(v.flat[Page(KERNEL, PhysPage(f))]) == f
  {
    hide PageNo, PhysPage, FrameOf, FirstPage, HeapPages, Holds;
    KernelAreas();
    PhysPageIs(f);
    var g := Page(KERNEL, PhysPage(f));
    assert g in KernelPages() <==> f < 1024 by {
      assert g in AreaPages(PHYS) <==> f < 1024;
      assert g !in AreaPages(TEXT) && g !in AreaPages(HEAP);
    }
  }

  lemma CoveredIff(v: View, limit: nat)
    requires Started(v)
    ensures PhysMapped(v.flat, limit) <==> limit <= 1024
  {
    hide Started, PhysPage, FrameOf;
    if limit <= 1024 {
      forall f: nat | f < limit
        ensures Page(KERNEL, PhysPage(f)) in v.flat && FrameOf(v.flat[Page(KERNEL, PhysPage(f))]) == f
      {
        PhysPageIff(v, f);
      }
    } else {
      PhysPageIff(v, 1024);
    }
  }

  ghost function Range(lo: nat, n: nat): (r: set<nat>)
    ensures |r| == n && forall f :: f in r <==> lo <= f < lo + n
  {
    if n == 0 then {} else Range(lo, n - 1) + {lo + n - 1}
  }

  // ---------- memory past the map ----------

  /** The processor finds the page, all four entries being present, over the frame. */
  predicate Names(m: seq<Frame>, p4: nat, v: nat, f: nat)
  {
    Allowed(m, p4, PagePath(v), 0) && FrameOf(Walk(m, p4, v)) == f
  }

  lemma StartedSpace(v: View)
    requires Started(v)
    ensures KERNEL in v.areas
  {
  }

  /** After start-up, the kernel finds a frame at its place exactly if it is one of the first 1024. */
  lemma KernelFindsIff(sp: AddressSpaces, f: nat)
    requires sp.Valid() && Started(sp.V()) && f < BOOT_REACH
    ensures KERNEL in sp.mapper.p4
    ensures Names(sp.mapper.pmm.ram[..], sp.mapper.p4[KERNEL], PhysPage(f), f) <==> f < 1024
    ensures f >= 1024 ==> Walk(sp.mapper.pmm.ram[..], sp.mapper.p4[KERNEL], PhysPage(f)) == 0
  {
    hide Core, Lists, Mapper.Valid, Started, Walk, PageNo, FrameOf, Names, Guarded, TablesPresent;
    StartedSpace(sp.V());
    PhysPageIff(sp.V(), f);
    NamesIff(sp, KERNEL, PToV(f), f);
  }

  /** What the processor finds at an address is what the flat map says. */
  lemma NamesIff(sp: AddressSpaces, s: nat, virt: nat, f: nat)
    requires sp.Valid() && s in sp.areas
    ensures s in sp.mapper.p4
    ensures var g := Page(s, PageNo(virt));
      && (Names(sp.mapper.pmm.ram[..], sp.mapper.p4[s], PageNo(virt), f) <==>
            g in sp.mapper.flat && FrameOf(sp.mapper.flat[g]) == f)
      && (Walk(sp.mapper.pmm.ram[..], sp.mapper.p4[s], PageNo(virt)) == 0 <==> g !in sp.mapper.flat)
  {
    hide Core, Lists, Mapper.Valid, Walk, FrameOf, Guarded, PageNo, PagePath, TablesPresent;
    sp.mapper.WalksAreFlat();
    var g := Page(s, PageNo(virt));
    if g in sp.mapper.flat {
      sp.mapper.EntryPresent(g);
      MappedPresent(sp, g);
    } else {
      NotAllowed(sp.mapper.pmm.ram[..], sp.mapper.p4[s], g.v);
    }
  }

  /** An entry that is 0 is not present. */
  lemma NotAllowed(m: seq<Frame>, p4: nat, v: nat)
    requires Walk(m, p4, v) == 0
    ensures !Allowed(m, p4, PagePath(v), 0)
  {
  }

  lemma FarFrames(rs: seq<Region>, n: nat)
    requires rs == [Region(0x40_0000, 20000)] && n == 21024
    ensures RegionsOk(rs, n) && BitmapsInReach(rs) && BitFrame(rs[0], 0) == 1024
    ensures ReachSet(rs, n, 1024) == {} && |ReachSet(rs, n, BOOT_REACH)| >= BOOT_FRAMES
  {
    hide Range;
    assert Base(rs[0]) == 1024 && BitmapBytes(rs[0]) == 2500 && BitmapFrames(rs[0]) == 1;
    var some := Range(1025, BOOT_FRAMES);
    forall f | f in some ensures f in ReachSet(rs, n, BOOT_REACH) {
      assert UsableIn(rs[0], f) && AllBelow(rs, 0, BOOT_REACH);
    }
    SubsetSize(some, ReachSet(rs, n, BOOT_REACH));
  }

  /**
   * Memory on which start-up succeeds and nothing can be allocated afterwards: one region that begins
   * at 4 MiB. Every search starts with the bitmap of that region, which the kernel's tables do not map.
   */
  method FarRegion(memory: array<Frame>) returns (sp: AddressSpaces)
    requires memory.Length == 21024
    modifies memory
    ensures fresh(sp) && sp.Valid() && Started(sp.V()) && !sp.Covered()
    ensures sp.mapper.pmm.regions == [Region(0x40_0000, 20000)] && sp.mapper.pmm.ram == memory
    ensures KERNEL in sp.mapper.p4 && Walk(memory[..], sp.mapper.p4[KERNEL], PageNo(PToV(1024))) == 0
    ensures forall k: nat, i: nat :: FirstFree(memory[..], sp.mapper.pmm.regions, k, i) ==>
      !SearchWithin(sp.mapper.pmm.regions, k, i, 1024)
  {
    hide RegionsOk, ReachSet, Started, FirstFree, SearchWithin, Walk, PageNo, PhysMapped, Core, Lists, Mapper.Valid;
    hide BitmapsInReach, BitFrame;
    var rs := [Region(0x40_0000, 20000)];
    FarFrames(rs, memory.Length);
    sp := StartFar(rs, memory);
    KernelFindsIff(sp, 1024);
    NoSearchWithin(memory[..], rs, 1024);
  }

  method StartFar(rs: seq<Region>, memory: array<Frame>) returns (sp: AddressSpaces)
    requires RegionsOk(rs, memory.Length) && BitmapsInReach(rs) && memory.Length == 21024
    requires |ReachSet(rs, memory.Length, BOOT_REACH)| >= BOOT_FRAMES
    modifies memory
    ensures fresh(sp) && sp.Valid() && Started(sp.V()) && !sp.Covered()
    ensures sp.mapper.pmm.regions == rs && sp.mapper.pmm.ram == memory
  {
    hide RegionsOk, ReachSet, Started, PhysMapped, Core, Lists, Mapper.Valid, BitmapsInReach;
    sp := StartMemory(rs, memory, BOOT_REACH);
  }

  /** Every search reads the first bitmap byte of the first region. */
  lemma NoSearchWithin(m: seq<Frame>, rs: seq<Region>, limit: nat)
    requires |rs| > 0 && rs[0].pages > 0 && BitFrame(rs[0], 0) >= limit
    ensures forall k: nat, i: nat :: FirstFree(m, rs, k, i) ==> !SearchWithin(rs, k, i, limit)
  {
  }
}
