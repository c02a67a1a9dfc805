/**
 * Runs of the whole memory manager (src/mm/vmm.c, lines 247-477): spaces are made, duplicated, mapped,
 * written and freed in any order, and frames are reused meanwhile. What the programs see is a map from
 * the pages of each space to bytes, and the frames in use are counted exactly.
 */
module Worlds {
  import opened Bytes
  import opened Pmm
  import opened PageTables
  import opened Counts
  import opened Reach
  import opened Paging
  import opened Views
  import opened Fork
  import opened Teardown
  import opened Vmm
  import opened Rights
  import opened Exec
  import opened Boot

  // ---------- what programs see ----------

  /**
   * The spaces and the name of the next one; the kernel's pages by number, those over fixed frames with
   * the frame and those of its heap with their bytes; and the bytes of every regular page of every space.
   */
  datatype World = World(spaces: set<nat>, next: nat, fixed: map<nat, nat>, heap: map<nat, Frame>,
                         memory: map<Page, Cell>)

  /** A regular page: its bytes, and whether its own entry lets programs write and reach it. */
  datatype Cell = Cell(bytes: Frame, write: bool, user: bool)

  ghost function Kernel(w: World): (numbers: set<nat>)
  {
    w.fixed.Keys + w.heap.Keys
  }

  datatype Op =
    | New
    | Map(sp: nat, start: nat, pages: nat, prot: nat, user: bool)
    | Dupe(sp: nat)
    | Free(sp: nat)
    | Put(sp: nat, virt: nat, b: byte)

  /** All mapped pages: the regular ones, and in every space those of the kernel's areas. */
  ghost function Pages(w: World): (pages: set<Page>)
  {
    w.memory.Keys + set s, p | s in w.spaces && p in Kernel(w) :: Page(s, p)
  }

  /** The frames in use: data frames, and tables of all levels. */
  ghost function InUse(w: World): (n: nat)
  {
    |w.heap| + |w.memory| + |TableNodes(Pages(w))|
  }

  ghost function Next(w: World, op: Op): (t: World)
    requires Legal(w, op)
  {
    match op
    case New => w.(spaces := w.spaces + {w.next}, next := w.next + 1)
    case Map(s, start, n, prot, user) =>
      w.(memory := map g | g in w.memory.Keys + Stretch(s, PageNo(start), n) ::
        if g in w.memory then w.memory[g] else Cell(ZeroFrame(), Bit(prot, 1), user))
    case Dupe(m) =>
      w.(spaces := w.spaces + {w.next}, next := w.next + 1,
         memory := map g | g in w.memory.Keys + Renamed(w.memory.Keys, m, w.next) ::
           if g in w.memory then w.memory[g] else w.memory[Page(m, g.v)])
    case Free(m) => w.(spaces := w.spaces - {m}, memory := map g | g in w.memory && g.sp != m :: w.memory[g])
    case Put(s, virt, b) =>
      var g := Page(s, PageNo(virt));
      var c := w.memory[g];
      w.(memory := w.memory[g := c.(bytes := c.bytes[virt % PAGE_SIZE := b])])
  }

  /**
   * Ranges are mapped where nothing is, stores go to regular pages, and neither the kernel's space nor
   * the last user space is freed.
   */
  ghost predicate Legal(w: World, op: Op)
  {
    match op
    case New => true
    case Map(s, start, n, prot, user) =>
      && s in w.spaces && s != KERNEL && VmaOk(Vma(1, Reg, start, n, user, prot))
      && Stretch(s, PageNo(start), n) !! Pages(w)
    case Dupe(m) => m in w.spaces
    case Free(m) => m in w.spaces && m != KERNEL && |w.spaces| > 2
    case Put(s, virt, _) => Page(s, PageNo(virt)) in w.memory
  }

  // ---------- the memory manager shows a world ----------

  /** Page g has the bytes and the flags of the cell. */
  ghost predicate Keeps(v: View, g: Page, c: Cell)
    requires g in v.flat
  {
    Holds(v, g, c.bytes) && (Bit(v.flat[g], 1) <==> c.write) && (Bit(v.flat[g], 2) <==> c.user)
  }

  ghost predicate Shows(v: View, next: nat, w: World)
  {
    && w.spaces == v.areas.Keys && w.next == next && ShowsKernel(v, w)
    && (forall p :: p in Kernel(w) <==> Page(KERNEL, p) in v.flat)
    && (forall g :: g in w.memory <==> g in v.flat && g.v !in Kernel(w))
    && (forall g :: g in w.memory ==> Keeps(v, g, w.memory[g]))
  }

  /** The pages of the kernel's heap hold its bytes, and its other pages name their frames. */
  ghost predicate ShowsKernel(v: View, w: World)
  {
    && w.fixed.Keys !! w.heap.Keys
    && (forall p :: p in w.heap <==> Page(KERNEL, p) in HeapPages(v))
    && (forall p :: p in w.heap ==> Page(KERNEL, p) in v.flat && Holds(v, Page(KERNEL, p), w.heap[p]))
    && (forall p :: p in w.fixed ==> Page(KERNEL, p) in v.flat && FrameOf(v.flat[Page(KERNEL, p)]) == w.fixed[p])
  }

  /** The kernel's map of physical memory, as the world has it, reaches all frames below the limit. */
  ghost predicate Reaches(w: World, limit: nat)
  {
    forall f: nat :: f < limit ==> PhysPage(f) in w.fixed && w.fixed[PhysPage(f)] == f
  }

  lemma ReachesCovers(v: View, next: nat, w: World, limit: nat)
    requires Shows(v, next, w) && Reaches(w, limit)
    ensures PhysMapped(v.flat, limit)
  {
    hide PhysPage, FrameOf, HeapPages, Holds, Keeps;
  }

  /** Regular pages are those that the kernel's own space does not map. */
  lemma RegularIff(v: View, g: Page)
    requires Core(v) && Lists(v)
    ensures RegularPage(v, g) <==> g in v.flat && Page(KERNEL, g.v) !in v.flat
  {
    hide VmaOk, Homes, Flagged;
    if g in v.flat && Page(KERNEL, g.v) in v.flat {
      var k := Page(KERNEL, g.v);
      assert SpaceOk(v, KERNEL) && SpaceOk(v, g.sp) && v.owner[k] in v.areas[KERNEL];
      assert Complete(v, g.sp, v.owner[k]) && Covers(v.vmas[v.owner[k]], g.v);
      assert g == Page(g.sp, g.v);
    }
  }

  /** Mapped pages and data frames are those of the world. */
  lemma Accounts(v: View, next: nat, w: World)
    requires Core(v) && Lists(v) && Shows(v, next, w)
    ensures v.flat.Keys == Pages(w) && |v.client| == |w.heap| + |w.memory|
  {
    hide Core, Lists, HeapPages, RegularPage, Pages, Holds, Keeps;
    forall g ensures g in v.flat <==> g in Pages(w) { PageAccounted(v, next, w, g); }
    forall g ensures g in w.memory.Keys <==> RegularPage(v, g) { MemoryIsRegular(v, next, w, g); }
    ClientCount(v, w.memory.Keys);
    HeapCount(v, w);
  }

  lemma HeapCount(v: View, w: World)
    requires ShowsKernel(v, w)
    ensures |w.heap| == |HeapPages(v)|
  {
    hide Holds, Keeps;
    var pages := map p | p in w.heap :: Page(KERNEL, p);
    InjectionSize(pages, HeapPages(v));
    forall g | g in HeapPages(v) ensures exists p :: p in pages && pages[p] == g {
      assert g == Page(KERNEL, g.v) && g.v in w.heap && pages[g.v] == g;
    }
    OntoSize(pages, HeapPages(v));
    assert pages.Keys == w.heap.Keys;
  }

  lemma MemoryIsRegular(v: View, next: nat, w: World, g: Page)
    requires Core(v) && Lists(v) && Shows(v, next, w)
    ensures g in w.memory <==> RegularPage(v, g)
  {
    hide Core, Lists, HeapPages, RegularPage, Holds, Keeps;
    RegularIff(v, g);
  }

  lemma PageAccounted(v: View, next: nat, w: World, g: Page)
    requires Core(v) && Lists(v) && Shows(v, next, w)
    ensures g in v.flat <==> g in Pages(w)
  {
    hide Homes, Shared, Flagged, SpaceOk, Counted, Holds, Keeps;
    assert g == Page(g.sp, g.v);
    if g in Pages(w) && g !in w.memory { KernelEverywhere(v, g.sp, g.v); }
  }

  /** Private pages, each with a frame of its own, are the regular ones and those of the kernel's heap. */
  lemma ClientCount(v: View, regular: set<Page>)
    requires Core(v) && forall g :: g in regular <==> RegularPage(v, g)
    ensures |v.client| == |regular| + |HeapPages(v)|
  {
    hide Shared, Flagged, FrameOf, Covers;
    var private := regular + HeapPages(v);
    assert regular * HeapPages(v) == {};
    forall f | f in v.home ensures v.home[f] in private { assert Private(v, v.home[f]); }
    InjectionSize(v.home, private);
    forall g | g in private ensures exists f :: f in v.home && v.home[f] == g {
      assert Private(v, g);
      assert v.home[FrameOf(v.flat[g])] == g;
    }
    OntoSize(v.home, private);
  }

  // ---------- each step ----------

  /** The kernel's own pages, their frames and their owners are as before. */
  ghost predicate KernelSame(v0: View, v1: View)
  {
    forall g: Page :: g.sp == KERNEL ==>
      && (g in v1.flat <==> g in v0.flat) && (g in v1.owner <==> g in v0.owner)
      && (g in v0.flat ==> v1.flat[g] == v0.flat[g])
      && (g in v0.owner && v0.owner[g] in v0.vmas ==>
            && v1.owner[g] == v0.owner[g] && v0.owner[g] in v1.vmas
            && v1.vmas[v0.owner[g]].kind == v0.vmas[v0.owner[g]].kind)
  }

  lemma HeapSame(v0: View, v1: View)
    requires Owned(v0) && KernelSame(v0, v1)
    ensures HeapPages(v1) == HeapPages(v0)
  {
    hide Covers;
  }

  /** The kernel's pages are shown as before, as far as the frames of its heap are untouched. */
  lemma KernelShown(v0: View, v1: View, w: World, w1: World, c: set<nat>)
    requires Core(v0) && ShowsKernel(v0, w) && KernelSame(v0, v1) && SameOn(v0.mem, v1.mem, c)
    requires forall g :: g in HeapPages(v0) ==> g in v0.flat && FrameOf(v0.flat[g]) in c
    requires w1.fixed == w.fixed && w1.heap == w.heap
    ensures ShowsKernel(v1, w1)
  {
    hide Core, FrameOf, HeapPages;
    HeapSame(v0, v1) by { OwnedOf(v0); }
    forall p | p in w.fixed ensures Page(KERNEL, p) in v1.flat { assert Page(KERNEL, p).sp == KERNEL; }
    forall p | p in w.heap ensures Page(KERNEL, p) in v1.flat && Holds(v1, Page(KERNEL, p), w.heap[p]) {
      assert Page(KERNEL, p).sp == KERNEL;
    }
  }

  lemma HeapInClient(v: View)
    requires Core(v)
    ensures forall g :: g in HeapPages(v) ==> g in v.flat && FrameOf(v.flat[g]) in v.client
  {
    hide FrameOf, Covers, Shared, Flagged;
    forall g | g in HeapPages(v) ensures g in v.flat && FrameOf(v.flat[g]) in v.client { assert Private(v, g); }
  }

  /** A regular page that keeps its entry keeps its bytes, as far as the frames in c are untouched. */
  lemma BytesKept(v0: View, v1: View, g: Page, f: Cell, c: set<nat>)
    requires Core(v0) && RegularPage(v0, g) && Keeps(v0, g, f)
    requires g in v1.flat && v1.flat[g] == v0.flat[g] && SameOn(v0.mem, v1.mem, c) && FrameOf(v0.flat[g]) in c
    ensures Keeps(v1, g, f)
  {
    hide FrameOf, Owned, Homes, Shared, Flagged;
  }

  lemma RegularInClient(v: View, g: Page)
    requires Core(v) && RegularPage(v, g)
    ensures FrameOf(v.flat[g]) in v.client
  {
    hide FrameOf, Covers;
    assert Private(v, g);
  }

  /** A step that only adds: old pages keep entries and bytes, the kernel's stay, and new ones hold what is said. */
  lemma ShowsMore(v0: View, v1: View, next: nat, w: World, next1: nat, w1: World)
    requires Core(v0) && Lists(v0) && Shows(v0, next, w) && KernelSame(v0, v1) && SameOn(v0.mem, v1.mem, v0.client)
    requires forall g :: g in v0.flat ==> g in v1.flat && v1.flat[g] == v0.flat[g]
    requires w1.spaces == v1.areas.Keys && w1.next == next1 && w1.fixed == w.fixed && w1.heap == w.heap
    requires forall g :: g in w1.memory <==> g in v1.flat && g.v !in Kernel(w1)
    requires forall g :: g in w.memory ==> g in w1.memory && w1.memory[g] == w.memory[g]
    requires forall g :: g in w1.memory && g !in w.memory ==> Keeps(v1, g, w1.memory[g])
    ensures Shows(v1, next1, w1)
  {
    hide Core, Lists, HeapPages, RegularPage, Holds, Keeps, SameOn, ShowsKernel;
    HeapInClient(v0);
    KernelShown(v0, v1, w, w1, v0.client);
    forall p ensures p in Kernel(w1) <==> Page(KERNEL, p) in v1.flat {
      assert Page(KERNEL, p).sp == KERNEL;
    }
    forall g | g in w1.memory ensures Keeps(v1, g, w1.memory[g]) {
      if g in w.memory {
        MemoryIsRegular(v0, next, w, g);
        RegularInClient(v0, g);
        BytesKept(v0, v1, g, w.memory[g], v0.client);
      }
    }
  }

  lemma OwnedOf(v: View)
    requires Core(v)
    ensures Owned(v) && v.owner.Keys == v.flat.Keys
  {
  }

  lemma MapKernel(v0: View, v1: View, s: nat, a: nat, first: nat, n: nat)
    requires Owned(v0) && Owned(v1) && s != KERNEL && Grown(v0, v1, s, a, first, n)
    requires v0.vmas.Keys <= v1.vmas.Keys && (forall b :: b in v0.vmas ==> v1.vmas[b] == v0.vmas[b])
    ensures KernelSame(v0, v1) && forall g :: g in v0.flat ==> g in v1.flat && v1.flat[g] == v0.flat[g]
  {
    hide Covers;
  }

  /** A new range lies apart from the kernel's pages. */
  lemma MapMemory(w: World, op: Op, flat: set<Page>, g: Page)
    requires op.Map? && Legal(w, op) && flat == Pages(w)
    requires forall h :: h in w.memory <==> h in flat && h.v !in Kernel(w)
    ensures g in Next(w, op).memory <==> g in flat + Stretch(op.sp, PageNo(op.start), op.pages) && g.v !in Kernel(w)
  {
    hide PageNo, VmaOk, ZeroFrame;
  }

  lemma FreshHolds(v0: View, v1: View, a: nat, op: Op, g: Page)
    requires FreshPages(v0, v1) && g in v1.flat && g !in v0.flat && op.Map? && Core(v1)
    requires v0.owner.Keys == v0.flat.Keys && Grown(v0, v1, op.sp, a, PageNo(op.start), op.pages)
    requires a in v1.vmas && v1.vmas[a] == Vma(1, Reg, op.start, op.pages, op.user, op.prot)
    ensures Keeps(v1, g, Cell(ZeroFrame(), Bit(op.prot, 1), op.user))
  {
    hide FrameOf, ZeroFrame, Core, Bit, PageNo;
    EntryOfArea(v1, g);
  }

  lemma MapShows(v0: View, v1: View, next: nat, w: World, a: nat, op: Op)
    requires Core(v0) && Lists(v0) && Core(v1) && Shows(v0, next, w) && op.Map? && Legal(w, op)
    requires v0.vmas.Keys <= v1.vmas.Keys && (forall b :: b in v0.vmas ==> v1.vmas[b] == v0.vmas[b])
    requires v1.areas.Keys == v0.areas.Keys && Grown(v0, v1, op.sp, a, PageNo(op.start), op.pages)
    requires a in v1.vmas && v1.vmas[a] == Vma(1, Reg, op.start, op.pages, op.user, op.prot)
    requires v1.flat.Keys == v0.flat.Keys + Stretch(op.sp, PageNo(op.start), op.pages)
    requires FreshPages(v0, v1) && Isolated(v0, v1, op.sp)
    ensures Shows(v1, next, Next(w, op))
  {
    hide Core, Lists, PageNo, Grown, FreshPages, OnlySpace, HomesKept;
    hide ZeroFrame, HeapPages, Holds, Keeps, Pages, SameOn, Stretch, ShowsKernel, Kernel, VmaOk;
    var w1 := Next(w, op);
    SameKernel(w, w1);
    Accounts(v0, next, w);
    OwnedOf(v0);
    OwnedOf(v1);
    MapKernel(v0, v1, op.sp, a, PageNo(op.start), op.pages);
    forall g ensures g in w1.memory <==> g in v1.flat && g.v !in Kernel(w1) {
      MapMemory(w, op, v0.flat.Keys, g);
    }
    forall g | g in w1.memory && g !in w.memory ensures Keeps(v1, g, w1.memory[g]) {
      FreshHolds(v0, v1, a, op, g);
    }
    ShowsMore(v0, v1, next, w, next, w1);
  }

  lemma NewKernel(v0: View, v1: View, m: nat)
    requires Owned(v0) && Owned(v1) && m != KERNEL && KERNEL in v0.areas
    requires Bumped(v0.vmas, v1.vmas, v0.areas[KERNEL], |v0.areas[KERNEL]|)
    requires KernelMapped(v0, v1, m, v0.areas[KERNEL], |v0.areas[KERNEL]|)
    ensures KernelSame(v0, v1) && forall g :: g in v0.flat ==> g in v1.flat && v1.flat[g] == v0.flat[g]
  {
    hide Covers;
  }

  lemma NewShows(v0: View, v1: View, m: nat, w: World)
    requires Core(v0) && Lists(v0) && Core(v1) && Shows(v0, m, w) && m !in v0.areas
    requires v1.areas.Keys == v0.areas.Keys + {m} && Bumped(v0.vmas, v1.vmas, v0.areas[KERNEL], |v0.areas[KERNEL]|)
    requires KernelMapped(v0, v1, m, v0.areas[KERNEL], |v0.areas[KERNEL]|)
    requires v1.flat.Keys == v0.flat.Keys + Renamed(v0.flat.Keys, KERNEL, m) && Isolated(v0, v1, m)
    ensures Shows(v1, m + 1, Next(w, New))
  {
    hide Core, SpaceOk, Counted, Bumped, KernelMapped, OnlySpace, HomesKept, HeapPages, Holds, Keeps, SameOn;
    OwnedOf(v0);
    OwnedOf(v1);
    NewKernel(v0, v1, m);
    ShowsMore(v0, v1, m, w, m + 1, Next(w, New));
  }

  lemma DupeKernel(v0: View, v1: View, m: nat, n: nat)
    requires Owned(v0) && Owned(v1) && n != KERNEL && m in v0.areas && Forked(v0, v1, m, n, v0.areas[m], |v0.areas[m]|)
    ensures KernelSame(v0, v1) && forall g :: g in v0.flat ==> g in v1.flat && v1.flat[g] == v0.flat[g]
  {
    hide Covers, Twin;
  }

  lemma DupeShows(v0: View, v1: View, m: nat, n: nat, w: World)
    requires Core(v0) && Lists(v0) && Core(v1) && Shows(v0, n, w) && m in v0.areas && n !in v0.areas
    requires v1.areas.Keys == v0.areas.Keys + {n} && Forked(v0, v1, m, n, v0.areas[m], |v0.areas[m]|)
    requires v1.flat.Keys == v0.flat.Keys + Renamed(v0.flat.Keys, m, n) && Isolated(v0, v1, n)
    ensures Shows(v1, n + 1, Next(w, Dupe(m)))
  {
    hide Core, SpaceOk, Counted, Forked, OnlySpace, HomesKept, HeapPages, Holds, Keeps, SameOn, Renamed;
    var w1 := Next(w, Dupe(m));
    OwnedOf(v0);
    OwnedOf(v1);
    DupeKernel(v0, v1, m, n);
    forall g ensures g in w1.memory <==> g in v1.flat && g.v !in Kernel(w1) {
      RenamedMemory(v0, n, w, m, g);
    }
    forall g | g in w1.memory && g !in w.memory ensures Keeps(v1, g, w1.memory[g]) {
      RenamedMemory(v0, n, w, m, g);
      TwinHolds(v0, v1, m, n, w, g.v);
    }
    ShowsMore(v0, v1, n, w, n + 1, w1);
  }

  lemma RenamedMemory(v: View, next: nat, w: World, m: nat, g: Page)
    requires Shows(v, next, w)
    ensures g in Renamed(w.memory.Keys, m, next) <==> g in Renamed(v.flat.Keys, m, next) && g.v !in Kernel(w)
    ensures g in Renamed(w.memory.Keys, m, next) ==> Page(m, g.v) in w.memory && g == Page(next, g.v)
  {
    hide HeapPages, Holds, Keeps;
  }

  /** A page of the duplicate has the bytes of the page it duplicates. */
  lemma TwinHolds(v0: View, v1: View, m: nat, n: nat, w: World, p: nat)
    requires Core(v0) && Lists(v0) && Shows(v0, n, w) && m in v0.areas && Page(m, p) in w.memory
    requires Forked(v0, v1, m, n, v0.areas[m], |v0.areas[m]|) && Page(n, p) in v1.flat
    ensures Keeps(v1, Page(n, p), w.memory[Page(m, p)])
  {
    hide Homes, Shared, Bit, SpaceOk, Counted, FrameOf, HeapPages, Covers, EntryFor, RegularAt;
    MemoryIsRegular(v0, n, w, Page(m, p));
    assert Twin(v0, v1, m, n, p);
    SameFlags(v0.flat[Page(m, p)], v1.flat[Page(n, p)], v0.vmas[v0.owner[Page(m, p)]]);
  }

  lemma SameFlags(e: nat, f: nat, a: Vma)
    requires EntryFor(e, a) && EntryFor(f, a)
    ensures (Bit(e, 1) <==> Bit(f, 1)) && (Bit(e, 2) <==> Bit(f, 2))
  {
    hide Bit, Flags;
    var flags := Flags(a.prot, a.user);
    DivUnique(e, PAGE_SIZE, FrameOf(e), flags);
    DivUnique(f, PAGE_SIZE, FrameOf(f), flags);
    FlagOf(e, flags, 1);
    FlagOf(e, flags, 2);
    FlagOf(f, flags, 1);
    FlagOf(f, flags, 2);
  }

  lemma FreeKernel(v0: View, v1: View, m: nat)
    requires Owned(v0) && Owned(v1) && m != KERNEL && SameOwners(v0, v1)
    requires forall g :: g in v1.flat <==> g in v0.flat && g.sp != m
    requires forall g :: g in v1.flat ==> v1.flat[g] == v0.flat[g]
    ensures KernelSame(v0, v1)
  {
    hide Covers;
  }

  lemma FreeShows(v0: View, v1: View, m: nat, next: nat, w: World)
    requires Core(v0) && Lists(v0) && Core(v1) && Lists(v1) && Shows(v0, next, w) && Legal(w, Free(m))
    requires v1.areas == v0.areas - {m} && Withdrawn(v0, v1, m) && SameOwners(v0, v1)
    requires forall g :: g in v1.flat <==> g in v0.flat && g.sp != m
    requires forall g :: g in v1.flat ==> v1.flat[g] == v0.flat[g]
    ensures Shows(v1, next, Next(w, Free(m)))
  {
    hide Core, Lists, Owned, Withdrawn, SameOwners, KernelSame, Holds, Keeps, SameOn, ShowsKernel, Kernel;
    var w1 := Next(w, Free(m));
    FreeKernel(v0, v1, m) by { OwnedOf(v0); OwnedOf(v1); }
    WithdrawnSame(v0, v1, m);
    SameKernel(w, w1);
    FreeKernelShown(v0, v1, w, w1);
    forall g | g in w1.memory ensures Keeps(v1, g, w1.memory[g]) { StaysInMemory(v0, v1, next, w, g); }
  }

  lemma StaysInMemory(v0: View, v1: View, next: nat, w: World, g: Page)
    requires Core(v0) && Lists(v0) && Core(v1) && Shows(v0, next, w) && SameOwners(v0, v1) && g in w.memory
    requires g in v1.flat && g in v0.flat && v1.flat[g] == v0.flat[g] && SameOn(v0.mem, v1.mem, v1.client)
    ensures Keeps(v1, g, w.memory[g])
  {
    hide Core, Lists, SameOwners, Holds, Keeps, SameOn, RegularPage, ShowsKernel, Kernel;
    MemoryIsRegular(v0, next, w, g);
    StillHolds(v0, v1, g, w.memory[g]);
  }

  lemma SameKernel(w: World, w1: World)
    requires w1.fixed == w.fixed && w1.heap == w.heap
    ensures Kernel(w1) == Kernel(w)
  {
  }

  lemma FreeKernelShown(v0: View, v1: View, w: World, w1: World)
    requires Core(v0) && Core(v1) && ShowsKernel(v0, w) && KernelSame(v0, v1) && SameOn(v0.mem, v1.mem, v1.client)
    requires w1.fixed == w.fixed && w1.heap == w.heap && forall p :: p in Kernel(w) <==> Page(KERNEL, p) in v0.flat
    ensures ShowsKernel(v1, w1) && forall p :: p in Kernel(w1) <==> Page(KERNEL, p) in v1.flat
  {
    hide Core, HeapPages, ShowsKernel, SameOn, FrameOf;
    HeapStays(v0, v1);
    KernelShown(v0, v1, w, w1, v1.client);
    forall p ensures p in Kernel(w1) <==> Page(KERNEL, p) in v1.flat {
      assert Page(KERNEL, p).sp == KERNEL;
    }
  }

  lemma HeapStays(v0: View, v1: View)
    requires Core(v0) && Core(v1) && KernelSame(v0, v1)
    ensures forall g :: g in HeapPages(v0) ==> g in v0.flat && FrameOf(v0.flat[g]) in v1.client
  {
    hide Core, FrameOf;
    HeapSame(v0, v1) by { OwnedOf(v0); }
    HeapInClient(v0);
    HeapInClient(v1);
  }

  lemma WithdrawnSame(v0: View, v1: View, m: nat)
    requires Withdrawn(v0, v1, m)
    ensures SameOn(v0.mem, v1.mem, v1.client)
  {
  }

  /** A page that stays is regular still, and its frame is one of those left. */
  lemma StillHolds(v0: View, v1: View, g: Page, f: Cell)
    requires Core(v0) && Core(v1) && RegularPage(v0, g) && Keeps(v0, g, f) && SameOwners(v0, v1)
    requires g in v1.flat && v1.flat[g] == v0.flat[g] && SameOn(v0.mem, v1.mem, v1.client)
    ensures Keeps(v1, g, f)
  {
    hide Core, Holds, Keeps, SameOn;
    RegularInClient(v1, g);
    BytesKept(v0, v1, g, f, v1.client);
  }

  /** A store reaches one page: no other regular page has its frame. */
  lemma PutShows(v0: View, v1: View, next: nat, w: World, g: Page, s: nat, virt: nat, b: byte)
    requires g in v0.flat && FrameOf(v0.flat[g]) < |v0.mem| && g == Page(s, PageNo(virt)) && g in w.memory
    requires v1 == v0.(mem := v0.mem[FrameOf(v0.flat[g]) := v0.mem[FrameOf(v0.flat[g])][virt % PAGE_SIZE := b]])
    requires Core(v0) && Lists(v0) && Shows(v0, next, w)
    ensures Shows(v1, next, Next(w, Put(s, virt, b)))
  {
    hide Core, Lists, FrameOf, PageNo, RegularPage, HeapPages, ShowsKernel;
    var w1 := Next(w, Put(s, virt, b));
    MemoryIsRegular(v0, next, w, g);
    PutKernel(v0, v1, w, w1, g);
    forall h | h in w1.memory ensures Keeps(v1, h, w1.memory[h]) {
      if h != g {
        MemoryIsRegular(v0, next, w, h);
        FramesDiffer(v0, g, h);
      }
    }
  }

  lemma FramesDiffer(v: View, g: Page, h: Page)
    requires Core(v) && RegularPage(v, g) && (RegularPage(v, h) || h in HeapPages(v)) && g != h
    ensures FrameOf(v.flat[g]) != FrameOf(v.flat[h])
  {
    hide FrameOf, Covers, Shared, Flagged;
    assert Private(v, g) && Private(v, h);
  }

  /** Nor has a page of the kernel's heap. */
  lemma PutKernel(v0: View, v1: View, w: World, w1: World, g: Page)
    requires Core(v0) && ShowsKernel(v0, w) && RegularPage(v0, g) && g in v0.flat && FrameOf(v0.flat[g]) < |v0.mem|
    requires v1 == v0.(mem := v1.mem) && |v1.mem| == |v0.mem|
    requires forall f :: 0 <= f < |v0.mem| && f != FrameOf(v0.flat[g]) ==> v1.mem[f] == v0.mem[f]
    requires w1.fixed == w.fixed && w1.heap == w.heap
    ensures ShowsKernel(v1, w1)
  {
    hide Core, FrameOf;
    var c := v0.client - {FrameOf(v0.flat[g])};
    HeapInClient(v0);
    forall h | h in HeapPages(v0) ensures h in v0.flat && FrameOf(v0.flat[h]) in c {
      RegularIsNotHeap(v0, g);
      FramesDiffer(v0, g, h);
    }
    KernelShown(v0, v1, w, w1, c);
  }

  lemma RegularIsNotHeap(v: View, g: Page)
    requires RegularPage(v, g)
    ensures g !in HeapPages(v)
  {
  }

  // ---------- counting ----------

  lemma RenamedSize(pages: set<Page>, m: nat, n: nat)
    ensures |Renamed(pages, m, n)| == |set g | g in pages && g.sp == m|
  {
    var own := set g | g in pages && g.sp == m;
    var names := map g | g in own :: Page(n, g.v);
    forall g, h | g in names && h in names && names[g] == names[h] ensures g == h {
      assert g == Page(m, g.v) && h == Page(m, h.v);
    }
    InjectionSize(names, Renamed(pages, m, n));
    forall c | c in Renamed(pages, m, n) ensures exists g :: g in names && names[g] == c {
      var g :| g in pages && g.sp == m && c == Page(n, g.v);
      assert g in names;
    }
    OntoSize(names, Renamed(pages, m, n));
    assert names.Keys == own;
  }

  lemma DisjointSize(a: map<Page, Cell>, b: map<Page, Cell>, more: set<Page>)
    requires b.Keys == a.Keys + more && a.Keys !! more
    ensures |b| == |a| + |more|
  {
    assert |b.Keys| == |a.Keys| + |more|;
  }

  lemma MapKeys(w: World, op: Op)
    requires op.Map? && Legal(w, op)
    ensures Next(w, op).memory.Keys == w.memory.Keys + Stretch(op.sp, PageNo(op.start), op.pages)
    ensures w.memory.Keys !! Stretch(op.sp, PageNo(op.start), op.pages)
    ensures Next(w, op) == w.(memory := Next(w, op).memory)
  {
    hide PageNo, VmaOk, ZeroFrame, Stretch;
  }

  lemma PagesGrow(w: World, w1: World, more: set<Page>)
    requires w1 == w.(memory := w1.memory) && w1.memory.Keys == w.memory.Keys + more
    ensures Pages(w1) == Pages(w) + more
  {
  }

  /** A new range adds as many pages as it has. */
  lemma MapCount(w: World, op: Op)
    requires op.Map? && Legal(w, op)
    ensures |Next(w, op).memory| == |w.memory| + op.pages && Next(w, op).heap == w.heap
    ensures Pages(Next(w, op)) == Pages(w) + Stretch(op.sp, PageNo(op.start), op.pages)
  {
    hide PageNo, Legal, Next, Pages, Stretch;
    MapKeys(w, op);
    StretchSize(op.sp, PageNo(op.start), op.pages);
    DisjointSize(w.memory, Next(w, op).memory, Stretch(op.sp, PageNo(op.start), op.pages));
    PagesGrow(w, Next(w, op), Stretch(op.sp, PageNo(op.start), op.pages));
  }

  lemma DupeKeys(w: World, m: nat)
    requires Legal(w, Dupe(m))
    ensures Next(w, Dupe(m)).memory.Keys == w.memory.Keys + Renamed(w.memory.Keys, m, w.next)
    ensures Next(w, Dupe(m)).heap == w.heap
  {
    hide Renamed;
  }

  /** The regular pages of a space are those of the world. */
  lemma RegularOf(v: View, w: World, m: nat)
    requires Core(v) && Lists(v) && Shows(v, w.next, w)
    ensures RegularPages(v, m) == set g | g in w.memory.Keys && g.sp == m
  {
    hide Core, Lists, Shows, RegularPage;
    forall g ensures g in RegularPages(v, m) <==> g in w.memory.Keys && g.sp == m {
      MemoryIsRegular(v, w.next, w, g);
      RegularOwned(v, g);
    }
  }

  lemma RegularOwned(v: View, g: Page)
    ensures RegularPage(v, g) ==> g in v.owner
  {
  }

  /** A duplicate adds as many pages as its source has. */
  lemma DupeCount(v: View, w: World, m: nat)
    requires Core(v) && Lists(v) && Shows(v, w.next, w) && m in v.areas && forall s :: s in v.areas ==> s < w.next
    requires Legal(w, Dupe(m)) && v.flat.Keys == Pages(w)
    ensures |Next(w, Dupe(m)).memory| == |w.memory| + |RegularPages(v, m)| && Next(w, Dupe(m)).heap == w.heap
    ensures Pages(Next(w, Dupe(m))) == v.flat.Keys + Renamed(v.flat.Keys, m, w.next)
  {
    hide Core, Lists, Shows, Legal, Next, Pages, RegularPages, Renamed;
    var w1 := Next(w, Dupe(m));
    var copies := Renamed(w.memory.Keys, m, w.next);
    DupeKeys(w, m);
    RegularOf(v, w, m);
    RenamedSize(w.memory.Keys, m, w.next);
    forall g | g in w.memory.Keys ensures g !in copies {
      SpaceOfPage(v, w, g);
      CopiesAre(w.memory.Keys, m, w.next, g);
    }
    DisjointSize(w.memory, w1.memory, copies);
    forall g ensures g in Pages(w1) <==> g in v.flat.Keys + Renamed(v.flat.Keys, m, w.next) {
      DupePage(v, w, m, g);
    }
  }

  lemma CopiesAre(pages: set<Page>, m: nat, n: nat, g: Page)
    ensures g in Renamed(pages, m, n) ==> g.sp == n
  {
  }

  lemma SpaceOfPage(v: View, w: World, g: Page)
    requires Core(v) && Shows(v, w.next, w) && g in w.memory && forall s :: s in v.areas ==> s < w.next
    ensures g.sp < w.next
  {
    hide Homes, Shared, Flagged, HeapPages, Holds, Keeps, Covers;
  }

  lemma DupePage(v: View, w: World, m: nat, g: Page)
    requires Core(v) && Lists(v) && Shows(v, w.next, w) && m in v.areas && v.flat.Keys == Pages(w)
    ensures g in Pages(Next(w, Dupe(m))) <==> g in v.flat.Keys + Renamed(v.flat.Keys, m, w.next)
  {
    hide Core, Lists, ShowsKernel, Holds, Keeps, Kernel;
    SameKernel(w, Next(w, Dupe(m)));
    RenamedMemory(v, w.next, w, m, g);
    assert g == Page(g.sp, g.v);
    if g.sp == w.next && g.v in Kernel(w) { KernelEverywhere(v, m, g.v); }
  }

  lemma NewCount(v: View, w: World)
    requires Core(v) && Lists(v) && Shows(v, w.next, w) && v.flat.Keys == Pages(w)
    ensures Next(w, New).memory == w.memory && Next(w, New).heap == w.heap
    ensures Pages(Next(w, New)) == v.flat.Keys + Renamed(v.flat.Keys, KERNEL, w.next)
  {
    hide Core, Lists, HeapPages, Holds, Keeps, Pages, Renamed;
    forall g ensures g in Pages(Next(w, New)) <==> g in v.flat.Keys + Renamed(v.flat.Keys, KERNEL, w.next) {
      NewPage(v, w, g);
    }
  }

  lemma NewPage(v: View, w: World, g: Page)
    requires Shows(v, w.next, w) && v.flat.Keys == Pages(w)
    ensures g in Pages(Next(w, New)) <==> g in v.flat.Keys + Renamed(v.flat.Keys, KERNEL, w.next)
  {
    hide ShowsKernel, Holds, Keeps, Kernel;
    SameKernel(w, Next(w, New));
    assert g == Page(g.sp, g.v);
    assert g in Renamed(v.flat.Keys, KERNEL, w.next) <==> g.sp == w.next && Page(KERNEL, g.v) in v.flat;
  }

  lemma WorldFacts(v: View, next: nat, w: World)
    requires Shows(v, next, w) && Lists(v)
    ensures w.spaces == v.areas.Keys && |w.spaces| == |v.areas| && w.next == next && KERNEL in w.spaces
  {
    hide SpaceOk, Counted, HeapPages, Holds, Keeps;
    assert |v.areas.Keys| == |v.areas|;
  }

  lemma MapFree(w: World, op: Op)
    requires op.Map? && Legal(w, op)
    ensures forall p: nat :: Covers(Vma(1, Reg, op.start, op.pages, op.user, op.prot), p) ==>
      Page(op.sp, p) !in Pages(w)
  {
    hide PageNo, Pages, VmaOk;
    forall p: nat | Covers(Vma(1, Reg, op.start, op.pages, op.user, op.prot), p) ensures Page(op.sp, p) !in Pages(w) {
      assert Page(op.sp, p) in Stretch(op.sp, PageNo(op.start), op.pages);
    }
  }

  // ---------- runs ----------

  /** A store by a program: a walk, then the frame. */
  method StoreByte(sp: AddressSpaces, s: nat, virt: nat, b: byte, ghost w: World)
    requires sp.Valid() && Shows(sp.V(), sp.nextSpace, w) && Legal(w, Put(s, virt, b))
    modifies sp.mapper.pmm.ram
    ensures sp.Valid() && Shows(sp.V(), sp.nextSpace, Next(w, Put(s, virt, b)))
  {
    hide Mapper.Valid, Mapper.Client, Mapper.Within, PhysMapped, Reaches, TableNodes;
    hide Core, Lists, Shows, Next, PageNo, FrameOf, Holds, Keeps;
    ghost var v0 := sp.V();
    StoreFacts(v0, sp.nextSpace, w, Page(s, PageNo(virt)));
    var e := sp.mapper.LeafEntry(s, virt);
    var f := sp.mapper.pmm.ram[FrameOf(e)];
    sp.mapper.WriteData(FrameOf(e), f[virt % PAGE_SIZE := b]);
    PutShows(v0, sp.V(), sp.nextSpace, w, Page(s, PageNo(virt)), s, virt, b);
    ValidAfterWrite(v0, sp.V());
  }

  lemma StoreFacts(v: View, next: nat, w: World, g: Page)
    requires Core(v) && Lists(v) && Shows(v, next, w) && g in w.memory
    ensures g in v.flat && g.sp in v.areas && FrameOf(v.flat[g]) in v.client && FrameOf(v.flat[g]) < |v.mem|
  {
    hide Homes, Shared, Flagged, Lists, HeapPages, FrameOf, Covers, RegularPage;
    MemoryIsRegular(v, next, w, g);
    RegularInClient(v, g);
  }

  /** Memory that holds the next world has room for what the step takes. */
  lemma RoomFor(sp: AddressSpaces, w: World, w1: World, data: nat, pages: set<Page>)
    requires |sp.mapper.Client()| == |w.heap| + |w.memory| && w1.heap == w.heap && |w1.memory| == |w.memory| + data
    requires Pages(w1) == pages && InUse(w1) <= |sp.mapper.Within()|
    ensures sp.mapper.Room(data, pages)
  {
    hide Pages, TableNodes, Mapper.Client, Mapper.Within;
  }

  method PerformNew(sp: AddressSpaces, ghost w: World)
    requires sp.Valid() && Shows(sp.V(), sp.nextSpace, w) && Legal(w, New) && Reaches(w, sp.mapper.limit)
    requires InUse(Next(w, New)) <= |sp.mapper.Within()|
    modifies sp, sp.mapper, sp.mapper.pmm, sp.mapper.pmm.ram
    ensures sp.Valid() && Shows(sp.V(), sp.nextSpace, Next(w, New))
  {
    hide Mapper.Valid, Mapper.Client, Mapper.Room, Mapper.Within, PhysMapped, Reaches, InUse, RegularPages;
    hide Core, SpaceOk, Counted, Shows, Legal, Next, Pages, Forked, KernelMapped, Bumped, Reversed, Grown, FreshPages;
    hide Isolated, Withdrawn, Foreign, SameOwners, VmaOk, PageNo, FrameOf, Covers;
    ghost var v0 := sp.V();
    Accounts(v0, sp.nextSpace, w);
    WorldFacts(v0, sp.nextSpace, w);
    ReachesCovers(v0, sp.nextSpace, w, sp.mapper.limit);
    NewCount(v0, w);
    RoomFor(sp, w, Next(w, New), 0, v0.flat.Keys + Renamed(v0.flat.Keys, KERNEL, w.next));
    var m := sp.MmNew();
    NewShows(v0, sp.V(), m, w);
  }

  method PerformMap(sp: AddressSpaces, op: Op, ghost w: World)
    requires op.Map?
    requires sp.Valid() && Shows(sp.V(), sp.nextSpace, w) && Legal(w, op) && Reaches(w, sp.mapper.limit)
    requires InUse(Next(w, op)) <= |sp.mapper.Within()|
    modifies sp, sp.mapper, sp.mapper.pmm, sp.mapper.pmm.ram
    ensures sp.Valid() && Shows(sp.V(), sp.nextSpace, Next(w, op))
  {
    hide Mapper.Valid, Mapper.Client, Mapper.Room, Mapper.Within, PhysMapped, Reaches, InUse, RegularPages;
    hide Core, SpaceOk, Counted, Shows, Legal, Next, Pages, Forked, KernelMapped, Bumped, Reversed, Grown, FreshPages;
    hide Isolated, Withdrawn, Foreign, SameOwners, VmaOk, PageNo, FrameOf, Covers;
    ghost var v0 := sp.V();
    Accounts(v0, sp.nextSpace, w);
    WorldFacts(v0, sp.nextSpace, w);
    ReachesCovers(v0, sp.nextSpace, w, sp.mapper.limit);
    MapCount(w, op);
    MapFree(w, op);
    MapLegal(w, op);
    RoomFor(sp, w, Next(w, op), op.pages, v0.flat.Keys + Stretch(op.sp, PageNo(op.start), op.pages));
    ghost var a := sp.AnonMmap(op.sp, op.start, op.pages, op.prot, op.user);
    MapShows(v0, sp.V(), sp.nextSpace, w, a, op);
  }

  lemma MapLegal(w: World, op: Op)
    requires op.Map? && Legal(w, op)
    ensures op.sp in w.spaces && op.sp != KERNEL && VmaOk(Vma(1, Reg, op.start, op.pages, op.user, op.prot))
  {
  }

  method PerformDupe(sp: AddressSpaces, m: nat, ghost w: World)
    requires sp.Valid() && Shows(sp.V(), sp.nextSpace, w) && Legal(w, Dupe(m)) && Reaches(w, sp.mapper.limit)
    requires InUse(Next(w, Dupe(m))) <= |sp.mapper.Within()|
    modifies sp, sp.mapper, sp.mapper.pmm, sp.mapper.pmm.ram
    ensures sp.Valid() && Shows(sp.V(), sp.nextSpace, Next(w, Dupe(m)))
  {
    hide Mapper.Valid, Mapper.Client, Mapper.Room, Mapper.Within, PhysMapped, Reaches, InUse, RegularPages;
    hide Core, SpaceOk, Counted, Shows, Legal, Next, Pages, Forked, KernelMapped, Bumped, Reversed, Grown, FreshPages;
    hide Isolated, Withdrawn, Foreign, SameOwners, VmaOk, PageNo, FrameOf, Covers;
    ghost var v0 := sp.V();
    Accounts(v0, sp.nextSpace, w);
    WorldFacts(v0, sp.nextSpace, w);
    ReachesCovers(v0, sp.nextSpace, w, sp.mapper.limit);
    assert m in sp.areas by { DupeLegal(w, m); }
    DupeCount(v0, w, m);
    RoomFor(sp, w, Next(w, Dupe(m)), |RegularPages(v0, m)|, v0.flat.Keys + Renamed(v0.flat.Keys, m, w.next));
    var n := sp.MmDupe(m);
    DupeShows(v0, sp.V(), m, n, w);
  }

  lemma DupeLegal(w: World, m: nat)
    requires Legal(w, Dupe(m))
    ensures m in w.spaces
  {
  }

  method PerformFree(sp: AddressSpaces, m: nat, ghost w: World)
    requires sp.Valid() && Shows(sp.V(), sp.nextSpace, w) && Legal(w, Free(m)) && Reaches(w, sp.mapper.limit)
    modifies sp, sp.mapper, sp.mapper.pmm, sp.mapper.pmm.ram
    ensures sp.Valid() && Shows(sp.V(), sp.nextSpace, Next(w, Free(m)))
  {
    hide Mapper.Valid, Mapper.Client, Mapper.Room, Mapper.Within, PhysMapped, Reaches, InUse, RegularPages;
    hide Core, SpaceOk, Counted, Shows, Next, Pages, Forked, KernelMapped, Bumped, Reversed, Grown, FreshPages;
    hide Isolated, Withdrawn, Foreign, SameOwners, VmaOk, PageNo, FrameOf, Covers;
    ghost var v0 := sp.V();
    Accounts(v0, sp.nextSpace, w);
    WorldFacts(v0, sp.nextSpace, w);
    ReachesCovers(v0, sp.nextSpace, w, sp.mapper.limit);
    var _ := sp.MmFree(m);
    FreeShows(v0, sp.V(), m, sp.nextSpace, w);
  }

  /** One operation. */
  method Perform(sp: AddressSpaces, op: Op, ghost w: World)
    requires sp.Valid() && Shows(sp.V(), sp.nextSpace, w) && Legal(w, op) && Reaches(w, sp.mapper.limit)
    requires InUse(Next(w, op)) <= |sp.mapper.Within()|
    modifies sp, sp.mapper, sp.mapper.pmm, sp.mapper.pmm.ram
    ensures sp.Valid() && Shows(sp.V(), sp.nextSpace, Next(w, op))
  {
    hide *;
    match op
    case New => PerformNew(sp, w);
    case Map(_, _, _, _, _) => PerformMap(sp, op, w);
    case Dupe(m) => PerformDupe(sp, m, w);
    case Free(m) => PerformFree(sp, m, w);
    case Put(s, virt, b) => StoreByte(sp, s, virt, b, w);
  }

  /** The world after a run, and what makes a run legal: each step is, and memory suffices at each moment. */
  ghost function After(w: World, ops: seq<Op>): (t: World)
    requires LegalRun(w, ops)
    decreases |ops|
  {
    if ops == [] then w else After(Next(w, ops[0]), ops[1..])
  }

  ghost predicate LegalRun(w: World, ops: seq<Op>)
    decreases |ops|
  {
    ops == [] || (Legal(w, ops[0]) && LegalRun(Next(w, ops[0]), ops[1..]))
  }

  ghost predicate Fits(w: World, ops: seq<Op>, frames: nat)
    requires LegalRun(w, ops)
    decreases |ops|
  {
    ops == [] || (InUse(Next(w, ops[0])) <= frames && Fits(Next(w, ops[0]), ops[1..], frames))
  }

  /** No operation changes the kernel's pages or a byte of its heap. */
  lemma NextKernel(w: World, op: Op)
    requires Legal(w, op)
    ensures Next(w, op).fixed == w.fixed && Next(w, op).heap == w.heap
  {
    hide Legal;
  }

  /** Nor does any run. */
  lemma {:induction false} KernelKept(w: World, ops: seq<Op>)
    requires LegalRun(w, ops)
    ensures After(w, ops).fixed == w.fixed && After(w, ops).heap == w.heap
    decreases |ops|
  {
    hide Legal, Next;
    if ops != [] {
      NextKernel(w, ops[0]);
      KernelKept(Next(w, ops[0]), ops[1..]);
    }
  }

  /**
   * Any run of making, duplicating, mapping, writing and freeing spaces that the memory within reach of
   * the kernel is large enough for at each moment shows exactly the world after it: every byte of every
   * regular page of every space is what that space's own stores made of it, every byte of the kernel's
   * heap is what it was, and the frames in use are those of the pages.
   */
  method RunAll(sp: AddressSpaces, ops: seq<Op>, ghost w: World)
    requires sp.Valid() && Shows(sp.V(), sp.nextSpace, w) && LegalRun(w, ops) && Reaches(w, sp.mapper.limit)
    requires Fits(w, ops, |sp.mapper.Within()|)
    modifies sp, sp.mapper, sp.mapper.pmm, sp.mapper.pmm.ram
    ensures sp.Valid() && Shows(sp.V(), sp.nextSpace, After(w, ops)) && Reaches(After(w, ops), sp.mapper.limit)
    ensures |sp.mapper.pmm.live| == InUse(After(w, ops))
  {
    hide Mapper.Valid, Mapper.Client, Mapper.Within, Core, Lists, Shows, Next, Legal, InUse;
    ghost var now := w;
    for i := 0 to |ops|
      invariant sp.Valid() && Shows(sp.V(), sp.nextSpace, now) && LegalRun(now, ops[i..])
      invariant Fits(now, ops[i..], |sp.mapper.Within()|) && Reaches(now, sp.mapper.limit)
      invariant After(now, ops[i..]) == After(w, ops)
    {
      assert ops[i..][0] == ops[i] && ops[i..][1..] == ops[i + 1..];
      Perform(sp, ops[i], now);
      NextKernel(now, ops[i]);
      now := Next(now, ops[i]);
    }
    FramesInUse(sp, now);
  }

  // ---------- from start-up on ----------

  /** The numbers of an area's pages. */
  ghost function Numbers(a: Vma): (ps: set<nat>)
  {
    Range(FirstPage(a), a.pages)
  }

  ghost function FixedPages(): (fixed: map<nat, nat>)
  {
    map p | p in Numbers(TEXT) + Numbers(PHYS) ::
      if p in Numbers(PHYS) then p - FirstPage(PHYS) else p - FirstPage(TEXT)
  }

  ghost function EmptyHeap(): (heap: map<nat, Frame>)
  {
    map p | p in Numbers(HEAP) :: ZeroFrame()
  }

  /** No space but the kernel's, and a heap of zero bytes. */
  ghost function FirstWorld(): (w: World)
  {
    World({KERNEL}, 1, FixedPages(), EmptyHeap(), map[])
  }

  /** What start-up leaves is the first world. */
  lemma Begins(v: View)
    requires Started(v)
    ensures Shows(v, 1, FirstWorld())
  {
    hide Range, FirstPage, HeapPages, Holds, Keeps, FrameOf, ZeroFrame;
    var w := FirstWorld();
    FirstKernel(v);
    forall g ensures g !in w.memory && (g in v.flat ==> g.v in Kernel(w)) {
      if g in v.flat { assert g == Page(KERNEL, g.v); }
    }
  }

  lemma FirstKernel(v: View)
    requires Started(v)
    ensures ShowsKernel(v, FirstWorld())
    ensures forall p :: p in Kernel(FirstWorld()) <==> Page(KERNEL, p) in v.flat
  {
    hide Range, FirstPage, HeapPages, Holds, Keeps, FrameOf, ZeroFrame;
    KernelAreas();
    var w := FirstWorld();
    forall p ensures p in w.heap <==> Page(KERNEL, p) in AreaPages(HEAP) { PageOfArea(HEAP, p); }
    forall p ensures p in w.fixed <==> Page(KERNEL, p) in AreaPages(TEXT) + AreaPages(PHYS) {
      PageOfArea(TEXT, p);
      PageOfArea(PHYS, p);
    }
    forall p | p in w.fixed
      ensures Page(KERNEL, p) in v.flat && FrameOf(v.flat[Page(KERNEL, p)]) == w.fixed[p]
    {
      assert Page(KERNEL, p) in KernelPages();
    }
  }

  lemma PageOfArea(a: Vma, p: nat)
    ensures Page(KERNEL, p) in AreaPages(a) <==> p in Numbers(a)
  {
    hide Range, FirstPage;
  }

  /** In the first world the kernel reaches 1024 frames and no more. */
  lemma FirstReach(limit: nat)
    ensures Reaches(FirstWorld(), limit) <==> limit <= 1024
  {
    hide Range, FirstPage, PhysPage, ZeroFrame;
    KernelAreas();
    forall f: nat | f < BOOT_REACH
      ensures f < 1024 <==> PhysPage(f) in FixedPages()
      ensures f < 1024 ==> FixedPages()[PhysPage(f)] == f
    {
      PhysPageIs(f);
    }
    if limit > 1024 { assert PhysPage(1024) !in FixedPages(); }
  }

  /** Start-up shows the world without user spaces, from which every run starts. */
  method Begin(rs: seq<Region>, memory: array<Frame>) returns (sp: AddressSpaces)
    requires RegionsOk(rs, memory.Length) && memory.Length > 0 && memory.Length * PAGE_SIZE + PAGE_SIZE <= WORD_LIMIT
    requires BitmapsInReach(rs) && |ReachSet(rs, memory.Length, 1024)| >= BOOT_FRAMES
    modifies memory
    ensures fresh(sp) && fresh(sp.mapper) && fresh(sp.mapper.pmm)
    ensures sp.mapper.pmm.regions == rs && sp.mapper.pmm.ram == memory && sp.mapper.limit == 1024
    ensures sp.Valid() && Shows(sp.V(), sp.nextSpace, FirstWorld()) && Reaches(FirstWorld(), sp.mapper.limit)
  {
    hide Mapper.Valid, Mapper.Client, Core, Lists, RegionsOk, ReachSet, BitmapsInReach, Started, Shows, FirstWorld;
    sp := StartMemory(rs, memory, 1024);
    Begins(sp.V());
    FirstReach(1024);
  }

  /** Every entry of every space names one of the first 1024 frames. */
  lemma EntriesNear(sp: AddressSpaces, w: World, g: Page)
    requires sp.Valid() && Shows(sp.V(), sp.nextSpace, w) && g in sp.mapper.flat
    requires w.fixed == FixedPages() && sp.mapper.limit <= 1024
    ensures FrameOf(sp.mapper.flat[g]) < 1024
  {
    hide Mapper.Valid, Core, Lists, FrameOf, HeapPages, Holds, Keeps, RegularPage, FixedPages;
    var v := sp.V();
    RegularIff(v, g);
    if RegularPage(v, g) {
      RegularInClient(v, g);
      sp.mapper.ClientNear(FrameOf(v.flat[g]));
    } else {
      SameFrameEverywhere(v, g.sp, g.v);
      HeapInClient(v);
      if g.v in w.heap {
        sp.mapper.ClientNear(FrameOf(v.flat[Page(KERNEL, g.v)]));
      } else {
        FixedBelow(g.v);
      }
    }
  }

  lemma FixedBelow(p: nat)
    requires p in FixedPages()
    ensures FixedPages()[p] < 1024
  {
    hide Range, FirstPage;
  }

  /** A page of the kernel's has the same frame in every space. */
  lemma SameFrameEverywhere(v: View, s: nat, p: nat)
    requires Core(v) && Lists(v) && Page(KERNEL, p) in v.flat && (s in v.areas || Page(s, p) in v.flat)
    ensures Page(s, p) in v.flat && FrameOf(v.flat[Page(s, p)]) == FrameOf(v.flat[Page(KERNEL, p)])
  {
    hide VmaOk, Homes, Flagged, FrameOf;
    KernelEverywhere(v, s, p);
    RegularIff(v, Page(s, p));
  }

  /**
   * In every state of every run, in whatever space is in use: the kernel finds frame f where it looks
   * for it exactly if f is one of the first 1024, and no address at all leads to any other frame.
   */
  lemma PhysMapIff(sp: AddressSpaces, w: World, s: nat, f: nat)
    requires sp.Valid() && Shows(sp.V(), sp.nextSpace, w) && s in w.spaces
    requires w.fixed == FixedPages() && sp.mapper.limit <= 1024
    ensures s in sp.mapper.p4
    ensures Names(sp.mapper.pmm.ram[..], sp.mapper.p4[s], PhysPage(f), f) <==> f < 1024
    ensures forall virt: nat :: Names(sp.mapper.pmm.ram[..], sp.mapper.p4[s], PageNo(virt), f) ==> f < 1024
  {
    hide Mapper.Valid, Core, Lists, FrameOf, PageNo, Walk, FixedPages, Shows, Names;
    WorldFacts(sp.V(), sp.nextSpace, w);
    NamesIff(sp, s, 0, f);
    forall virt: nat ensures Names(sp.mapper.pmm.ram[..], sp.mapper.p4[s], PageNo(virt), f) ==> f < 1024 {
      NamesIff(sp, s, virt, f);
      if Page(s, PageNo(virt)) in sp.mapper.flat { EntriesNear(sp, w, Page(s, PageNo(virt))); }
    }
    if f < 1024 {
      FrameAtPlace(sp.V(), sp.nextSpace, w, s, f);
      NamesIff(sp, s, PToV(f), f);
    }
  }

  lemma FrameAtPlace(v: View, next: nat, w: World, s: nat, f: nat)
    requires Core(v) && Lists(v) && Shows(v, next, w) && s in v.areas && w.fixed == FixedPages() && f < 1024
    ensures Page(s, PhysPage(f)) in v.flat && FrameOf(v.flat[Page(s, PhysPage(f))]) == f
  {
    hide Core, Lists, FrameOf, PhysPage, FixedPages, HeapPages, Holds, Keeps;
    FirstReach(1024);
    SameFrameEverywhere(v, s, PhysPage(f));
  }

  /** A page that the kernel may write and no program may touch. */
  predicate Kernels(m: seq<Frame>, p4: nat, v: nat)
  {
    Allowed(m, p4, PagePath(v), 0) && Allowed(m, p4, PagePath(v), 1) && !Allowed(m, p4, PagePath(v), 2)
  }

  /**
   * In every state of every run and in every space: 2 MiB of text, 4 MiB of physical memory and 512 KiB
   * of heap lie where the kernel expects them, writable and out of reach of programs.
   */
  lemma KernelImage(sp: AddressSpaces, w: World, s: nat, i: nat)
    requires sp.Valid() && Shows(sp.V(), sp.nextSpace, w) && s in w.spaces
    requires w.fixed == FixedPages() && w.heap.Keys == EmptyHeap().Keys
    ensures s in sp.mapper.p4
    ensures var m, p4 := sp.mapper.pmm.ram[..], sp.mapper.p4[s];
      && (i < 512 ==> var v := PageNo(0xffff_ffff_8000_0000 + i * 4096); Kernels(m, p4, v) && Names(m, p4, v, i))
      && (i < 1024 ==> var v := PageNo(0xffff_8880_0000_0000 + i * 4096); Kernels(m, p4, v) && Names(m, p4, v, i))
      && (i < 128 ==> var v := PageNo(0xffff_c900_0000_0000 + i * 4096); Kernels(m, p4, v) && v in w.heap)
  {
    hide Mapper.Valid, Core, Lists, Guarded, TablesPresent, PageNo, PagePath, Allowed, Walk, FixedPages, EmptyHeap;
    hide Shows;
    hide Names, Kernels;
    WorldFacts(sp.V(), sp.nextSpace, w);
    KernelAt(sp, w, s, 0);
    if i < 512 { TextPlace(i); KernelAt(sp, w, s, 0xffff_ffff_8000_0000 + i * 4096); }
    if i < 1024 { PhysPlace(i); KernelAt(sp, w, s, 0xffff_8880_0000_0000 + i * 4096); }
    if i < 128 { HeapPlace(i); KernelAt(sp, w, s, 0xffff_c900_0000_0000 + i * 4096); }
  }

  lemma KernelAt(sp: AddressSpaces, w: World, s: nat, virt: nat)
    requires sp.Valid() && Shows(sp.V(), sp.nextSpace, w) && s in sp.areas
    ensures s in sp.mapper.p4
    ensures PageNo(virt) in Kernel(w) ==> Kernels(sp.mapper.pmm.ram[..], sp.mapper.p4[s], PageNo(virt))
    ensures PageNo(virt) in w.fixed ==>
      Names(sp.mapper.pmm.ram[..], sp.mapper.p4[s], PageNo(virt), w.fixed[PageNo(virt)])
  {
    hide Mapper.Valid, Core, Lists, Guarded, TablesPresent, PageNo, PagePath, Allowed, Walk, HeapPages, Holds, Keeps;
    hide FrameOf;
    hide Names;
    var v := PageNo(virt);
    WorldFacts(sp.V(), sp.nextSpace, w);
    if v in Kernel(w) {
      KernelsAt(sp, w, s, v);
      SameFrameEverywhere(sp.V(), s, v);
    }
    if v in w.fixed { NamesIff(sp, s, virt, w.fixed[v]); }
  }

  lemma KernelsAt(sp: AddressSpaces, w: World, s: nat, v: nat)
    requires sp.Valid() && Shows(sp.V(), sp.nextSpace, w) && s in sp.areas && v in Kernel(w)
    ensures s in sp.mapper.p4 && Kernels(sp.mapper.pmm.ram[..], sp.mapper.p4[s], v)
  {
    hide Mapper.Valid, Core, Lists, Guarded, TablesPresent, PagePath, Allowed, HeapPages, Holds, Keeps, FrameOf;
    KernelRights(sp, s, v);
  }

  lemma TextPlace(i: nat)
    requires i < 512
    ensures var v := PageNo(0xffff_ffff_8000_0000 + i * 4096); v in FixedPages() && FixedPages()[v] == i
  {
    hide Range, PageNo, FirstPage;
    KernelAreas();
    PageNoIs(0xffff_ffff_8000_0000 + i * 4096, 0xffff, 0xffff80000 + i);
  }

  lemma PhysPlace(i: nat)
    requires i < 1024
    ensures var v := PageNo(0xffff_8880_0000_0000 + i * 4096); v in FixedPages() && FixedPages()[v] == i
  {
    hide Range, PageNo, FirstPage;
    KernelAreas();
    PageNoIs(0xffff_8880_0000_0000 + i * 4096, 0xffff, 0x888000000 + i);
  }

  lemma HeapPlace(i: nat)
    requires i < 128
    ensures PageNo(0xffff_c900_0000_0000 + i * 4096) in EmptyHeap()
  {
    hide Range, PageNo, FirstPage, ZeroFrame;
    KernelAreas();
    PageNoIs(0xffff_c900_0000_0000 + i * 4096, 0xffff, 0xc90000000 + i);
  }

  /**
   * From memory of any contents: start-up and any legal run that fits the frames within reach. What is
   * left shows the world after the run, and the kernel reaches every frame in use from every space.
   */
  method BootAndRun(rs: seq<Region>, memory: array<Frame>, ops: seq<Op>) returns (sp: AddressSpaces)
    requires RegionsOk(rs, memory.Length) && memory.Length > 0 && memory.Length * PAGE_SIZE + PAGE_SIZE <= WORD_LIMIT
    requires BitmapsInReach(rs) && |ReachSet(rs, memory.Length, 1024)| >= BOOT_FRAMES
    requires LegalRun(FirstWorld(), ops) && Fits(FirstWorld(), ops, |ReachSet(rs, memory.Length, 1024)|)
    modifies memory
    ensures fresh(sp) && sp.mapper.pmm.regions == rs && sp.mapper.pmm.ram == memory
    ensures sp.Valid() && Shows(sp.V(), sp.nextSpace, After(FirstWorld(), ops))
    ensures |sp.mapper.pmm.live| == InUse(After(FirstWorld(), ops)) && forall f :: f in sp.mapper.pmm.live ==> f < 1024
    ensures forall s, f: nat :: s in sp.areas ==>
      s in sp.mapper.p4 && (Names(memory[..], sp.mapper.p4[s], PhysPage(f), f) <==> f < 1024)
    ensures forall s, p: nat :: s in sp.areas && p in Kernel(FirstWorld()) ==>
      s in sp.mapper.p4 && Kernels(memory[..], sp.mapper.p4[s], p)
  {
    hide Mapper.Valid, Mapper.Client, Core, Lists, RegionsOk, ReachSet, BitmapsInReach, Shows, FirstWorld, InUse, Walk;
    hide LegalRun, Fits, After, PhysPage, FixedPages, Reaches, Kernels, Kernel, Names, Guarded, TablesPresent;
    sp := Begin(rs, memory);
    RunAll(sp, ops, FirstWorld());
    ghost var w := After(FirstWorld(), ops);
    KernelKept(FirstWorld(), ops);
    WorldFacts(sp.V(), sp.nextSpace, w);
    FixedAtFirst();
    forall f | f in sp.mapper.pmm.live ensures f < 1024 { sp.mapper.LiveNear(f); }
    forall s, f: nat | s in sp.areas
      ensures s in sp.mapper.p4 && (Names(memory[..], sp.mapper.p4[s], PhysPage(f), f) <==> f < 1024)
    {
      PhysMapIff(sp, w, s, f);
    }
    assert Kernel(w) == Kernel(FirstWorld()) by { SameKernel(FirstWorld(), w); }
    forall s, p: nat | s in sp.areas && p in Kernel(FirstWorld())
      ensures s in sp.mapper.p4 && Kernels(memory[..], sp.mapper.p4[s], p)
    {
      KernelsAt(sp, w, s, p);
    }
  }

  /** With eleven more frames than start-up takes there is room for a space. */
  lemma OneSpaceFits(frames: nat)
    requires frames >= BOOT_FRAMES + 11
    ensures LegalRun(FirstWorld(), [New]) && Fits(FirstWorld(), [New], frames)
  {
    hide Range, FirstPage;
    var w := FirstWorld();
    var w1 := Next(w, New);
    assert [New][1..] == [];
    assert |w1.heap| == 128 by { HeapCountFirst(); }
    var places := KernelPlaces() + SecondPlaces();
    forall n | n in TableNodes(Pages(w1)) ensures n in places { FirstPlaces(n); }
    ListedSize(TableNodes(Pages(w1)), places);
    assert LegalRun(w1, []) && Fits(w1, [], frames);
  }

  lemma HeapCountFirst()
    ensures |EmptyHeap()| == 128
  {
    hide Range, FirstPage;
    assert EmptyHeap().Keys == Numbers(HEAP);
  }

  function SecondPlaces(): (ns: seq<Node>)
    ensures |ns| == 11
  {
    seq(11, i requires 0 <= i < 11 => Node(1, KernelPlaces()[i].path))
  }

  lemma FirstPlaces(n: Node)
    requires n in TableNodes(Pages(Next(FirstWorld(), New)))
    ensures n in KernelPlaces() + SecondPlaces()
  {
    hide Range, FirstPage, PagePath, KernelPlaces;
    var g :| g in Pages(Next(FirstWorld(), New)) && n in TablesAbove(g);
    var k, c := Page(KERNEL, g.v), Node(KERNEL, n.path);
    assert k in KernelPages() by {
      PageOfArea(TEXT, g.v);
      PageOfArea(PHYS, g.v);
      PageOfArea(HEAP, g.v);
    }
    assert c in TablesAbove(k);
    KernelPlace(k, c);
    var i :| 0 <= i < 11 && KernelPlaces()[i] == c;
    assert SecondPlaces()[i] == Node(1, n.path);
    assert n == Node(g.sp, n.path) && (g.sp == KERNEL || g.sp == 1);
  }

  lemma FixedAtFirst()
    ensures FirstWorld().fixed == FixedPages()
  {
  }

  /** The frames in use, exactly: none is lost and none is counted twice. */
  lemma FramesInUse(sp: AddressSpaces, w: World)
    requires sp.Valid() && Shows(sp.V(), sp.nextSpace, w)
    ensures |sp.mapper.pmm.live| == InUse(w)
  {
    hide Mapper.Valid, Mapper.Client, Core, Lists, Shows, Pages, TableNodes;
    Accounts(sp.V(), sp.nextSpace, w);
    sp.mapper.TablesCounted();
  }

  /** What the processor reads at an address of a regular page is the byte of the world. */
  lemma Reads(sp: AddressSpaces, w: World, s: nat, virt: nat)
    requires sp.Valid() && Shows(sp.V(), sp.nextSpace, w) && Page(s, PageNo(virt)) in w.memory
    ensures s in sp.mapper.p4
    ensures VirtByte(sp.mapper.pmm.ram[..], sp.mapper.p4[s], virt) ==
      Some(w.memory[Page(s, PageNo(virt))].bytes[virt % PAGE_SIZE])
  {
    hide Mapper.Valid, Mapper.Client, Core, Lists, PageNo, FrameOf, HeapPages, Walk, Allowed, PagePath, Guarded;
    hide TablesPresent;
    StoreFacts(sp.V(), sp.nextSpace, w, Page(s, PageNo(virt)));
    sp.mapper.WalksAreFlat();
    MappedPresent(sp, Page(s, PageNo(virt)));
  }

  /** A page keeps its bytes through any run that neither stores to it nor frees its space. */
  lemma {:induction false} Undisturbed(w: World, ops: seq<Op>, g: Page)
    requires LegalRun(w, ops) && g in w.memory
    requires forall op :: op in ops ==> op != Free(g.sp) && (op.Put? ==> Page(op.sp, PageNo(op.virt)) != g)
    ensures g in After(w, ops).memory && After(w, ops).memory[g] == w.memory[g]
    decreases |ops|
  {
    hide PageNo, VmaOk, Pages, ZeroFrame;
    if ops != [] {
      assert ops[0] in ops;
      Undisturbed(Next(w, ops[0]), ops[1..], g);
    }
  }
}
