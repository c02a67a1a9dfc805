/**
 * What the mappings of all address spaces mean (src/mm/vmm.c, struct vm_area and its users): which
 * area covers each mapped page, which page each data frame belongs to, and the reference counts.
 */
module Views {
  import opened Bytes
  import opened Pmm
  import opened PageTables
  import opened Counts

  datatype Kind = Reg | KernelText | KernelHeap | PhysMem

  /** `struct vm_area`. */
  datatype Vma = Vma(refcnt: int, kind: Kind, start: nat, pages: nat, user: bool, prot: nat)

  /** The key of `kernel_mm` among the address spaces. */
  const KERNEL: nat := 0

  function FirstPage(a: Vma): nat { PageNo(a.start) }

  /** Page-aligned, and inside one window of 2^48 bytes, as canonical addresses are. */
  predicate VmaOk(a: Vma)
  {
    a.start % PAGE_SIZE == 0 && a.start + a.pages * PAGE_SIZE <= WORD_LIMIT && FirstPage(a) + a.pages <= PAGES
  }

  predicate Covers(a: Vma, v: nat)
  {
    FirstPage(a) <= v < FirstPage(a) + a.pages
  }

  /** The i-th page of an area, as the loops compute it. */
  lemma PageOfOffset(a: Vma, i: nat)
    requires VmaOk(a) && i < a.pages
    ensures PageNo(a.start + PAGE_SIZE * i) == FirstPage(a) + i
  {
    var w := a.start / PAGE_SIZE;
    assert (a.start + PAGE_SIZE * i) / PAGE_SIZE == w + i;
    DivUnique(w + i, PAGES, w / PAGES, w % PAGES + i);
  }

  const PHYS_MAPPING_START: nat := 0xffff_8880_0000_0000

  /** `P_TO_V` of a frame: where the kernel reads and writes it, whatever space is in use. */
  function PToV(f: nat): nat { PHYS_MAPPING_START + f * PAGE_SIZE }

  function PhysPage(f: nat): nat { PageNo(PToV(f)) }

  /** The kernel's space maps every frame below the limit where the kernel looks for it. */
  ghost predicate PhysMapped(flat: map<Page, nat>, limit: nat)
  {
    forall f: nat :: f < limit ==> Page(KERNEL, PhysPage(f)) in flat && FrameOf(flat[Page(KERNEL, PhysPage(f))]) == f
  }

  lemma StillMapped(flat: map<Page, nat>, flat1: map<Page, nat>, limit: nat)
    requires PhysMapped(flat, limit)
    requires forall g :: g in flat && g.sp == KERNEL ==> g in flat1 && flat1[g] == flat[g]
    ensures PhysMapped(flat1, limit)
  {
    hide FrameOf, PhysPage;
  }

  lemma FlagBits(write: bool, user: bool)
    ensures var f := (if write then 2 else 0) + (if user then 4 else 0) + 1;
      Bit(f, 0) && (Bit(f, 1) <==> write) && (Bit(f, 2) <==> user)
  {
    hide Bit;
    ThreeBits((if write then 2 else 0) + (if user then 4 else 0) + 1);
  }

  /** The page-table flags of a mapping: present, writable, user. */
  function Flags(prot: nat, user: bool): (f: nat)
    ensures 1 <= f < 8 && Bit(f, 0) && (Bit(f, 1) <==> Bit(prot, 1)) && (Bit(f, 2) <==> user)
  {
    FlagBits(Bit(prot, 1), user);
    (if Bit(prot, 1) then 2 else 0) + (if user then 4 else 0) + 1
  }

  datatype View = View(
    areas: map<nat, seq<nat>>,   // the vm_areas list of every space
    vmas: map<nat, Vma>,
    flat: map<Page, nat>,        // page-table entry of every mapped page
    owner: map<Page, nat>,       // the area that covers the page
    home: map<nat, Page>,        // the one page that owns each data frame
    client: set<nat>,            // frames allocated and not used as tables
    live: set<nat>,              // all allocated frames
    slots: map<Node, nat>,       // the page-table entries of all spaces
    tables: map<nat, Node>,      // the frames that hold tables
    mem: seq<Frame>)             // physical memory

  /** A page whose frame belongs to it alone. */
  predicate Private(v: View, g: Page)
    requires g in v.owner && v.owner[g] in v.vmas
  {
    v.vmas[v.owner[g]].kind.Reg? || (g.sp == KERNEL && v.vmas[v.owner[g]].kind.KernelHeap?)
  }

  /** Every mapped page lies in an area of its space. */
  ghost predicate Owned(v: View)
  {
    && v.owner.Keys == v.flat.Keys
    && (forall g :: g in v.owner ==>
          g.sp in v.areas && v.owner[g] in v.vmas && Covers(v.vmas[v.owner[g]], g.v))
  }

  /** Private pages and data frames correspond one to one, and no other frame is allocated. */
  ghost predicate Homes(v: View)
    requires Owned(v)
  {
    && v.home.Keys == v.client
    && (forall f :: f in v.home ==>
          v.home[f] in v.owner && Private(v, v.home[f]) && FrameOf(v.flat[v.home[f]]) == f)
    && (forall g :: g in v.owner && Private(v, g) ==>
          FrameOf(v.flat[g]) in v.home && v.home[FrameOf(v.flat[g])] == g)
  }

  /** Pages of kernel areas translate to the frame that the kernel's own space gives them. */
  ghost predicate Shared(v: View)
    requires Owned(v)
  {
    forall g :: g in v.owner && !v.vmas[v.owner[g]].kind.Reg? ==>
      Page(KERNEL, g.v) in v.owner && v.owner[Page(KERNEL, g.v)] == v.owner[g] &&
      FrameOf(v.flat[g]) == FrameOf(v.flat[Page(KERNEL, g.v)])
  }

  /** All entries carry exactly the flags of their area. */
  ghost predicate Flagged(v: View)
    requires Owned(v)
  {
    forall g :: g in v.owner ==> EntryFor(v.flat[g], v.vmas[v.owner[g]])
  }

  /** The entry names a frame and carries the flags of the area, nothing more. */
  predicate EntryFor(e: nat, a: Vma)
  {
    e == FrameOf(e) * PAGE_SIZE + Flags(a.prot, a.user)
  }

  ghost predicate Core(v: View)
  {
    Owned(v) && Homes(v) && Shared(v) && Flagged(v)
  }

  // ---------- the area lists ----------

  predicate NoDup(s: seq<nat>)
  {
    forall i, j :: 0 <= i < j < |s| ==> s[i] != s[j]
  }

  /** All pages of an area are mapped in a space, by that area. */
  ghost predicate Complete(v: View, s: nat, a: nat)
    requires a in v.vmas
  {
    forall p: nat :: Covers(v.vmas[a], p) ==> Page(s, p) in v.owner && v.owner[Page(s, p)] == a
  }

  /**
   * One space: its list names well-formed areas that are fully mapped, among them all kernel areas.
   */
  ghost predicate SpaceOk(v: View, s: nat)
    requires s in v.areas && KERNEL in v.areas
  {
    && NoDup(v.areas[s])
    && (forall a :: a in v.areas[s] ==> a in v.vmas && VmaOk(v.vmas[a]) && Complete(v, s, a))
    && (forall a :: a in v.areas[KERNEL] ==> a in v.areas[s])
    && (forall a :: a in v.areas[s] && !v.vmas[a].kind.Reg? ==> a in v.areas[KERNEL])
    && (s == KERNEL ==> forall a :: a in v.areas[s] ==> !v.vmas[a].kind.Reg?)
    && (forall g :: g in v.owner && g.sp == s ==> v.owner[g] in v.areas[s])
  }

  /** A regular area has one reference; a kernel area one per space other than the kernel's. */
  ghost predicate Counted(v: View)
    requires KERNEL in v.areas
  {
    && (forall s, a :: s in v.areas && a in v.areas[s] && a in v.vmas && v.vmas[a].kind.Reg? ==> v.vmas[a].refcnt == 1)
    && (forall s, t, a ::
          (s in v.areas && t in v.areas && a in v.areas[s] && a in v.areas[t] && a in v.vmas && v.vmas[a].kind.Reg?)
          ==> s == t)
    && (forall a :: a in v.areas[KERNEL] && a in v.vmas ==> v.vmas[a].refcnt == |v.areas| - 1)
  }

  ghost predicate Lists(v: View)
  {
    KERNEL in v.areas && (forall s :: s in v.areas ==> SpaceOk(v, s)) && Counted(v)
  }

  /** The kernel's areas may be written, and not by programs. */
  ghost predicate KernelOnly(v: View)
    requires KERNEL in v.areas
  {
    forall a :: a in v.areas[KERNEL] && a in v.vmas ==> Bit(v.vmas[a].prot, 1) && !v.vmas[a].user
  }

  /** In every space, the tables above the kernel's pages let stores through. */
  ghost predicate TablesOpen(v: View)
  {
    forall g :: g in v.flat && Page(KERNEL, g.v) in v.flat ==> Carried(v.slots, g.sp, LowestTable(g.v), WRITE)
  }

  ghost predicate Guarded(v: View)
    requires KERNEL in v.areas
  {
    KernelOnly(v) && TablesOpen(v)
  }

  /** Every space maps all pages of the kernel's. */
  lemma KernelEverywhere(v: View, s: nat, p: nat)
    requires Core(v) && Lists(v) && s in v.areas && Page(KERNEL, p) in v.flat
    ensures Page(s, p) in v.flat
  {
    hide VmaOk, Homes, Shared, Flagged;
    var k := Page(KERNEL, p);
    assert SpaceOk(v, KERNEL) && SpaceOk(v, s) && v.owner[k] in v.areas[KERNEL];
    assert Complete(v, s, v.owner[k]) && Covers(v.vmas[v.owner[k]], p);
  }

  // ---------- one page changes ----------

  /** A fresh frame becomes the frame of a new private page. */
  lemma AddPrivate(v: View, g: Page, a: nat, e: nat)
    requires Core(v) && g !in v.flat && g.sp in v.areas && a in v.vmas && Covers(v.vmas[a], g.v)
    requires v.vmas[a].kind.Reg? || (v.vmas[a].kind.KernelHeap? && g.sp == KERNEL)
    requires FrameOf(e) !in v.client
    requires EntryFor(e, v.vmas[a])
    ensures Core(v.(flat := v.flat[g := e], owner := v.owner[g := a], home := v.home[FrameOf(e) := g],
                    client := v.client + {FrameOf(e)}))
  {
    hide Covers, FrameOf, EntryFor, Homes, Shared, Flagged;
    var w := v.(flat := v.flat[g := e], owner := v.owner[g := a], home := v.home[FrameOf(e) := g],
                client := v.client + {FrameOf(e)});
    assert Owned(w);
    AddPrivateHomes(v, w, g, a, e);
    RestGrows(v, w, g);
  }

  lemma AddPrivateHomes(v: View, w: View, g: Page, a: nat, e: nat)
    requires Owned(v) && Homes(v) && g !in v.flat && a in v.vmas && FrameOf(e) !in v.client
    requires v.vmas[a].kind.Reg? || (v.vmas[a].kind.KernelHeap? && g.sp == KERNEL)
    requires w == v.(flat := v.flat[g := e], owner := v.owner[g := a], home := v.home[FrameOf(e) := g],
                     client := v.client + {FrameOf(e)})
    requires Owned(w)
    ensures Homes(w)
  {
    hide Covers, FrameOf;
    assert w.home.Keys == w.client;
    forall f | f in w.home
      ensures w.home[f] in w.owner && Private(w, w.home[f]) && FrameOf(w.flat[w.home[f]]) == f
    {
      if f in v.home { assert v.home[f] != g; }
    }
    forall h | h in w.owner && Private(w, h)
      ensures FrameOf(w.flat[h]) in w.home && w.home[FrameOf(w.flat[h])] == h
    {
      if h != g { assert Private(v, h); }
    }
  }

  /** A page of a kernel area is mapped in another space, or a kernel page in the kernel's space. */
  lemma AddShared(v: View, g: Page, a: nat, e: nat)
    requires Core(v) && g !in v.flat && g.sp in v.areas && a in v.vmas && Covers(v.vmas[a], g.v)
    requires !v.vmas[a].kind.Reg? && EntryFor(e, v.vmas[a])
    requires if g.sp == KERNEL then !v.vmas[a].kind.KernelHeap? else
      Page(KERNEL, g.v) in v.owner && v.owner[Page(KERNEL, g.v)] == a &&
      FrameOf(e) == FrameOf(v.flat[Page(KERNEL, g.v)])
    ensures Core(v.(flat := v.flat[g := e], owner := v.owner[g := a]))
  {
    hide Covers, FrameOf, EntryFor;
    var w := v.(flat := v.flat[g := e], owner := v.owner[g := a]);
    assert Owned(w);
    SharedHomes(v, w, g);
    RestGrows(v, w, g);
  }

  lemma RestGrows(v: View, w: View, g: Page)
    requires Owned(v) && Shared(v) && Flagged(v) && Owned(w) && w.vmas == v.vmas && g in w.owner
    requires forall h :: h in v.owner ==> h in w.owner && w.owner[h] == v.owner[h] && w.flat[h] == v.flat[h]
    requires forall h :: h in w.owner && h != g ==> h in v.owner
    requires var a := w.vmas[w.owner[g]];
      EntryFor(w.flat[g], a) &&
      (!a.kind.Reg? ==>
        Page(KERNEL, g.v) in w.owner && w.owner[Page(KERNEL, g.v)] == w.owner[g] &&
        FrameOf(w.flat[g]) == FrameOf(w.flat[Page(KERNEL, g.v)]))
    ensures Shared(w) && Flagged(w)
  {
    hide Covers, FrameOf, EntryFor;
  }

  lemma RestShrinks(v: View, w: View, g: Page)
    requires Owned(v) && Shared(v) && Flagged(v) && Owned(w) && w.vmas == v.vmas
    requires forall h :: h in w.owner ==> h in v.owner && w.owner[h] == v.owner[h] && w.flat[h] == v.flat[h]
    requires forall h :: h in v.owner && h != g ==> h in w.owner
    requires g in v.owner && (v.vmas[v.owner[g]].kind.Reg? || g.sp != KERNEL)
    ensures Shared(w) && Flagged(w)
  {
    hide Covers, FrameOf, EntryFor;
  }

  /** Mapping or unmapping a page that owns no frame leaves the frames with their owners. */
  lemma SharedHomes(v: View, w: View, g: Page)
    requires Owned(v) && Homes(v) && Owned(w) && w.home == v.home && w.client == v.client && w.vmas == v.vmas
    requires g in v.owner ==> !Private(v, g)
    requires g in w.owner ==> !Private(w, g)
    requires forall h :: h != g ==> (h in w.owner <==> h in v.owner)
    requires forall h :: h != g && h in v.owner ==> w.owner[h] == v.owner[h] && w.flat[h] == v.flat[h]
    ensures Homes(w)
  {
    hide Covers, FrameOf;
  }

  /** A regular page goes, and its frame with it. */
  lemma DropPrivate(v: View, g: Page)
    requires Core(v) && g in v.flat && v.vmas[v.owner[g]].kind.Reg?
    ensures FrameOf(v.flat[g]) in v.client
    ensures Core(v.(flat := v.flat - {g}, owner := v.owner - {g}, home := v.home - {FrameOf(v.flat[g])},
                    client := v.client - {FrameOf(v.flat[g])}))
  {
    hide Covers, FrameOf, EntryFor;
    var f := FrameOf(v.flat[g]);
    var w := v.(flat := v.flat - {g}, owner := v.owner - {g}, home := v.home - {f}, client := v.client - {f});
    assert Owned(w);
    DropPrivateHomes(v, w, g);
    RestShrinks(v, w, g);
  }

  lemma DropPrivateHomes(v: View, w: View, g: Page)
    requires Owned(v) && Homes(v) && g in v.flat && v.vmas[v.owner[g]].kind.Reg? && Owned(w)
    requires var f := FrameOf(v.flat[g]);
      w == v.(flat := v.flat - {g}, owner := v.owner - {g}, home := v.home - {f}, client := v.client - {f})
    ensures FrameOf(v.flat[g]) in v.client && Homes(w)
  {
    hide Covers, FrameOf;
    assert Private(v, g);
    forall h | h in w.owner && Private(w, h)
      ensures FrameOf(w.flat[h]) in w.home && w.home[FrameOf(w.flat[h])] == h
    {
      assert Private(v, h);
    }
  }

  /** A page of a kernel area is unmapped in a space other than the kernel's. */
  lemma DropShared(v: View, g: Page)
    requires Core(v) && g in v.flat && !v.vmas[v.owner[g]].kind.Reg? && g.sp != KERNEL
    ensures Core(v.(flat := v.flat - {g}, owner := v.owner - {g}))
  {
    hide Covers, FrameOf, EntryFor;
    var w := v.(flat := v.flat - {g}, owner := v.owner - {g});
    assert Owned(w);
    SharedHomes(v, w, g);
    RestShrinks(v, w, g);
  }

  // ---------- list and reference-count changes ----------

  /** Two areas alike in everything but the reference count. */
  predicate SameArea(a: Vma, b: Vma)
  {
    a.(refcnt := b.refcnt) == b
  }

  /** Changing lists, counts or areas that own no page leaves the page part alone. */
  lemma CoreKept(v: View, w: View)
    requires Core(v) && w.flat == v.flat && w.owner == v.owner && w.home == v.home && w.client == v.client
    requires forall g :: g in v.owner ==>
      g.sp in w.areas && v.owner[g] in w.vmas && SameArea(v.vmas[v.owner[g]], w.vmas[v.owner[g]])
    ensures Core(w)
  {
    hide Covers, FrameOf, EntryFor;
    forall g | g in v.owner
      ensures Covers(w.vmas[v.owner[g]], g.v)
      ensures EntryFor(v.flat[g], v.vmas[v.owner[g]]) ==> EntryFor(w.flat[g], w.vmas[v.owner[g]])
    {
      SameMeaning(v.vmas[v.owner[g]], w.vmas[v.owner[g]], g.v, v.flat[g]);
    }
    assert Owned(w);
    assert Homes(w);
    assert Shared(w) && Flagged(w);
  }

  /** The page part does not depend on memory, tables or free frames. */
  lemma CoreSame(v: View, w: View)
    requires Core(v) && w.flat == v.flat && w.owner == v.owner && w.home == v.home && w.client == v.client
    requires w.vmas == v.vmas && w.areas == v.areas
    ensures Core(w)
  {
    hide Covers, FrameOf, EntryFor;
  }

  /** The page part survives a change of lists that keeps every owning area. */
  lemma CoreRelisted(v: View, w: View)
    requires Core(v) && SamePages(v, w) && v.areas.Keys <= w.areas.Keys
    requires forall a :: a in v.vmas ==> a in w.vmas && SameArea(v.vmas[a], w.vmas[a])
    ensures Core(w)
  {
    hide Covers, FrameOf, EntryFor, Homes, Shared, Flagged;
    CoreKept(v, w);
  }

  lemma HomesAreClient(v: View)
    requires Core(v)
    ensures v.home.Keys == v.client
  {
  }

  lemma SameMeaning(a: Vma, b: Vma, p: nat, e: nat)
    requires SameArea(a, b)
    ensures Covers(a, p) == Covers(b, p) && EntryFor(e, a) == EntryFor(e, b)
  {
  }

  // ---------- an area is mapped or unmapped page by page ----------

  /** v1 is v0 with the first i pages of an area newly mapped in space s. */
  ghost predicate Grown(v0: View, v1: View, s: nat, a: nat, first: nat, i: nat)
  {
    && (forall g :: g in v1.flat <==> g in v0.flat || (g.sp == s && first <= g.v < first + i))
    && (forall g :: g in v0.flat ==> v1.flat[g] == v0.flat[g])
    && (forall g :: g in v0.owner ==> g in v1.owner && v1.owner[g] == v0.owner[g])
    && (forall g :: g in v1.owner && g !in v0.owner ==> v1.owner[g] == a)
  }

  lemma GrownStep(v0: View, v1: View, v2: View, s: nat, a: nat, first: nat, i: nat, e: nat)
    requires v0.owner.Keys == v0.flat.Keys && v1.owner.Keys == v1.flat.Keys
    requires Grown(v0, v1, s, a, first, i) && Page(s, first + i) !in v0.flat
    requires v2.flat == v1.flat[Page(s, first + i) := e] && v2.owner == v1.owner[Page(s, first + i) := a]
    ensures Grown(v0, v2, s, a, first, i + 1)
  {
  }

  lemma NextIsNew(v0: View, v1: View, s: nat, a: nat, nv: Vma, i: nat)
    requires Grown(v0, v1, s, a, FirstPage(nv), i) && i < nv.pages && Page(s, FirstPage(nv) + i) !in v0.flat
    ensures Page(s, FirstPage(nv) + i) !in v1.flat && Covers(nv, FirstPage(nv) + i)
  {
  }

  lemma KeysAgree(v: View)
    requires Owned(v)
    ensures v.owner.Keys == v.flat.Keys
  {
  }

  /** The data frames of the spaces other than s, and the pages they belong to, are the same. */
  ghost predicate HomesKept(h0: map<nat, Page>, h1: map<nat, Page>, s: nat)
  {
    forall f :: (f in h0 && h0[f].sp != s) || (f in h1 && h1[f].sp != s) ==>
      f in h0 && f in h1 && h1[f] == h0[f]
  }

  /** Every frame that became the frame of a page is newly allocated and zero. */
  ghost predicate FreshPages(v0: View, v1: View)
  {
    forall g :: g in v1.flat && g !in v0.flat ==>
      FrameOf(v1.flat[g]) !in v0.live && FrameOf(v1.flat[g]) in v1.client &&
      FrameOf(v1.flat[g]) < |v1.mem| && v1.mem[FrameOf(v1.flat[g])] == ZeroFrame()
  }

  /** Apart from space s, which may have gained frames, nothing has changed. */
  ghost predicate Isolated(v0: View, v1: View, s: nat)
  {
    && OnlySpace(v0.slots, v1.slots, s) && HomesKept(v0.home, v1.home, s)
    && v0.client <= v1.client && v0.live <= v1.live && SameOn(v0.mem, v1.mem, v0.client)
    && KeepsTables(v0.slots, v1.slots)
  }

  /** Mapping one more private page, over a fresh zeroed frame. */
  lemma FreshStep(v0: View, v1: View, v2: View, g: Page)
    requires FreshPages(v0, v1) && v1.client <= v2.client && v0.live <= v1.live
    requires SameOn(v1.mem, v2.mem, v1.client)
    requires g in v2.flat && v2.flat == v1.flat[g := v2.flat[g]]
    requires var f := FrameOf(v2.flat[g]); f !in v1.live && f in v2.client && f < |v2.mem| && v2.mem[f] == ZeroFrame()
    ensures FreshPages(v0, v2)
  {
    hide FrameOf, ZeroFrame;
  }

  lemma IsolatedStep(v0: View, v1: View, v2: View, s: nat)
    requires Isolated(v0, v1, s) && Isolated(v1, v2, s)
    ensures Isolated(v0, v2, s)
  {
  }

  lemma IsolatedStart(v: View, s: nat, a: nat, first: nat)
    ensures Isolated(v, v, s) && FreshPages(v, v)
    ensures v.owner.Keys == v.flat.Keys ==> Grown(v, v, s, a, first, 0)
  {
    hide FrameOf, ZeroFrame;
  }

  /** Two states that differ at most in their areas. */
  predicate SamePages(v: View, w: View)
  {
    w == v.(areas := w.areas, vmas := w.vmas)
  }

  /** What was mapped, and over which frames, does not depend on the area lists. */
  lemma SameGrowth(v0: View, v1: View, w0: View, w1: View, s: nat, a: nat, first: nat, i: nat)
    requires SamePages(v0, w0) && SamePages(v1, w1)
    requires Grown(v0, v1, s, a, first, i) && FreshPages(v0, v1) && Isolated(v0, v1, s)
    ensures Grown(w0, w1, s, a, first, i) && FreshPages(w0, w1) && Isolated(w0, w1, s)
  {
    hide FrameOf, ZeroFrame, OnlySpace, HomesKept, SameOn;
  }

  /** The area just mapped by an anonymous mapping enters the list of its space. */
  lemma ListsAfterMmap(v0: View, v1: View, s: nat, a: nat)
    requires Lists(v0) && Owned(v0) && Owned(v1) && s in v0.areas && s != KERNEL
    requires a !in v0.vmas && a in v1.vmas && v1.vmas == v0.vmas[a := v1.vmas[a]]
    requires VmaOk(v1.vmas[a]) && v1.vmas[a].kind.Reg? && v1.vmas[a].refcnt == 1
    requires v1.areas == v0.areas[s := [a] + v0.areas[s]]
    requires Grown(v0, v1, s, a, FirstPage(v1.vmas[a]), v1.vmas[a].pages)
    requires forall p: nat :: Covers(v1.vmas[a], p) ==> Page(s, p) !in v0.flat
    ensures Lists(v1)
  {
    hide VmaOk, FirstPage;
    assert |v1.areas| == |v0.areas| by { assert v1.areas.Keys == v0.areas.Keys; }
    forall t | t in v1.areas
      ensures SpaceOk(v1, t)
    {
      assert SpaceOk(v0, t);
      SpaceAfterMmap(v0, v1, s, a, t);
    }
    assert forall t :: t in v0.areas ==> SpaceOk(v0, t);
    assert Counted(v1) by { hide SpaceOk, Owned, Grown; CountedAfterMmap(v0, v1, s, a); }
  }

  lemma SpaceAfterMmap(v0: View, v1: View, s: nat, a: nat, t: nat)
    requires Owned(v0) && Owned(v1) && s in v0.areas && s != KERNEL && KERNEL in v0.areas
    requires t in v0.areas && SpaceOk(v0, t) && SpaceOk(v0, KERNEL)
    requires a !in v0.vmas && a in v1.vmas && v1.vmas == v0.vmas[a := v1.vmas[a]]
    requires VmaOk(v1.vmas[a]) && v1.vmas[a].kind.Reg?
    requires v1.areas == v0.areas[s := [a] + v0.areas[s]]
    requires Grown(v0, v1, s, a, FirstPage(v1.vmas[a]), v1.vmas[a].pages)
    requires forall p: nat :: Covers(v1.vmas[a], p) ==> Page(s, p) !in v0.flat
    ensures SpaceOk(v1, t)
  {
    hide VmaOk, FirstPage;
    assert v1.areas[KERNEL] == v0.areas[KERNEL];
    forall b | b in v1.areas[t]
      ensures b in v1.vmas && VmaOk(v1.vmas[b]) && Complete(v1, t, b)
    {
      if b != a {
        assert b in v0.areas[t] && Complete(v0, t, b);
      } else {
        NewComplete(v0, v1, s, a);
      }
    }
  }

  lemma NewComplete(v0: View, v1: View, s: nat, a: nat)
    requires Owned(v0) && Owned(v1) && a in v1.vmas
    requires Grown(v0, v1, s, a, FirstPage(v1.vmas[a]), v1.vmas[a].pages)
    requires forall p: nat :: Covers(v1.vmas[a], p) ==> Page(s, p) !in v0.flat
    ensures Complete(v1, s, a)
  {
    hide FirstPage;
    forall p: nat | Covers(v1.vmas[a], p)
      ensures Page(s, p) in v1.owner && v1.owner[Page(s, p)] == a
    {
      assert Page(s, p) in v1.flat;
    }
  }

  lemma CountedAfterMmap(v0: View, v1: View, s: nat, a: nat)
    requires KERNEL in v0.areas && Counted(v0) && s in v0.areas && s != KERNEL
    requires a !in v0.vmas && a in v1.vmas && v1.vmas == v0.vmas[a := v1.vmas[a]] && v1.vmas[a].refcnt == 1
    requires forall t, b :: t in v0.areas && b in v0.areas[t] ==> b in v0.vmas
    requires v1.areas == v0.areas[s := [a] + v0.areas[s]] && |v1.areas| == |v0.areas|
    ensures Counted(v1)
  {
  }

  /** The number of pages in the regular areas of a list. */
  function RegTotal(vmas: map<nat, Vma>, ks: seq<nat>): (n: nat)
  {
    if ks == [] then 0
    else
      var a := ks[|ks| - 1];
      RegTotal(vmas, ks[..|ks| - 1]) + if a in vmas && vmas[a].kind.Reg? then vmas[a].pages else 0
  }

  lemma {:induction false} RegTotalPrefix(vmas: map<nat, Vma>, ks: seq<nat>, j: nat)
    requires j < |ks| && ks[j] in vmas
    ensures RegTotal(vmas, ks[..j + 1]) ==
            RegTotal(vmas, ks[..j]) + if vmas[ks[j]].kind.Reg? then vmas[ks[j]].pages else 0
    ensures RegTotal(vmas, ks[..j + 1]) <= RegTotal(vmas, ks)
  {
    assert ks[..j + 1][..j] == ks[..j];
    if j + 1 < |ks| {
      RegTotalPrefix(vmas, ks[..|ks| - 1], j);
      assert ks[..|ks| - 1][..j + 1] == ks[..j + 1] && ks[..|ks| - 1][..j] == ks[..j];
    } else {
      assert ks[..j + 1] == ks;
    }
  }

  /** The pages left belong to the areas they belonged to, of the same kind. */
  ghost predicate SameOwners(v0: View, v1: View)
  {
    forall g :: g in v1.flat ==>
      && g in v0.owner && g in v1.owner && v1.owner[g] == v0.owner[g]
      && v0.owner[g] in v0.vmas && v0.owner[g] in v1.vmas && v1.vmas[v0.owner[g]].kind == v0.vmas[v0.owner[g]].kind
  }

  /** The pages of the kernel's heap. */
  ghost function HeapPages(v: View): (pages: set<Page>)
  {
    set g | g in v.owner && g.sp == KERNEL && v.owner[g] in v.vmas && v.vmas[v.owner[g]].kind.KernelHeap?
  }

  /** Page g holds the bytes of frame f. */
  ghost predicate Holds(v: View, g: Page, f: Frame)
    requires g in v.flat
  {
    FrameOf(v.flat[g]) < |v.mem| && v.mem[FrameOf(v.flat[g])] == f
  }

  predicate RegularPage(v: View, g: Page)
  {
    g in v.owner && v.owner[g] in v.vmas && v.vmas[v.owner[g]].kind.Reg?
  }

  /** The pages of regular areas of a space. */
  ghost function RegularPages(v: View, m: nat): (pages: set<Page>)
  {
    set g | g in v.owner && g.sp == m && RegularPage(v, g)
  }

  /** Those of the areas in a list. */
  ghost function RegularIn(v: View, m: nat, names: seq<nat>): (pages: set<Page>)
  {
    set g | g in v.owner && g.sp == m && v.owner[g] in names && RegularPage(v, g)
  }

  lemma RegularStep(v: View, m: nat, names: seq<nat>, a: nat)
    requires Owned(v) && a in v.vmas && Complete(v, m, a) && a !in names
    ensures |RegularIn(v, m, names + [a])| ==
            |RegularIn(v, m, names)| + if v.vmas[a].kind.Reg? then v.vmas[a].pages else 0
  {
    var before, after := RegularIn(v, m, names), RegularIn(v, m, names + [a]);
    if v.vmas[a].kind.Reg? {
      hide RegularIn, Owned, Complete;
      var more := Stretch(m, FirstPage(v.vmas[a]), v.vmas[a].pages);
      StretchSize(m, FirstPage(v.vmas[a]), v.vmas[a].pages);
      RegularMore(v, m, names, a);
    } else {
      assert after == before;
    }
  }

  lemma RegularMore(v: View, m: nat, names: seq<nat>, a: nat)
    requires Owned(v) && a in v.vmas && Complete(v, m, a) && a !in names && v.vmas[a].kind.Reg?
    ensures var more := Stretch(m, FirstPage(v.vmas[a]), v.vmas[a].pages);
      RegularIn(v, m, names + [a]) == RegularIn(v, m, names) + more && RegularIn(v, m, names) * more == {}
  {
    hide PageNo;
    var more := Stretch(m, FirstPage(v.vmas[a]), v.vmas[a].pages);
    forall g ensures g in more <==> g in v.owner && v.owner[g] == a && g.sp == m {
      if g in more { assert Covers(v.vmas[a], g.v) && g == Page(m, g.v); }
      if g.sp == m { assert g == Page(m, g.v); }
    }
  }

  lemma {:induction false} RegularCount(v: View, m: nat, i: nat)
    requires Owned(v) && KERNEL in v.areas && m in v.areas && SpaceOk(v, m) && i <= |v.areas[m]|
    ensures |RegularIn(v, m, v.areas[m][..i])| == RegTotal(v.vmas, v.areas[m][..i])
  {
    hide VmaOk, Owned, Complete, RegularIn;
    var ls := v.areas[m];
    if i > 0 {
      RegularCount(v, m, i - 1);
      var a := ls[i - 1];
      assert a in ls && a !in ls[..i - 1] && ls[..i][..i - 1] == ls[..i - 1];
      assert ls[..i] == ls[..i - 1] + [a];
      RegularStep(v, m, ls[..i - 1], a);
    } else {
      NoneRegular(v, m);
      assert ls[..0] == [];
    }
  }

  lemma NoneRegular(v: View, m: nat)
    ensures RegularIn(v, m, []) == {}
  {
  }

  /** The regular areas of a space have as many pages in all as the space has regular pages. */
  lemma RegTotalIsCount(v: View, m: nat)
    requires Owned(v) && KERNEL in v.areas && m in v.areas && SpaceOk(v, m)
    ensures RegTotal(v.vmas, v.areas[m]) == |RegularPages(v, m)|
  {
    hide VmaOk, Complete;
    var ls := v.areas[m];
    RegularCount(v, m, |ls|);
    assert ls[..|ls|] == ls;
    assert RegularIn(v, m, ls) == RegularPages(v, m);
  }

  // ---------- a new space shares the kernel areas ----------

  /** A space whose list, areas and pages are as before, but for reference counts, is still in order. */
  lemma SpaceTransfer(v0: View, v1: View, t: nat)
    requires t in v0.areas && KERNEL in v0.areas && SpaceOk(v0, t)
    requires t in v1.areas && KERNEL in v1.areas
    requires v1.areas[t] == v0.areas[t] && v1.areas[KERNEL] == v0.areas[KERNEL]
    requires forall a :: a in v0.areas[t] && a in v0.vmas ==> a in v1.vmas && SameArea(v0.vmas[a], v1.vmas[a])
    requires forall g: Page :: g.sp == t ==> (g in v1.owner <==> g in v0.owner)
    requires forall g: Page :: g.sp == t && g in v0.owner ==> v1.owner[g] == v0.owner[g]
    ensures SpaceOk(v1, t)
  {
    hide VmaOk, Covers;
    forall a | a in v1.areas[t]
      ensures a in v1.vmas && VmaOk(v1.vmas[a]) && Complete(v1, t, a)
    {
      AreaTransfer(v0, v1, t, a);
    }
  }

  lemma AreaTransfer(v0: View, v1: View, t: nat, a: nat)
    requires a in v0.vmas && a in v1.vmas && SameArea(v0.vmas[a], v1.vmas[a])
    requires VmaOk(v0.vmas[a]) && Complete(v0, t, a)
    requires forall g: Page :: g.sp == t ==> (g in v1.owner <==> g in v0.owner)
    requires forall g: Page :: g.sp == t && g in v0.owner ==> v1.owner[g] == v0.owner[g]
    ensures VmaOk(v1.vmas[a]) && Complete(v1, t, a)
  {
    hide PageNo;
  }

  /** vmas1 is vmas0 with one more reference to each of the first j areas of a list. */
  ghost predicate Bumped(vmas0: map<nat, Vma>, vmas1: map<nat, Vma>, ks: seq<nat>, j: nat)
    requires j <= |ks|
  {
    && vmas1.Keys == vmas0.Keys
    && (forall a :: a in vmas0 ==>
          vmas1[a] == if a in ks[..j] then vmas0[a].(refcnt := vmas0[a].refcnt + 1) else vmas0[a])
  }

  /** Space m maps the pages of the first j areas of a list, and nothing else is new. */
  ghost predicate KernelMapped(v0: View, v1: View, m: nat, ks: seq<nat>, j: nat)
    requires j <= |ks|
  {
    && (forall g :: g in v0.flat ==> g in v1.flat && v1.flat[g] == v0.flat[g])
    && (forall g :: g in v0.owner ==> g in v1.owner && v1.owner[g] == v0.owner[g])
    && (forall g :: g in v1.owner && g !in v0.owner ==> g.sp == m && v1.owner[g] in ks[..j])
    && (forall i, p: nat :: 0 <= i < j && ks[i] in v0.vmas && Covers(v0.vmas[ks[i]], p) ==>
          Page(m, p) in v1.owner && v1.owner[Page(m, p)] == ks[i])
  }

  /** A list that holds the first j elements of ks, last first. */
  predicate Reversed(lst: seq<nat>, ks: seq<nat>, j: nat)
  {
    j <= |ks| && |lst| == j && forall i :: 0 <= i < j ==> lst[i] == ks[j - 1 - i]
  }

  lemma ReversedFacts(lst: seq<nat>, ks: seq<nat>, j: nat)
    requires Reversed(lst, ks, j) && NoDup(ks)
    ensures NoDup(lst) && (forall a :: a in lst <==> a in ks[..j])
    ensures j < |ks| ==> Reversed([ks[j]] + lst, ks, j + 1) && ks[j] !in ks[..j]
  {
    forall a | a in ks[..j]
      ensures a in lst
    {
      var i :| 0 <= i < j && ks[i] == a;
      assert lst[j - 1 - i] == a;
    }
  }

  /** The pages of the next kernel area are not mapped in the new space yet. */
  lemma NextAreaIsFree(v0: View, v1: View, m: nat, ks: seq<nat>, j: nat, p: nat)
    requires Lists(v0) && Owned(v0) && Owned(v1)
    requires ks == v0.areas[KERNEL] && j < |ks| && m !in v0.areas && Bumped(v0.vmas, v1.vmas, ks, j)
    requires KernelMapped(v0, v1, m, ks, j) && Covers(v0.vmas[ks[j]], p)
    ensures Page(m, p) !in v1.flat
    ensures Page(KERNEL, p) in v1.owner && v1.owner[Page(KERNEL, p)] == ks[j]
  {
    hide Covers, VmaOk, Counted, Bumped;
    assert SpaceOk(v0, KERNEL);
    assert ks[j] in v0.areas[KERNEL] && Complete(v0, KERNEL, ks[j]);
    if Page(m, p) in v1.flat { NewPageOwner(v0, v1, m, ks, j, p); }
  }

  /** A page new in the space belongs to one of the areas shared so far, and so does its kernel page. */
  lemma NewPageOwner(v0: View, v1: View, m: nat, ks: seq<nat>, j: nat, p: nat)
    requires Lists(v0) && Owned(v0) && Owned(v1) && Page(m, p) in v1.flat && m !in v0.areas
    requires ks == v0.areas[KERNEL] && j <= |ks| && Bumped(v0.vmas, v1.vmas, ks, j) && KernelMapped(v0, v1, m, ks, j)
    ensures Page(KERNEL, p) in v0.owner && v0.owner[Page(KERNEL, p)] in ks[..j]
  {
    hide Covers, VmaOk, Counted;
    var g := Page(m, p);
    assert SpaceOk(v0, KERNEL) && g !in v0.owner;
    var b := v1.owner[g];
    var i :| 0 <= i < j && ks[i] == b;
    assert b in v0.areas[KERNEL] && Complete(v0, KERNEL, b) && Covers(v1.vmas[b], p);
    SameMeaning(v0.vmas[b], v1.vmas[b], p, 0);
  }

  lemma KernelMappedStep(v0: View, v1: View, v2: View, m: nat, ks: seq<nat>, j: nat)
    requires j < |ks| && KernelMapped(v0, v1, m, ks, j) && ks[j] in v0.vmas
    requires v1.owner.Keys == v1.flat.Keys && v2.owner.Keys == v2.flat.Keys
    requires forall p: nat :: Covers(v0.vmas[ks[j]], p) ==> Page(m, p) !in v1.flat
    requires Grown(v1, v2, m, ks[j], FirstPage(v0.vmas[ks[j]]), v0.vmas[ks[j]].pages)
    ensures KernelMapped(v0, v2, m, ks, j + 1)
  {
    hide PageNo;
    assert ks[..j + 1] == ks[..j] + [ks[j]];
    forall i, p: nat | 0 <= i < j + 1 && ks[i] in v0.vmas && Covers(v0.vmas[ks[i]], p)
      ensures Page(m, p) in v2.owner && v2.owner[Page(m, p)] == ks[i]
    {
      if i == j {
        assert Page(m, p) in v2.flat && Page(m, p) !in v1.owner;
      }
    }
  }

  lemma BumpedStep(vmas0: map<nat, Vma>, vmas1: map<nat, Vma>, ks: seq<nat>, j: nat)
    requires j < |ks| && Bumped(vmas0, vmas1, ks, j) && ks[j] in vmas0 && ks[j] !in ks[..j]
    ensures Bumped(vmas0, vmas1[ks[j] := vmas1[ks[j]].(refcnt := vmas1[ks[j]].refcnt + 1)], ks, j + 1)
  {
    assert ks[..j + 1] == ks[..j] + [ks[j]];
  }

  /** When all kernel areas are shared, the new space is in order and every count is right. */
  lemma ListsAfterNew(v0: View, v1: View, m: nat, lst: seq<nat>)
    requires Lists(v0) && Owned(v0) && Owned(v1) && m !in v0.areas
    requires v1.areas == v0.areas[m := lst]
    requires var ks := v0.areas[KERNEL];
      Reversed(lst, ks, |ks|) && Bumped(v0.vmas, v1.vmas, ks, |ks|) && KernelMapped(v0, v1, m, ks, |ks|)
    ensures Lists(v1)
  {
    hide VmaOk, Covers, Owned, Bumped, KernelMapped, SpaceOk, Counted;
    var ks := v0.areas[KERNEL];
    assert SpaceOk(v0, KERNEL);
    assert ks[..|ks|] == ks;
    assert |v1.areas| == |v0.areas| + 1 by { assert v1.areas.Keys == v0.areas.Keys + {m}; }
    forall t | t in v1.areas
      ensures SpaceOk(v1, t)
    {
      if t == m {
        NewSpaceOk(v0, v1, m, lst);
      } else {
        assert SpaceOk(v0, t);
        OldSpaceOk(v0, v1, m, t);
      }
    }
    CountedAfterNew(v0, v1, m, lst);
  }

  lemma OldSpaceOk(v0: View, v1: View, m: nat, t: nat)
    requires Owned(v0) && Owned(v1) && t in v0.areas && KERNEL in v0.areas && m !in v0.areas && SpaceOk(v0, t)
    requires m in v1.areas && v1.areas == v0.areas[m := v1.areas[m]]
    requires var ks := v0.areas[KERNEL]; Bumped(v0.vmas, v1.vmas, ks, |ks|) && KernelMapped(v0, v1, m, ks, |ks|)
    ensures SpaceOk(v1, t)
  {
    hide VmaOk, Covers;
    SpaceTransfer(v0, v1, t);
  }

  lemma NewSpaceOk(v0: View, v1: View, m: nat, lst: seq<nat>)
    requires Owned(v0) && Owned(v1) && KERNEL in v0.areas && m !in v0.areas && SpaceOk(v0, KERNEL)
    requires v1.areas == v0.areas[m := lst]
    requires var ks := v0.areas[KERNEL];
      Reversed(lst, ks, |ks|) && Bumped(v0.vmas, v1.vmas, ks, |ks|) && KernelMapped(v0, v1, m, ks, |ks|)
    ensures SpaceOk(v1, m)
  {
    hide VmaOk, Covers;
    var ks := v0.areas[KERNEL];
    ReversedFacts(lst, ks, |ks|);
    assert ks[..|ks|] == ks;
    forall a | a in lst
      ensures a in v1.vmas && VmaOk(v1.vmas[a]) && Complete(v1, m, a)
    {
      var i :| 0 <= i < |ks| && ks[i] == a;
      SameOkay(v0.vmas[a], v1.vmas[a]);
      forall p: nat | Covers(v1.vmas[a], p)
        ensures Page(m, p) in v1.owner && v1.owner[Page(m, p)] == a
      {
        SameMeaning(v0.vmas[a], v1.vmas[a], p, 0);
        assert Covers(v0.vmas[ks[i]], p);
      }
    }
    forall g | g in v1.owner && g.sp == m
      ensures v1.owner[g] in lst
    {
      assert g !in v0.owner;
    }
  }

  lemma SameOkay(a: Vma, b: Vma)
    requires SameArea(a, b)
    ensures VmaOk(a) == VmaOk(b)
  {
  }

  lemma CountedAfterNew(v0: View, v1: View, m: nat, lst: seq<nat>)
    requires KERNEL in v0.areas && Counted(v0) && m !in v0.areas && |v1.areas| == |v0.areas| + 1
    requires SpaceOk(v0, KERNEL)
    requires v1.areas == v0.areas[m := lst]
    requires var ks := v0.areas[KERNEL]; Reversed(lst, ks, |ks|) && Bumped(v0.vmas, v1.vmas, ks, |ks|)
    ensures Counted(v1)
  {
    hide VmaOk, Covers, Complete, NoDup;
    var ks := v0.areas[KERNEL];
    assert NoDup(ks);
    ReversedFacts(lst, ks, |ks|);
    assert ks[..|ks|] == ks;
    forall s, a | s in v1.areas && a in v1.areas[s] && a in v1.vmas && v1.vmas[a].kind.Reg?
      ensures v1.vmas[a].refcnt == 1 && s != m
    {
      assert a !in ks;
    }
    forall s, t, a | s in v1.areas && t in v1.areas && a in v1.areas[s] && a in v1.areas[t] && a in v1.vmas &&
      v1.vmas[a].kind.Reg?
      ensures s == t
    {
      assert a !in ks;
    }
  }
}
