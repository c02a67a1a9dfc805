/** Loading an ELF segment into an address space (src/fs/exec.c, lines 15-23). */
module Exec {
  import opened Bytes
  import opened Pmm
  import opened PageTables
  import opened Counts
  import opened Paging
  import opened Views
  import opened Fork
  import opened Fill
  import opened Vmm
  import opened Rights

  /** The fields of `Elf64_Phdr` that matter here. */
  datatype Phdr = Phdr(offset: nat, vaddr: nat, filesz: nat, memsz: nat)

  function Extra(ph: Phdr): nat { ph.vaddr % PAGE_SIZE }

  function SegmentPages(ph: Phdr): nat { DivCeil(ph.memsz + Extra(ph), PAGE_SIZE) }

  /** The area that holds the segment: whole pages, readable, for the user. */
  function SegmentArea(ph: Phdr): Vma
  {
    Vma(1, Reg, Masked(ph.vaddr), SegmentPages(ph), true, 1)
  }

  /** The pages of the segment in space m. */
  ghost function SegmentAt(m: nat, ph: Phdr): (pages: set<Page>)
  {
    Stretch(m, FirstPage(SegmentArea(ph)), SegmentPages(ph))
  }

  /** The byte that the processor reads at a virtual address: a walk of present entries, then the frame. */
  function VirtByte(mem: seq<Frame>, p4: nat, virt: nat): Option<byte>
  {
    var f := FrameOf(Walk(mem, p4, PageNo(virt)));
    if Allowed(mem, p4, PagePath(PageNo(virt)), 0) && f < |mem| then Some(mem[f][virt % PAGE_SIZE]) else None
  }

  /** Byte i of a virtual range. */
  function ReadAt(mem: seq<Frame>, p4: nat, base: nat, i: nat): Option<byte> { VirtByte(mem, p4, base + i) }

  /** The range holds the file's bytes from `delta` on, then zeros. */
  ghost predicate Loaded(mem: seq<Frame>, p4: nat, elf: seq<byte>, ph: Phdr, delta: nat)
  {
    && delta + ph.filesz <= |elf|
    && (forall i: nat :: i < ph.memsz ==>
          ReadAt(mem, p4, ph.vaddr, i) == Some(if i < ph.filesz then elf[delta + i] else 0))
  }

  /** The pages that hold an address from `vaddr` to the last one of the segment. */
  predicate InSegment(ph: Phdr, p: nat)
  {
    var first := ph.vaddr / 4096 % 0x10_0000_0000;
    first <= p && (p - first) * 4096 < ph.vaddr % 4096 + ph.memsz
  }

  /** Present and for programs, who may not write. */
  predicate ForPrograms(e: nat)
  {
    Bit(e, 0) && !Bit(e, 1) && Bit(e, 2)
  }

  lemma SegmentIsCovered(ph: Phdr, p: nat)
    ensures Covers(SegmentArea(ph), p) <==> InSegment(ph, p)
  {
    var n := ph.memsz + Extra(ph);
    assert Masked(ph.vaddr) / PAGE_SIZE == ph.vaddr / PAGE_SIZE;
    assert n <= SegmentPages(ph) * PAGE_SIZE < n + PAGE_SIZE;
  }

  lemma OffsetInArea(a: Vma, j: nat)
    requires VmaOk(a) && j < a.pages * PAGE_SIZE
    ensures PageNo(a.start + j) == FirstPage(a) + j / PAGE_SIZE && (a.start + j) % PAGE_SIZE == j % PAGE_SIZE
  {
    hide PageNo;
    var k, o := j / PAGE_SIZE, j % PAGE_SIZE;
    PageOfOffset(a, k);
    SamePageNo(a.start + PAGE_SIZE * k, o);
  }

  lemma SamePageNo(base: nat, o: nat)
    requires base % PAGE_SIZE == 0 && o < PAGE_SIZE
    ensures PageNo(base + o) == PageNo(base) && (base + o) % PAGE_SIZE == o
  {
    assert (base + o) / PAGE_SIZE == base / PAGE_SIZE;
  }

  lemma SegmentFits(ph: Phdr, i: nat)
    requires i < ph.memsz
    ensures Masked(ph.vaddr) + (Extra(ph) + i) == ph.vaddr + i && Extra(ph) + i < SegmentPages(ph) * PAGE_SIZE
  {
  }

  /**
   * `map_segment` into a range where nothing is mapped. Reading the segment back through the page
   * tables gives file bytes up to the file size and zeros from there to the memory size. The file
   * bytes are the segment's own when its offset and address agree modulo the page size.
   */
  method MapSegment(sp: AddressSpaces, m: nat, elf: seq<byte>, ph: Phdr)
    requires sp.Valid() && sp.Covered() && m in sp.areas && m != KERNEL && ph.filesz <= ph.memsz
    requires Masked(ph.offset) + ph.filesz + Extra(ph) <= |elf|
    requires VmaOk(SegmentArea(ph))
    requires forall p: nat :: Covers(SegmentArea(ph), p) ==> Page(m, p) !in sp.mapper.flat
    requires sp.mapper.Room(SegmentPages(ph), sp.mapper.flat.Keys + SegmentAt(m, ph))
    modifies sp, sp.mapper, sp.mapper.pmm, sp.mapper.pmm.ram
    ensures sp.Valid() && sp.Covered() && m in sp.areas && m in sp.mapper.p4 && Isolated(old(sp.V()), sp.V(), m)
    ensures forall g :: g in sp.mapper.flat <==> g in old(sp.mapper.flat) || (g.sp == m && InSegment(ph, g.v))
    ensures forall p: nat :: InSegment(ph, p) ==>
      Page(m, p) in sp.mapper.flat && ForPrograms(sp.mapper.flat[Page(m, p)])
    ensures forall p: nat :: InSegment(ph, p) && Carried(old(sp.mapper.slots), m, LowestTable(p), 2) ==>
      Allowed(sp.mapper.pmm.ram[..], sp.mapper.p4[m], PagePath(p), 2)
    ensures Loaded(sp.mapper.pmm.ram[..], sp.mapper.p4[m], elf, ph, Masked(ph.offset) + Extra(ph))
    ensures ph.offset % PAGE_SIZE == ph.vaddr % PAGE_SIZE ==>
      Loaded(sp.mapper.pmm.ram[..], sp.mapper.p4[m], elf, ph, ph.offset)
  {
    hide Mapper.Valid, FrameAllocator.Free, Mapper.Client;
    hide Core, Lists, Isolated, Grown, FreshPages, FilledTo, VmaOk;
    hide PageNo, Masked, Walk, RegularAt, Mapper.WalksAre, Loaded, PhysMapped, Guarded, TablesPresent, Taken, Bit;
    hide InSegment, Carried;
    hide Allowed, PagePath, LowestTable, Mapper.Room, TableNodes, Stretch;
    var addr := Masked(ph.vaddr);
    var from := Masked(ph.offset);
    var extra := Extra(ph);
    var pages := DivCeil(ph.memsz + extra, PAGE_SIZE);
    ghost var area := SegmentArea(ph);
    ghost var v0 := sp.V();
    KeysInCore(v0);
    sp.mapper.ClientInRam();
    ghost var a := sp.AnonMmap(m, addr, pages, 1, true);
    ghost var v1 := sp.V();
    sp.mapper.ClientInRam();
    SegmentMapped(v0, v1, m, a, area);
    sp.CopyFromBuf(m, elf[from..], addr, ph.filesz + extra, pages) by { VmaOkRange(area); }
    SegmentDone(sp, v0, v1, m, a, ph, elf, from);
    SegmentOffset(ph);
  }

  lemma SegmentDone(sp: AddressSpaces, v0: View, v1: View, m: nat, a: nat, ph: Phdr, elf: seq<byte>, from: nat)
    requires sp.Valid() && m in sp.areas && sp.V() == v1.(mem := sp.V().mem)
    requires var area := SegmentArea(ph); var len := ph.filesz + Extra(ph);
      && Core(v0) && Core(v1) && VmaOk(area) && from + len <= |elf| && v0.client <= v0.live && Isolated(v0, v1, m)
      && Grown(v0, v1, m, a, FirstPage(area), area.pages) && FreshPages(v0, v1)
      && a in v1.vmas && v1.vmas[a] == area && Taken(v0.slots, v1.slots, Flags(1, true))
      && (forall p: nat :: Covers(area, p) ==> Page(m, p) !in v0.flat)
      && FilledTo(v1, sp.V().mem, m, FirstPage(area), area.pages, elf[from..], len, area.pages)
    ensures Isolated(v0, sp.V(), m)
    ensures forall g :: g in sp.mapper.flat <==> g in v0.flat || (g.sp == m && InSegment(ph, g.v))
    ensures forall p: nat :: InSegment(ph, p) ==>
      Page(m, p) in sp.mapper.flat && ForPrograms(sp.mapper.flat[Page(m, p)])
    ensures forall p: nat :: InSegment(ph, p) && Carried(v0.slots, m, LowestTable(p), 2) ==>
      Allowed(sp.V().mem, sp.mapper.p4[m], PagePath(p), 2)
    ensures Loaded(sp.V().mem, sp.mapper.p4[m], elf, ph, from + Extra(ph))
  {
    hide Mapper.Valid, Mapper.Client, Core, Lists, Guarded, TablesPresent, FilledTo, FreshPages, Grown, Isolated, VmaOk;
    hide Covers, Mapper.WalksAre;
    hide FirstPage, Loaded, Allowed, PagePath, Carried, LowestTable, Taken, Bit, InSegment, ForPrograms;
    KeysInCore(v0);
    sp.mapper.WalksAreFlat();
    StillIsolated(v0, v1, sp.V(), m, SegmentArea(ph), elf[from..], ph.filesz + Extra(ph));
    GrownKeys(v0, v1, m, a, SegmentArea(ph));
    forall p: nat ensures Covers(SegmentArea(ph), p) <==> InSegment(ph, p) { SegmentIsCovered(ph, p); }
    forall p: nat | InSegment(ph, p)
      ensures Page(m, p) in sp.mapper.flat && ForPrograms(sp.mapper.flat[Page(m, p)])
      ensures Carried(v0.slots, m, LowestTable(p), 2) ==> Allowed(sp.V().mem, sp.mapper.p4[m], PagePath(p), 2)
    {
      SegmentRights(sp, v0, v1, m, a, SegmentArea(ph), p);
    }
    SegmentBytes(sp, v0, v1, sp.V(), m, a, ph, elf, from);
  }

  /** A page of the segment is for programs, as far as the tables that were there let them through. */
  lemma SegmentRights(sp: AddressSpaces, v0: View, v1: View, m: nat, a: nat, area: Vma, p: nat)
    requires sp.Valid() && m in sp.areas && sp.V() == v1.(mem := sp.V().mem) && v0.owner.Keys == v0.flat.Keys
    requires Grown(v0, v1, m, a, FirstPage(area), area.pages) && Covers(area, p) && Page(m, p) !in v0.flat
    requires a in v1.vmas && v1.vmas[a] == area && Taken(v0.slots, v1.slots, Flags(1, true))
    requires area.prot == 1 && area.user
    ensures Page(m, p) in sp.mapper.flat && ForPrograms(sp.mapper.flat[Page(m, p)])
    ensures Carried(v0.slots, m, LowestTable(p), 2) ==> Allowed(sp.V().mem, sp.mapper.p4[m], PagePath(p), 2)
  {
    hide Mapper.Valid, Core, Lists, Guarded, TablesPresent, FirstPage, Taken, Carried, Allowed, LowestTable, PagePath;
    hide Bit;
    var g := Page(m, p);
    assert g in sp.mapper.flat;
    EntryOfArea(sp.V(), g);
    assert sp.owner[g] == a;
    ThreeBits(1);
    LeafDecides(sp, g, 2);
    sp.mapper.EntryPresent(g);
    LowestIsTable(p);
    if Carried(v0.slots, m, LowestTable(p), 2) {
      CarriedTaken(v0.slots, v1.slots, m, LowestTable(p), Flags(1, true), 2);
    }
  }

  lemma SegmentBytes(sp: AddressSpaces, v0: View, v1: View, v2: View, m: nat, a: nat, ph: Phdr, elf: seq<byte>,
                     from: nat)
    requires sp.Valid() && sp.V() == v2 && m in sp.areas && sp.mapper.WalksAre(sp.mapper.flat)
    requires var area := SegmentArea(ph); var len := ph.filesz + Extra(ph);
      && Core(v1) && VmaOk(area) && from + len <= |elf|
      && Grown(v0, v1, m, a, FirstPage(area), area.pages) && FreshPages(v0, v1)
      && (forall p: nat :: Covers(area, p) ==> Page(m, p) !in v0.flat)
      && v2 == v1.(mem := v2.mem)
      && FilledTo(v1, v2.mem, m, FirstPage(area), area.pages, elf[from..], len, area.pages)
    ensures Loaded(v2.mem, sp.mapper.p4[m], elf, ph, from + Extra(ph))
  {
    hide Mapper.Valid, Mapper.Client, Core, Lists, Guarded, TablesPresent, FilledTo, FreshPages;
    hide Grown, VmaOk, PageNo, Masked, VirtByte;
    var area := SegmentArea(ph);
    var extra := Extra(ph);
    forall i: nat | i < ph.memsz
      ensures ReadAt(v2.mem, sp.mapper.p4[m], ph.vaddr, i) ==
        Some(if i < ph.filesz then elf[from + extra + i] else 0)
    {
      SegmentFits(ph, i);
      var j := extra + i;
      SegmentByte(sp, v0, v1, v2, m, a, area, elf[from..], ph.filesz + extra, j);
      assert area.start + j == ph.vaddr + i;
    }
  }

  /** On a segment whose offset and address agree modulo the page size, the file bytes are its own. */
  lemma SegmentOffset(ph: Phdr)
    ensures Masked(ph.offset) + Extra(ph) == ph.offset <==> ph.offset % PAGE_SIZE == ph.vaddr % PAGE_SIZE
  {
  }

  /** All pages of the new area are regular pages, over zeroed frames. */
  lemma SegmentMapped(v0: View, v1: View, m: nat, a: nat, area: Vma)
    requires Core(v1) && Grown(v0, v1, m, a, FirstPage(area), area.pages) && a in v1.vmas && v1.vmas[a] == area
    requires area.kind.Reg?
    requires forall p: nat :: Covers(area, p) ==> Page(m, p) !in v0.flat
    requires v0.owner.Keys == v0.flat.Keys
    ensures forall p: nat :: FirstPage(area) <= p < FirstPage(area) + area.pages ==> RegularAt(v1, m, p)
  {
    hide PageNo, Homes, Shared, Flagged;
    forall p: nat | FirstPage(area) <= p < FirstPage(area) + area.pages
      ensures RegularAt(v1, m, p)
    {
      assert Covers(area, p);
      assert Page(m, p) in v1.flat && Page(m, p) !in v0.owner;
    }
  }

  lemma StillIsolated(v0: View, v1: View, v2: View, m: nat, area: Vma, src: seq<byte>, len: nat)
    requires Core(v0) && Core(v1) && Isolated(v0, v1, m) && FreshPages(v0, v1) && v0.client <= v0.live
    requires forall p: nat :: Covers(area, p) ==> Page(m, p) !in v0.flat
    requires v2 == v1.(mem := v2.mem) && FilledTo(v1, v2.mem, m, FirstPage(area), area.pages, src, len, area.pages)
    ensures Isolated(v0, v2, m)
  {
    hide OnlySpace, FrameOf, Shared, Flagged, ZeroFrame, EntryFor, PageNo, Patched, Chunk;
    assert SameOn(v0.mem, v2.mem, v0.client) by {
      forall f | f in v0.client && f < |v0.mem|
        ensures v2.mem[f] == v1.mem[f]
      {
        if f in v1.home {
          var h := v1.home[f];
          assert h in v1.flat && h == Page(h.sp, h.v);
        }
      }
    }
  }

  lemma GrownKeys(v0: View, v2: View, m: nat, a: nat, area: Vma)
    requires Grown(v0, v2, m, a, FirstPage(area), area.pages)
    ensures forall g :: g in v2.flat <==> g in v0.flat || (g.sp == m && Covers(area, g.v))
  {
    hide PageNo;
  }

  lemma SegmentByte(sp: AddressSpaces, v0: View, v1: View, v2: View, m: nat, a: nat, area: Vma, src: seq<byte>,
                    len: nat, j: nat)
    requires sp.Valid() && sp.V() == v2 && m in sp.areas && sp.mapper.WalksAre(sp.mapper.flat)
    requires Core(v1) && VmaOk(area) && j < area.pages * PAGE_SIZE && len <= |src|
    requires Grown(v0, v1, m, a, FirstPage(area), area.pages) && FreshPages(v0, v1)
    requires forall p: nat :: Covers(area, p) ==> Page(m, p) !in v0.flat
    requires v2 == v1.(mem := v2.mem) && FilledTo(v1, v2.mem, m, FirstPage(area), area.pages, src, len, area.pages)
    ensures VirtByte(v2.mem, sp.mapper.p4[m], area.start + j) == Some(if j < len then src[j] else 0)
  {
    hide Mapper.Valid, Mapper.Client, Core, Lists, Guarded, TablesPresent, FilledTo, PageNo, Walk, FrameOf, VmaOk;
    hide Allowed;
    hide PagePath;
    OffsetInArea(area, j);
    var p := FirstPage(area) + j / PAGE_SIZE;
    var g := Page(m, p);
    assert Covers(area, p);
    assert g in v1.flat && g !in v0.flat;
    FilledByte(v1, v2.mem, m, FirstPage(area), area.pages, src, len, j);
    PageBound(area, p);
    assert Walk(v2.mem, sp.mapper.p4[m], p) == v2.flat[g];
    MappedPresent(sp, g);
  }

  lemma PageBound(area: Vma, p: nat)
    requires VmaOk(area) && Covers(area, p)
    ensures p < PAGES
  {
  }
}
