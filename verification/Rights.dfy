/**
 * What the processor lets a program do with a page: an access needs its right in the entries of all
 * four levels, and `vmm_map_page` gives the tables it makes the flags of the page it makes them for
 * (src/mm/vmm.c, lines 108-136).
 */
module Rights {
  import opened Bytes
  import opened PageTables
  import opened Paging
  import opened Views
  import opened Vmm

  /**
   * The rights of the page that `vmm_map_page` has just mapped: its own flag, and that flag in every
   * table that was there before. New tables take nothing away.
   */
  lemma RightsAfterMap(s0: map<Node, nat>, s1: map<Node, nat>, g: Page, flags: nat, b: nat)
    requires KeepsTables(s0, s1) && TablesTake(s0, s1, flags) && g.v < PAGES && Leaf(g) in s1
    requires Carries(s1[Leaf(g)], flags) && b <= USER
    ensures Carried(s1, g.sp, PagePath(g.v), b) <==> Bit(flags, b) && Carried(s0, g.sp, PagePath(g.v).up, b)
  {
    hide PagePath, Bit, Carries;
    PageOfPagePath(g.v);
    var leaf := PagePath(g.v);
    FlagOf(s1[Leaf(g)], flags, b);
    forall q | Above(q, leaf) ensures q == leaf || (Above(q, leaf.up) && Depth(q) < 4) {
      AboveStep(q, leaf);
      if q != leaf { AboveDepth(q, leaf.up); }
    }
    if Bit(flags, b) && Carried(s0, g.sp, leaf.up, b) {
      forall q | Above(q, leaf) && q.Sub? && Node(g.sp, q) in s1 ensures Bit(s1[Node(g.sp, q)], b) {
        if q != leaf && Node(g.sp, q) !in s0 { FlagOf(s1[Node(g.sp, q)], flags, b); }
      }
    }
    if Carried(s1, g.sp, leaf, b) {
      assert Above(leaf, leaf) && Leaf(g) == Node(g.sp, leaf);
      forall q | Above(q, leaf.up) && q.Sub? && Node(g.sp, q) in s0 ensures Bit(s0[Node(g.sp, q)], b) {
        AboveStep(q, leaf);
        AboveDepth(q, leaf.up);
      }
    }
  }

  /** The right that an area is mapped with. */
  predicate Granted(a: Vma, b: nat)
  {
    if b == WRITE then Bit(a.prot, 1) else a.user
  }

  /** A page's own flags are those of its area; the tables above it decide the rest. */
  lemma AreaRightsIff(sp: AddressSpaces, g: Page, b: nat)
    requires sp.Valid() && g in sp.mapper.flat && (b == WRITE || b == USER)
    ensures g.sp in sp.mapper.p4 && g in sp.owner && sp.owner[g] in sp.vmas
    ensures Allowed(sp.mapper.pmm.ram[..], sp.mapper.p4[g.sp], PagePath(g.v), b) <==>
      Granted(sp.vmas[sp.owner[g]], b) && Carried(sp.mapper.slots, g.sp, LowestTable(g.v), b)
  {
    hide Mapper.Valid, Lists, Core, Allowed, Carried, Guarded, TablesPresent, LowestTable;
    EntryOfArea(sp.V(), g);
    LeafDecides(sp, g, b);
  }

  lemma LeafDecides(sp: AddressSpaces, g: Page, b: nat)
    requires sp.mapper.Valid() && g in sp.mapper.flat && g.sp in sp.mapper.p4
    ensures Allowed(sp.mapper.pmm.ram[..], sp.mapper.p4[g.sp], PagePath(g.v), b) <==>
      Bit(sp.mapper.flat[g], b) && Carried(sp.mapper.slots, g.sp, LowestTable(g.v), b)
  {
    hide Mapper.Valid, PagePath, Allowed, Carried;
    var m := sp.mapper;
    m.TreeFacts();
    m.EntryPresent(g);
    PageOfPagePath(g.v);
    assert Leaf(g) in m.slots && m.slots[Leaf(g)] == m.flat[g];
    AllowedIsCarried(m.pmm.ram[..], m.p4, m.slots, m.tables, g.sp, PagePath(g.v), b);
    CarriedStep(m.slots, g.sp, PagePath(g.v), b);
  }

  /** The flags of a page's entry, bit by bit. */
  lemma EntryOfArea(v: View, g: Page)
    requires Core(v) && g in v.flat
    ensures g.sp in v.areas && g in v.owner && v.owner[g] in v.vmas
    ensures Bit(v.flat[g], 0)
    ensures Bit(v.flat[g], 1) <==> Bit(v.vmas[v.owner[g]].prot, 1)
    ensures Bit(v.flat[g], 2) <==> v.vmas[v.owner[g]].user
  {
    hide Homes, Shared, Covers, Bit;
    var a := v.vmas[v.owner[g]];
    var flags := Flags(a.prot, a.user);
    FlagOf(v.flat[g], flags, 0);
    FlagOf(v.flat[g], flags, 1);
    FlagOf(v.flat[g], flags, 2);
  }

  /** In every valid state every entry of every level is present. */
  lemma AllPresent(sp: AddressSpaces, n: Node)
    requires sp.Valid() && n in sp.mapper.slots && n.path.Sub?
    ensures Bit(sp.mapper.slots[n], 0)
  {
    hide Mapper.Valid, Lists, Core, Guarded, Bit, Consistent, Dense;
    var m := sp.mapper;
    m.TreeFacts();
    if Depth(n.path) >= 4 {
      SlotsOf(m.pmm.ram[..], m.p4, m.slots, m.tables);
      var v := PageAt(n.path);
      assert Leaf(Page(n.sp, v)) == n;
      EntryOfArea(sp.V(), Page(n.sp, v));
    }
  }

  /** The processor finds every mapped page. */
  lemma MappedPresent(sp: AddressSpaces, g: Page)
    requires sp.Valid() && g in sp.mapper.flat
    ensures g.sp in sp.mapper.p4 && Allowed(sp.mapper.pmm.ram[..], sp.mapper.p4[g.sp], PagePath(g.v), 0)
  {
    hide Mapper.Valid, Lists, Core, Guarded, Allowed, PagePath, Bit, TablesPresent;
    EntryOfArea(sp.V(), g);
    LeafDecides(sp, g, 0);
    assert Carried(sp.mapper.slots, g.sp, LowestTable(g.v), 0) by {
      forall q | Above(q, LowestTable(g.v)) && q.Sub? && Node(g.sp, q) in sp.mapper.slots
        ensures Bit(sp.mapper.slots[Node(g.sp, q)], 0)
      {
        AllPresent(sp, Node(g.sp, q));
      }
    }
  }

  /** In every space the kernel may write its own pages, and no program may touch them. */
  lemma KernelRights(sp: AddressSpaces, s: nat, p: nat)
    requires sp.Valid() && s in sp.areas && Page(KERNEL, p) in sp.mapper.flat
    ensures s in sp.mapper.p4 && Page(s, p) in sp.mapper.flat
    ensures Allowed(sp.mapper.pmm.ram[..], sp.mapper.p4[s], PagePath(p), 0)
    ensures Allowed(sp.mapper.pmm.ram[..], sp.mapper.p4[s], PagePath(p), 1)
    ensures !Allowed(sp.mapper.pmm.ram[..], sp.mapper.p4[s], PagePath(p), 2)
  {
    hide Mapper.Valid, Lists, Core, Allowed, PagePath, Bit, Carried, LowestTable;
    var g := Page(s, p);
    KernelEverywhere(sp.V(), s, p);
    KernelOwner(sp.V(), s, p);
    EntryOfArea(sp.V(), g);
    MappedPresent(sp, g);
    LeafDecides(sp, g, 1);
    LeafDecides(sp, g, 2);
  }

  /** A page that the kernel's space maps belongs to a kernel area in every space. */
  lemma KernelOwner(v: View, s: nat, p: nat)
    requires Core(v) && Lists(v) && s in v.areas && Page(KERNEL, p) in v.flat
    ensures Page(s, p) in v.flat && Page(s, p) in v.owner && v.owner[Page(s, p)] in v.areas[KERNEL]
  {
    hide VmaOk, Homes, Shared, Flagged;
    var k := Page(KERNEL, p);
    assert SpaceOk(v, KERNEL) && SpaceOk(v, s) && v.owner[k] in v.areas[KERNEL];
    assert Complete(v, s, v.owner[k]) && Covers(v.vmas[v.owner[k]], p);
  }

  /** New tables with a right take it from no page that had it above. */
  lemma CarriedTaken(s0: map<Node, nat>, s1: map<Node, nat>, s: nat, p: Path, flags: nat, b: nat)
    requires Taken(s0, s1, flags) && Bit(flags, b) && b <= USER && Depth(p) < 4 && Carried(s0, s, p, b)
    ensures Carried(s1, s, p, b)
  {
    hide Bit, Carries;
    forall q | Above(q, p) && q.Sub? && Node(s, q) in s1 ensures Bit(s1[Node(s, q)], b) {
      AboveDepth(q, p);
      if Node(s, q) !in s0 { FlagOf(s1[Node(s, q)], flags, b); }
    }
  }

  // ---------- the order of mappings ----------

  /** The first page of a space makes all tables above it, and they carry its flags. */
  lemma FirstTables(s0: map<Node, nat>, s1: map<Node, nat>, g: Page, flags: nat, b: nat)
    requires TablesTake(s0, s1, flags) && g.v < PAGES && b <= USER && Node(g.sp, PagePath(g.v).up) in s1
    requires forall n :: n in s0 ==> n.sp != g.sp
    ensures Carried(s1, g.sp, PagePath(g.v).up, b) <==> Bit(flags, b)
  {
    hide PagePath, Bit, Carries;
    PageOfPagePath(g.v);
    var up := PagePath(g.v).up;
    assert Depth(up) == 3 && Above(up, up);
    FlagOf(s1[Node(g.sp, up)], flags, b);
    if Bit(flags, b) {
      forall q | Above(q, up) && q.Sub? && Node(g.sp, q) in s1 ensures Bit(s1[Node(g.sp, q)], b) {
        AboveDepth(q, up);
        FlagOf(s1[Node(g.sp, q)], flags, b);
      }
    }
  }

  /** Tables above a page keep their entries, and so does the page: its rights stay. */
  lemma RightsStay(s1: map<Node, nat>, s2: map<Node, nat>, g: Page, p4: map<nat, nat>, b: nat)
    requires KeepsTables(s1, s2) && g.v < PAGES && Leaf(g) in s1 && Leaf(g) in s2 && s2[Leaf(g)] == s1[Leaf(g)]
    requires SlotsOk(p4, s1)
    ensures Carried(s2, g.sp, PagePath(g.v), b) <==> Carried(s1, g.sp, PagePath(g.v), b)
  {
    hide PagePath, Bit;
    PageOfPagePath(g.v);
    var leaf := PagePath(g.v);
    forall q | Above(q, leaf) && q.Sub?
      ensures Node(g.sp, q) in s1 && Node(g.sp, q) in s2 && s2[Node(g.sp, q)] == s1[Node(g.sp, q)]
    {
      AncestorPresent(p4, s1, g.sp, q, leaf);
      if q != leaf {
        AboveStep(q, leaf);
        AboveDepth(q, leaf.up);
      }
    }
  }

  /**
   * Two pages below one table, mapped one after the other into an empty space. The first has the rights
   * it is mapped with. The second has those that the first has too: mapped the other way round, as a
   * duplicate of the space does, the two pages may have other rights.
   */
  method MapTwo(m: Mapper, s: nat, virt: nat, phys: nat, flags: nat, virt': nat, phys': nat, flags': nat)
    requires m.Valid() && s in m.p4 && m.p4[s] == 0 && PageNo(virt) != PageNo(virt')
    requires PagePath(PageNo(virt)).up == PagePath(PageNo(virt')).up
    requires m.Room(0, m.flat.Keys + {Page(s, PageNo(virt)), Page(s, PageNo(virt'))})
    requires 0 < flags < PAGE_SIZE && phys % PAGE_SIZE == 0 && phys + PAGE_SIZE <= WORD_LIMIT
    requires 0 < flags' < PAGE_SIZE && phys' % PAGE_SIZE == 0 && phys' + PAGE_SIZE <= WORD_LIMIT
    modifies m`p4, m`slots, m`tables, m`flat, m.pmm`live, m.pmm.ram
    ensures m.Valid() && s in m.p4
    ensures forall b: nat :: b <= USER ==>
      && (Allowed(m.pmm.ram[..], m.p4[s], PagePath(PageNo(virt)), b) <==> Bit(flags, b))
      && (Allowed(m.pmm.ram[..], m.p4[s], PagePath(PageNo(virt')), b) <==> Bit(flags, b) && Bit(flags', b))
  {
    hide Mapper.Valid, PageNo, PagePath, Allowed, Bit, BitOr, Carries, Taken, Consistent, IsFlat;
    hide OnlySpace, Mapper.Client, Dense, SlotsOk, Carried;
    ghost var g, g' := Page(s, PageNo(virt)), Page(s, PageNo(virt'));
    ghost var both := m.flat.Keys + {g, g'};
    m.Narrow(0, both, 0, m.flat.Keys + {g});
    EntryOf(phys, flags);
    EntryOf(phys', flags');
    ghost var s0 := m.slots;
    NothingThere(m, s);
    m.MapPage(s, virt, phys, flags);
    ghost var s1, f1, p1 := m.slots, m.flat, m.p4;
    m.TreeFacts();
    assert SlotsOk(p1, s1) by { SlotsOf(m.pmm.ram[..], p1, s1, m.tables); }
    assert m.flat.Keys + {g'} == both;
    m.MapPage(s, virt', phys', flags');
    m.TreeFacts();
    forall b: nat | b <= USER
      ensures (Allowed(m.pmm.ram[..], m.p4[s], PagePath(g.v), b) <==> Bit(flags, b))
      ensures (Allowed(m.pmm.ram[..], m.p4[s], PagePath(g'.v), b) <==> Bit(flags, b) && Bit(flags', b))
    {
      TwoRights(s0, p1, s1, f1, m.pmm.ram[..], m.p4, m.slots, m.tables, m.flat, g, g', flags, flags', b);
    }
  }

  lemma SlotsOf(m: seq<Frame>, p4: map<nat, nat>, slots: map<Node, nat>, tables: map<nat, Node>)
    requires Consistent(m, p4, slots, tables)
    ensures SlotsOk(p4, slots)
  {
  }

  lemma EntryOf(phys: nat, flags: nat)
    requires phys % PAGE_SIZE == 0 && phys + PAGE_SIZE <= WORD_LIMIT && flags < PAGE_SIZE
    ensures BitOr(phys, flags) < WORD_LIMIT && Carries(BitOr(phys, flags), flags)
  {
    hide BitOr;
    BitOrKeepsFrame(phys, flags);
  }

  /** A space without a root table has no entry at all. */
  lemma NothingThere(m: Mapper, s: nat)
    requires m.Valid() && s in m.p4 && m.p4[s] == 0
    ensures forall n :: n in m.slots ==> n.sp != s
  {
    hide Mapper.Valid, Mirrors, TablesOk;
    m.TreeFacts();
    NoRoot(m.p4, m.slots, s);
    forall n | n in m.slots ensures n.sp != s {
      RootAbove(n.path);
      AncestorPresent(m.p4, m.slots, n.sp, Root, n.path);
    }
  }

  lemma TwoRights(s0: map<Node, nat>, p1: map<nat, nat>, s1: map<Node, nat>, f1: map<Page, nat>, m: seq<Frame>,
                  p4: map<nat, nat>, s2: map<Node, nat>, tables: map<nat, Node>, f2: map<Page, nat>,
                  g: Page, g': Page, flags: nat, flags': nat, b: nat)
    requires SlotsOk(p1, s1) && IsFlat(s1, f1) && Consistent(m, p4, s2, tables) && IsFlat(s2, f2)
    requires Taken(s0, s1, flags) && Taken(s1, s2, flags')
    requires (forall n :: n in s0 ==> n.sp != g.sp) && g.sp in p4 && g'.sp == g.sp && b <= USER
    requires g in f1 && g in f2 && g' in f2 && f2[g] == f1[g] && Carries(f1[g], flags) && Carries(f2[g'], flags')
    requires PagePath(g.v).up == PagePath(g'.v).up
    ensures Allowed(m, p4[g.sp], PagePath(g.v), b) <==> Bit(flags, b)
    ensures Allowed(m, p4[g.sp], PagePath(g'.v), b) <==> Bit(flags, b) && Bit(flags', b)
  {
    hide PagePath, Bit, Carries, Allowed, KeepsTables, TablesTake, Mirrors, TablesOk, RootsOk;
    PageOfPagePath(g.v);
    PageOfPagePath(g'.v);
    assert Leaf(g) in s1 && Leaf(g) in s2 && Leaf(g') in s2;
    assert Node(g.sp, PagePath(g.v).up) in s1 by { assert Leaf(g).path.up == PagePath(g.v).up; }
    FirstTables(s0, s1, g, flags, b);
    RightsAfterMap(s0, s1, g, flags, b);
    assert Carried(s0, g.sp, PagePath(g.v).up, b);
    RightsStay(s1, s2, g, p1, b);
    RightsAfterMap(s1, s2, g', flags', b);
    AllowedIsCarried(m, p4, s2, tables, g.sp, PagePath(g.v), b);
    AllowedIsCarried(m, p4, s2, tables, g.sp, PagePath(g'.v), b);
  }
}
