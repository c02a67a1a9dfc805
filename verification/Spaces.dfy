/**
 * The whole life of an address space: building it and freeing it gives every frame back
 * (src/mm/vmm.c, lines 247-269, 408-477).
 */
module Spaces {
  import opened Pmm
  import opened PageTables
  import opened Counts
  import opened Paging
  import opened Views
  import opened Fork
  import opened Teardown
  import opened Vmm

  // ---------- frames come back ----------

  /** An anonymous mapping asked for by a program. */
  datatype Request = Request(start: nat, pages: nat, prot: nat)

  function AreaOf(r: Request): Vma { Vma(1, Reg, r.start, r.pages, true, r.prot) }

  function TotalOf(rs: seq<Request>): nat
  {
    if |rs| == 0 then 0 else TotalOf(rs[..|rs| - 1]) + rs[|rs| - 1].pages
  }

  /** Well-formed requests for ranges that are pairwise disjoint and unmapped in space s. */
  ghost predicate RequestsOk(rs: seq<Request>, flat: map<Page, nat>, s: nat)
  {
    && (forall i :: 0 <= i < |rs| ==> VmaOk(AreaOf(rs[i])))
    && (forall i, p: nat :: 0 <= i < |rs| && Covers(AreaOf(rs[i]), p) ==> Page(s, p) !in flat)
    && (forall i, j, p: nat :: 0 <= i < j < |rs| && Covers(AreaOf(rs[i]), p) ==> !Covers(AreaOf(rs[j]), p))
  }

  /** Old pages are kept, and new ones belong to space m. */
  ghost predicate Extends(f0: map<Page, nat>, f1: map<Page, nat>, m: nat)
  {
    && (forall g :: g in f0 ==> g in f1 && f1[g] == f0[g])
    && (forall g :: g in f1 && g !in f0 ==> g.sp == m)
  }

  lemma ExtendsMore(v0: View, v: View, w: View, m: nat, a: nat, first: nat, n: nat)
    requires Extends(v0.flat, v.flat, m) && Grown(v, w, m, a, first, n)
    ensures Extends(v0.flat, w.flat, m)
  {
  }

  /** Space m has the pages of space s in v0 and those of the first i requests. */
  ghost predicate Built(v0: View, v: View, s: nat, m: nat, rs: seq<Request>, i: nat)
    requires i <= |rs|
  {
    forall p: nat :: Page(m, p) in v.flat ==>
      Page(s, p) in v0.flat || exists k :: 0 <= k < i && Covers(AreaOf(rs[k]), p)
  }

  lemma BuiltStep(v0: View, v: View, w: View, s: nat, m: nat, rs: seq<Request>, i: nat, a: nat)
    requires i < |rs| && Built(v0, v, s, m, rs, i) && Grown(v, w, m, a, FirstPage(AreaOf(rs[i])), rs[i].pages)
    ensures Built(v0, w, s, m, rs, i + 1)
  {
    hide PageNo;
    forall p: nat | Page(m, p) in w.flat
      ensures Page(s, p) in v0.flat || exists k :: 0 <= k < i + 1 && Covers(AreaOf(rs[k]), p)
    {
      if Page(m, p) in v.flat {
        if Page(s, p) !in v0.flat {
          var k :| 0 <= k < i && Covers(AreaOf(rs[k]), p);
          assert 0 <= k < i + 1;
        }
      } else {
        assert Covers(AreaOf(rs[i]), p);
      }
    }
  }

  lemma RequestIsFree(v0: View, v: View, s: nat, m: nat, rs: seq<Request>, i: nat)
    requires i < |rs| && RequestsOk(rs, v0.flat, s) && Built(v0, v, s, m, rs, i)
    ensures forall p: nat :: Covers(AreaOf(rs[i]), p) ==> Page(m, p) !in v.flat
  {
    hide Covers, VmaOk;
  }

  /** The pages of the first i requests, in space m. */
  ghost function RequestPages(rs: seq<Request>, i: nat, m: nat): (pages: set<Page>)
    requires i <= |rs|
  {
    if i == 0 then {} else RequestPages(rs, i - 1, m) + Stretch(m, FirstPage(AreaOf(rs[i - 1])), rs[i - 1].pages)
  }

  lemma {:induction false} RequestWithin(rs: seq<Request>, i: nat, j: nat, m: nat)
    requires i <= j <= |rs|
    ensures RequestPages(rs, i, m) <= RequestPages(rs, j, m)
  {
    if i < j { RequestWithin(rs, i, j - 1, m); }
  }

  /** All pages at the end of a life: those before, a copy of the parent's, and the requests. */
  ghost function LifePages(pages: set<Page>, parent: nat, m: nat, rs: seq<Request>): (all: set<Page>)
  {
    pages + Renamed(pages, parent, m) + RequestPages(rs, |rs|, m)
  }

  lemma {:induction false} TotalOfPrefix(rs: seq<Request>, i: nat)
    requires i < |rs|
    ensures TotalOf(rs[..i + 1]) == TotalOf(rs[..i]) + rs[i].pages && TotalOf(rs[..i + 1]) <= TotalOf(rs)
  {
    assert rs[..i + 1][..i] == rs[..i];
    if i + 1 < |rs| {
      TotalOfPrefix(rs[..|rs| - 1], i);
      assert rs[..|rs| - 1][..i + 1] == rs[..i + 1] && rs[..|rs| - 1][..i] == rs[..i];
    } else {
      assert rs[..i + 1] == rs;
    }
  }

  /**
   * The life of a space: made empty (`mm_new`) or as a duplicate (`mm_dupe`), then given any list of
   * mappings, then freed, with memory just large enough for what is mapped at the end. Every frame
   * allocated meanwhile is back, and no other was freed: the set of live frames, tables of all four
   * levels included, and all mappings are exactly as before. As with `mm_free`, the result is false
   * exactly when there is no other user space.
   */
  method Lifetime(sp: AddressSpaces, parent: nat, fork: bool, rs: seq<Request>) returns (ok: bool)
    requires sp.Valid() && sp.Covered() && parent in sp.areas && (!fork ==> parent == KERNEL)
    requires RequestsOk(rs, sp.mapper.flat, parent)
    requires sp.mapper.Room(|RegularPages(sp.V(), parent)| + TotalOf(rs),
      LifePages(sp.mapper.flat.Keys, parent, sp.nextSpace, rs))
    modifies sp, sp.mapper, sp.mapper.pmm, sp.mapper.pmm.ram
    ensures ok <==> |old(sp.areas)| > 1 || old(sp.areas[KERNEL]) == []
    ensures ok ==> sp.Valid() && sp.Covered() && sp.areas == old(sp.areas)
    ensures ok ==> sp.mapper.pmm.live == old(sp.mapper.pmm.live) && sp.mapper.flat == old(sp.mapper.flat)
    ensures ok ==> SameOn(old(sp.mapper.pmm.ram[..]), sp.mapper.pmm.ram[..], sp.mapper.Client())
  {
    hide Mapper.Valid, PhysMapped, Mapper.Client, Mapper.Room, RegularPages, LifePages, Extends;
    hide Core, Lists, Isolated, Foreign, Withdrawn, RequestsOk;
    ghost var v0 := sp.V();
    sp.mapper.TablesAreOk();
    var m := Build(sp, parent, fork, rs);
    NothingIsForeignTo(v0, m);
    ghost var v2 := sp.V();
    sp.mapper.TablesAreOk();
    TablesKept(v0, v2, m);
    MapBack(v0.areas, v2.areas, m);
    ok := sp.MmFree(m);
    if ok { LifeBack(v0, v2, sp.V(), m); }
  }

  /** All of a life but its end. */
  method Build(sp: AddressSpaces, parent: nat, fork: bool, rs: seq<Request>) returns (m: nat)
    requires sp.Valid() && sp.Covered() && parent in sp.areas && (!fork ==> parent == KERNEL)
    requires RequestsOk(rs, sp.mapper.flat, parent)
    requires sp.mapper.Room(|RegularPages(sp.V(), parent)| + TotalOf(rs),
      LifePages(sp.mapper.flat.Keys, parent, sp.nextSpace, rs))
    modifies sp, sp.mapper, sp.mapper.pmm, sp.mapper.pmm.ram
    ensures sp.Valid() && sp.Covered() && m !in old(sp.areas) && m != KERNEL
    ensures m in sp.areas && sp.areas == old(sp.areas)[m := sp.areas[m]] && KERNEL in old(sp.areas)
    ensures Isolated(old(sp.V()), sp.V(), m) && Extends(old(sp.mapper.flat), sp.mapper.flat, m)
  {
    hide Mapper.Valid, PhysMapped, Mapper.Client, TableNodes, RegularPages, LifePages, Extends;
    hide Core, Lists, Isolated, RequestsOk;
    ghost var v0 := sp.V();
    ghost var all := LifePages(sp.mapper.flat.Keys, parent, sp.nextSpace, rs);
    m := Create(sp, parent, fork, TotalOf(rs), all) by { LifeParts(sp.mapper.flat.Keys, parent, sp.nextSpace, rs); }
    MapAll(sp, m, rs, v0, parent, all) by { LifeParts(v0.flat.Keys, parent, m, rs); }
  }

  lemma LifeBack(v0: View, v2: View, v3: View, m: nat)
    requires Core(v0) && Core(v3) && m !in v0.areas && Isolated(v0, v2, m) && Withdrawn(v2, v3, m)
    requires Extends(v0.flat, v2.flat, m)
    requires forall g :: g in v3.flat <==> g in v2.flat && g.sp != m
    requires forall g :: g in v3.flat ==> v3.flat[g] == v2.flat[g]
    ensures v3.flat == v0.flat && SameOn(v0.mem, v3.mem, v3.client)
  {
    hide Core, Isolated, Withdrawn;
    NoPagesOf(v0, m);
    PagesBack(v0.flat, v2.flat, v3.flat, m);
    WholeLife(v0, v2, v3, m);
  }

  lemma LifeParts(pages: set<Page>, parent: nat, m: nat, rs: seq<Request>)
    ensures pages + Renamed(pages, parent, m) <= LifePages(pages, parent, m, rs)
    ensures RequestPages(rs, |rs|, m) <= LifePages(pages, parent, m, rs)
  {
  }

  /** Maps every request. */
  method MapAll(sp: AddressSpaces, m: nat, rs: seq<Request>, ghost v0: View, ghost parent: nat, ghost all: set<Page>)
    requires sp.Valid() && sp.Covered() && m in sp.areas && m != KERNEL && sp.areas == v0.areas[m := sp.areas[m]]
    requires Isolated(v0, sp.V(), m) && RequestsOk(rs, v0.flat, parent)
    requires forall p: nat :: Page(m, p) in sp.mapper.flat <==> Page(parent, p) in v0.flat
    requires Extends(v0.flat, sp.mapper.flat, m)
    requires sp.mapper.Room(TotalOf(rs), all) && sp.mapper.flat.Keys + RequestPages(rs, |rs|, m) <= all
    modifies sp, sp.mapper, sp.mapper.pmm, sp.mapper.pmm.ram
    ensures sp.Valid() && sp.Covered() && m in sp.areas && sp.areas == v0.areas[m := sp.areas[m]]
    ensures Isolated(v0, sp.V(), m)
    ensures sp.areas[KERNEL] == old(sp.areas[KERNEL])
    ensures Extends(v0.flat, sp.mapper.flat, m)
  {
    hide Mapper.Valid, PhysMapped, Mapper.Client, Mapper.WalksAre, TableNodes, RequestPages;
    hide Core, SpaceOk, Counted, Isolated, Built, RequestsOk, VmaOk, Extends;
    BuiltStart(v0, sp.V(), parent, m, rs);
    for i := 0 to |rs|
      invariant sp.Valid() && sp.Covered() && m in sp.areas && sp.areas == v0.areas[m := sp.areas[m]]
      invariant Isolated(v0, sp.V(), m) && Built(v0, sp.V(), parent, m, rs, i)
      invariant Extends(v0.flat, sp.mapper.flat, m)
      invariant |sp.mapper.Client()| == |old(sp.mapper.Client())| + TotalOf(rs[..i]) && sp.mapper.flat.Keys <= all
    {
      RequestIsFree(v0, sp.V(), parent, m, rs, i);
      RequestOk(rs, v0.flat, parent, i);
      TotalOfPrefix(rs, i);
      RequestAt(rs, i, m);
      MapOne(sp, m, rs[i], v0, parent, rs, i, all);
    }
  }

  lemma RequestAt(rs: seq<Request>, i: nat, m: nat)
    requires i < |rs|
    ensures Stretch(m, FirstPage(AreaOf(rs[i])), rs[i].pages) <= RequestPages(rs, |rs|, m)
  {
    RequestWithin(rs, i + 1, |rs|, m);
  }

  method Create(sp: AddressSpaces, parent: nat, fork: bool, ghost extra: nat, ghost all: set<Page>) returns (m: nat)
    requires sp.Valid() && sp.Covered() && parent in sp.areas && (!fork ==> parent == KERNEL)
    requires sp.mapper.Room(|RegularPages(sp.V(), parent)| + extra, all)
    requires sp.mapper.flat.Keys + Renamed(sp.mapper.flat.Keys, parent, sp.nextSpace) <= all
    modifies sp, sp.mapper, sp.mapper.pmm, sp.mapper.pmm.ram
    ensures sp.Valid() && sp.Covered() && m !in old(sp.areas)
    ensures m in sp.areas && sp.areas == old(sp.areas)[m := sp.areas[m]]
    ensures m != KERNEL && KERNEL in sp.areas && m == old(sp.nextSpace)
    ensures Isolated(old(sp.V()), sp.V(), m)
    ensures forall p: nat :: Page(m, p) in sp.mapper.flat <==> Page(parent, p) in old(sp.mapper.flat)
    ensures Extends(old(sp.mapper.flat), sp.mapper.flat, m)
    ensures sp.mapper.Room(extra, all) && sp.mapper.flat.Keys <= all
  {
    hide Mapper.Valid, PhysMapped, Mapper.Client, Mapper.WalksAre, TableNodes, RegularPages;
    hide Core, SpaceOk, Counted, Isolated, Twin, RegTotal, Reversed, Bumped;
    ghost var v0 := sp.V();
    ghost var data := |RegularPages(sp.V(), parent)|;
    ghost var now := sp.mapper.flat.Keys + Renamed(sp.mapper.flat.Keys, parent, sp.nextSpace);
    sp.mapper.Narrow(data + extra, all, data, now);
    sp.mapper.Narrow(data + extra, all, 0, now);
    if fork {
      m := sp.MmDupe(parent);
    } else {
      m := sp.MmNew();
      NewPages(v0, sp.V(), m, v0.areas[KERNEL]);
    }
  }

  lemma NewPages(v0: View, v1: View, m: nat, ks: seq<nat>)
    requires Core(v0) && Core(v1) && KernelMapped(v0, v1, m, ks, |ks|)
    ensures Extends(v0.flat, v1.flat, m)
  {
    hide Covers, Homes, Shared, Flagged;
  }

  method MapOne(sp: AddressSpaces, m: nat, r: Request, ghost v0: View, ghost parent: nat,
                ghost rs: seq<Request>, ghost i: nat, ghost all: set<Page>)
    requires sp.Valid() && sp.Covered() && m in sp.areas && m != KERNEL && sp.areas == v0.areas[m := sp.areas[m]]
    requires i < |rs| && r == rs[i] && Isolated(v0, sp.V(), m) && Built(v0, sp.V(), parent, m, rs, i)
    requires Extends(v0.flat, sp.mapper.flat, m)
    requires VmaOk(AreaOf(r)) && forall p: nat :: Covers(AreaOf(r), p) ==> Page(m, p) !in sp.mapper.flat
    requires sp.mapper.Room(r.pages, all) && sp.mapper.flat.Keys + Stretch(m, FirstPage(AreaOf(r)), r.pages) <= all
    modifies sp, sp.mapper, sp.mapper.pmm, sp.mapper.pmm.ram
    ensures sp.Valid() && sp.Covered() && m in sp.areas && sp.areas == v0.areas[m := sp.areas[m]]
    ensures Isolated(v0, sp.V(), m) && Built(v0, sp.V(), parent, m, rs, i + 1)
    ensures Extends(v0.flat, sp.mapper.flat, m)
    ensures |sp.mapper.Client()| == |old(sp.mapper.Client())| + r.pages && sp.mapper.flat.Keys <= all
  {
    hide Mapper.Valid, PhysMapped, Mapper.Client, Mapper.WalksAre, TableNodes;
    hide Core, Lists, Isolated, FreshPages, Built, VmaOk, PageNo, Extends, Grown;
    ghost var v := sp.V();
    sp.mapper.Narrow(r.pages, all, r.pages, sp.mapper.flat.Keys + Stretch(m, FirstPage(AreaOf(r)), r.pages));
    ghost var a := sp.AnonMmap(m, r.start, r.pages, r.prot, true);
    IsolatedStep(v0, v, sp.V(), m);
    BuiltStep(v0, v, sp.V(), parent, m, rs, i, a);
    ExtendsMore(v0, v, sp.V(), m, a, FirstPage(AreaOf(r)), r.pages);
  }

  lemma BuiltStart(v0: View, v1: View, s: nat, m: nat, rs: seq<Request>)
    requires forall p: nat :: Page(m, p) in v1.flat <==> Page(s, p) in v0.flat
    ensures Built(v0, v1, s, m, rs, 0)
  {
  }

  lemma RequestOk(rs: seq<Request>, flat: map<Page, nat>, s: nat, i: nat)
    requires RequestsOk(rs, flat, s) && i < |rs|
    ensures VmaOk(AreaOf(rs[i]))
  {
  }

  lemma NoPagesOf(v: View, m: nat)
    requires Core(v) && m !in v.areas
    ensures forall g :: g in v.flat ==> g.sp != m
  {
  }

  /** A space that does not exist owns no frame. */
  lemma NothingIsForeignTo(v: View, m: nat)
    requires Core(v) && m !in v.areas && v.live == v.client + v.tables.Keys
    requires forall f :: f in v.tables ==> v.tables[f].sp in v.areas
    ensures Foreign(v, m) == v.live
  {
    hide Homes, Shared, Flagged;
    NoPagesOf(v, m);
    AllForeign(v, m);
  }

  lemma TablesKept(v0: View, v2: View, m: nat)
    requires TablesOk(v0.slots, v0.tables) && TablesOk(v2.slots, v2.tables) && Isolated(v0, v2, m)
    ensures Foreign(v0, m) == Foreign(v2, m)
  {
    ForeignKept(v0, v2, m);
  }

  /** Data frames left at the end were there at the start, and hold what they held. */
  lemma WholeLife(v0: View, v2: View, v3: View, m: nat)
    requires Isolated(v0, v2, m) && Withdrawn(v2, v3, m) && Core(v0) && Core(v3)
    requires forall g :: g in v3.flat ==> g.sp != m
    ensures SameOn(v0.mem, v3.mem, v3.client)
  {
    hide Covers, FrameOf, Shared, Flagged, OnlySpace;
    forall f | f in v3.client
      ensures f in v0.client
    {
      assert v3.home[f] in v3.flat;
    }
  }

  lemma MapBack<T>(a0: map<nat, T>, a1: map<nat, T>, m: nat)
    requires m !in a0 && m in a1 && a1 == a0[m := a1[m]]
    ensures a1 - {m} == a0 && |a1| == |a0| + 1
  {
    assert a1.Keys == a0.Keys + {m};
  }

  lemma PagesBack(f0: map<Page, nat>, f2: map<Page, nat>, f3: map<Page, nat>, m: nat)
    requires Extends(f0, f2, m) && forall g :: g in f0 ==> g.sp != m
    requires forall g :: g in f3 <==> g in f2 && g.sp != m
    requires forall g :: g in f3 ==> f3[g] == f2[g]
    ensures f3 == f0
  {
  }
}
