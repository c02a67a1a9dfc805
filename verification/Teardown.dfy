/** What freeing an address space must achieve (src/mm/vmm.c, lines 224-245, 299-314, 450-477). */
module Teardown {
  import opened Pmm
  import opened PageTables
  import opened Views

  /** v1 is v0 without the first i pages of a range of space s. */
  ghost predicate Shrunk(v0: View, v1: View, s: nat, first: nat, i: nat)
  {
    && (forall g :: g in v1.flat <==> g in v0.flat && !(g.sp == s && first <= g.v < first + i))
    && (forall g :: g in v1.flat ==> v1.flat[g] == v0.flat[g])
    && (forall g :: g in v1.owner ==> g in v0.owner && v1.owner[g] == v0.owner[g])
  }

  /** Apart from space s, which may have lost frames, nothing has changed. */
  ghost predicate Withdrawn(v0: View, v1: View, s: nat)
  {
    && OnlySpace(v0.slots, v1.slots, s) && HomesKept(v0.home, v1.home, s)
    && v1.client <= v0.client && SameOn(v0.mem, v1.mem, v1.client)
  }

  lemma WithdrawnStep(v0: View, v1: View, v2: View, s: nat)
    requires Withdrawn(v0, v1, s) && Withdrawn(v1, v2, s)
    ensures Withdrawn(v0, v2, s)
  {
  }

  lemma WithdrawnStart(v: View, s: nat, first: nat)
    ensures Withdrawn(v, v, s) && Shrunk(v, v, s, first, 0)
  {
  }

  lemma ShrunkStep(v0: View, v1: View, v2: View, s: nat, first: nat, i: nat)
    requires Shrunk(v0, v1, s, first, i)
    requires v2.flat == v1.flat - {Page(s, first + i)} && v2.owner == v1.owner - {Page(s, first + i)}
    ensures Shrunk(v0, v2, s, first, i + 1)
  {
  }

  lemma HomeDropped(h: map<nat, Page>, f: nat, s: nat)
    requires f in h && h[f].sp == s
    ensures HomesKept(h, h - {f}, s)
  {
  }

  /** The next page of an area is still mapped, by that area. */
  lemma NextIsThere(v0: View, v: View, s: nat, a: nat, i: nat)
    requires Core(v) && a in v0.vmas && i < v0.vmas[a].pages && Complete(v0, s, a) && v0.owner.Keys == v0.flat.Keys
    requires Shrunk(v0, v, s, FirstPage(v0.vmas[a]), i)
    ensures var g := Page(s, FirstPage(v0.vmas[a]) + i); g in v.flat && g in v.owner && v.owner[g] == a
  {
    hide PageNo, Homes, Shared, Flagged;
    var g := Page(s, FirstPage(v0.vmas[a]) + i);
    assert Covers(v0.vmas[a], g.v);
    assert g in v0.owner;
  }

  /** Space m has lost the pages of the first j areas of its list. */
  ghost predicate TornPages(v0: View, v: View, m: nat, ls: seq<nat>, j: nat)
    requires j <= |ls|
  {
    && (forall g :: g in v.flat <==> g in v0.flat && g in v0.owner && !(g.sp == m && v0.owner[g] in ls[..j]))
    && (forall g :: g in v.flat ==> v.flat[g] == v0.flat[g])
    && (forall g :: g in v.owner ==> g in v0.owner && v.owner[g] == v0.owner[g])
  }

  /** The first j areas of a list have lost a reference; the regular ones, which had one, are freed. */
  ghost predicate TornAreas(vmas0: map<nat, Vma>, vmas: map<nat, Vma>, ls: seq<nat>, j: nat)
    requires j <= |ls|
  {
    && (forall a :: a in vmas <==> a in vmas0 && !(a in ls[..j] && vmas0[a].kind.Reg?))
    && (forall a :: a in vmas ==>
          vmas[a] == if a in ls[..j] then vmas0[a].(refcnt := vmas0[a].refcnt - 1) else vmas0[a])
  }

  ghost predicate Torn(v0: View, v: View, m: nat, ls: seq<nat>, j: nat)
    requires j <= |ls|
  {
    TornPages(v0, v, m, ls, j) && TornAreas(v0.vmas, v.vmas, ls, j)
  }

  lemma TornStart(v: View, m: nat, ls: seq<nat>)
    requires v.owner.Keys == v.flat.Keys
    ensures Torn(v, v, m, ls, 0)
  {
  }

  /** The next area is whole: listed once, still there, all its pages mapped by it. */
  lemma NextAreaIsWhole(v0: View, v: View, m: nat, ls: seq<nat>, j: nat)
    requires Core(v0) && Core(v) && KERNEL in v0.areas && m in v0.areas && SpaceOk(v0, m) && ls == v0.areas[m]
    requires j < |ls|
    requires Torn(v0, v, m, ls, j)
    ensures ls[j] in v0.vmas && ls[j] in v.vmas && v.vmas[ls[j]] == v0.vmas[ls[j]] && ls[j] !in ls[..j]
    ensures VmaOk(v.vmas[ls[j]]) && Complete(v, m, ls[j])
  {
    hide VmaOk, Covers, Homes, Shared, Flagged;
    assert ls[j] in v0.areas[m] && Complete(v0, m, ls[j]);
    assert ls[j] !in ls[..j];
    forall p: nat | Covers(v.vmas[ls[j]], p)
      ensures Page(m, p) in v.owner && v.owner[Page(m, p)] == ls[j]
    {
      assert Page(m, p) in v0.owner && Page(m, p) in v.flat;
    }
  }

  /** One area is gone: its pages in v1, its reference (or the whole area) in v2. */
  lemma TornStep(v0: View, v: View, v1: View, v2: View, m: nat, ls: seq<nat>, j: nat)
    requires Core(v0) && Core(v) && Core(v1) && KERNEL in v0.areas && m in v0.areas && SpaceOk(v0, m)
    requires ls == v0.areas[m] && j < |ls| && Torn(v0, v, m, ls, j)
    requires ls[j] in v.vmas && ls[j] in v0.vmas && v.vmas[ls[j]] == v0.vmas[ls[j]] && ls[j] !in ls[..j]
    requires Complete(v, m, ls[j]) && v1.vmas == v.vmas
    requires Shrunk(v, v1, m, FirstPage(v.vmas[ls[j]]), v.vmas[ls[j]].pages)
    requires v2.flat == v1.flat && v2.owner == v1.owner
    requires var a := ls[j];
      if v.vmas[a].kind.Reg? then v2.vmas == v1.vmas - {a}
      else v2.vmas == v1.vmas[a := v1.vmas[a].(refcnt := v1.vmas[a].refcnt - 1)]
    ensures Torn(v0, v2, m, ls, j + 1)
  {
    hide VmaOk, Homes, Shared, Flagged, PageNo, SpaceOk, TornPages, TornAreas, Shrunk, Covers;
    TornPagesStep(v0, v, v1, m, ls, j);
    assert TornPages(v0, v2, m, ls, j + 1) by { SameTornPages(v0, v1, v2, m, ls, j + 1); }
    TornAreasStep(v0.vmas, v.vmas, v2.vmas, ls, j);
  }

  lemma SameTornPages(v0: View, v1: View, v2: View, m: nat, ls: seq<nat>, j: nat)
    requires j <= |ls| && TornPages(v0, v1, m, ls, j) && v2.flat == v1.flat && v2.owner == v1.owner
    ensures TornPages(v0, v2, m, ls, j)
  {
  }

  lemma TornAreasStep(vmas0: map<nat, Vma>, vmas1: map<nat, Vma>, vmas2: map<nat, Vma>, ls: seq<nat>, j: nat)
    requires j < |ls| && TornAreas(vmas0, vmas1, ls, j) && ls[j] in vmas1 && ls[j] in vmas0 && ls[j] !in ls[..j]
    requires var a := ls[j];
      if vmas1[a].kind.Reg? then vmas2 == vmas1 - {a} else vmas2 == vmas1[a := vmas1[a].(refcnt := vmas1[a].refcnt - 1)]
    ensures TornAreas(vmas0, vmas2, ls, j + 1)
  {
    assert ls[..j + 1] == ls[..j] + [ls[j]];
  }

  lemma TornPagesStep(v0: View, v: View, v1: View, m: nat, ls: seq<nat>, j: nat)
    requires Owned(v0) && Owned(v) && Owned(v1) && j < |ls| && TornPages(v0, v, m, ls, j)
    requires ls[j] in v.vmas && ls[j] !in ls[..j] && Complete(v, m, ls[j])
    requires Shrunk(v, v1, m, FirstPage(v.vmas[ls[j]]), v.vmas[ls[j]].pages)
    ensures TornPages(v0, v1, m, ls, j + 1)
  {
    hide PageNo, Complete, Owned;
    forall g
      ensures g in v1.flat <==> g in v0.flat && g in v0.owner && !(g.sp == m && v0.owner[g] in ls[..j + 1])
    {
      TornPage(v0, v, v1, m, ls, j, g);
    }
  }

  lemma TornPage(v0: View, v: View, v1: View, m: nat, ls: seq<nat>, j: nat, g: Page)
    requires Owned(v0) && Owned(v) && j < |ls| && TornPages(v0, v, m, ls, j)
    requires ls[j] in v.vmas && ls[j] !in ls[..j] && Complete(v, m, ls[j])
    requires Shrunk(v, v1, m, FirstPage(v.vmas[ls[j]]), v.vmas[ls[j]].pages)
    ensures g in v1.flat <==> g in v0.flat && g in v0.owner && !(g.sp == m && v0.owner[g] in ls[..j + 1])
  {
    hide PageNo;
    var a := ls[j];
    assert ls[..j + 1] == ls[..j] + [a];
    if g in v.flat {
      assert Covers(v.vmas[a], g.v) ==> Page(m, g.v) in v.owner && v.owner[Page(m, g.v)] == a;
      assert g.sp == m ==> g == Page(m, g.v);
    }
  }

  lemma NoOwnerLeft(v: View, s: nat, a: nat, v1: View)
    requires Core(v) && a in v.vmas && v.vmas[a].kind.Reg? && Complete(v, s, a)
    requires forall g :: g in v.owner && v.owner[g] == a ==> g.sp == s
    requires Owned(v1) && Shrunk(v, v1, s, FirstPage(v.vmas[a]), v.vmas[a].pages) && v1.vmas == v.vmas
    ensures forall g :: g in v1.owner ==> v1.owner[g] != a
  {
    hide PageNo, Homes, Shared, Flagged;
  }

  /** Once every area is gone nothing of the space is mapped, and the rest is as before. */
  lemma TornApart(v0: View, v: View, m: nat)
    requires Core(v0) && Lists(v0) && m in v0.areas && Torn(v0, v, m, v0.areas[m], |v0.areas[m]|)
    ensures forall g :: g in v.flat <==> g in v0.flat && g.sp != m
    ensures forall g :: g in v.flat ==> v.flat[g] == v0.flat[g]
  {
    hide Covers, VmaOk, Homes, Shared, Flagged;
    assert SpaceOk(v0, m);
    assert v0.areas[m][..|v0.areas[m]|] == v0.areas[m];
  }

  lemma ListsAfterFree(v0: View, v1: View, m: nat)
    requires Core(v0) && Lists(v0) && Owned(v1) && m in v0.areas && m != KERNEL
    requires Torn(v0, v1, m, v0.areas[m], |v0.areas[m]|) && v1.areas == v0.areas - {m}
    ensures Lists(v1)
  {
    hide Covers, VmaOk, Homes, Shared, Flagged, SpaceOk, Counted, Torn;
    assert SpaceOk(v0, m);
    TornApart(v0, v1, m);
    assert |v1.areas| == |v0.areas| - 1 by { assert v1.areas.Keys == v0.areas.Keys - {m}; }
    forall t | t in v1.areas
      ensures SpaceOk(v1, t)
    {
      assert SpaceOk(v0, t);
      SpaceStays(v0, v1, m, t);
    }
    CountedAfterFree(v0, v1, m);
  }

  lemma SpaceStays(v0: View, v1: View, m: nat, t: nat)
    requires Core(v0) && Owned(v1) && KERNEL in v0.areas && m in v0.areas && m != KERNEL && t in v0.areas && t != m
    requires SpaceOk(v0, t) && Counted(v0)
    requires Torn(v0, v1, m, v0.areas[m], |v0.areas[m]|) && v1.areas == v0.areas - {m}
    ensures SpaceOk(v1, t)
  {
    hide Covers, VmaOk, Homes, Shared, Flagged, TornPages, Owned;
    var ls := v0.areas[m];
    assert ls[..|ls|] == ls;
    assert forall a :: a in v0.areas[t] && a in v0.vmas ==> a in v1.vmas && SameArea(v0.vmas[a], v1.vmas[a]);
    PagesStay(v0, v1, m, t);
    SpaceTransfer(v0, v1, t);
  }

  lemma PagesStay(v0: View, v1: View, m: nat, t: nat)
    requires Owned(v0) && Owned(v1) && m in v0.areas && t != m && TornPages(v0, v1, m, v0.areas[m], |v0.areas[m]|)
    ensures forall g: Page :: g.sp == t ==> (g in v1.owner <==> g in v0.owner)
    ensures forall g: Page :: g.sp == t && g in v0.owner ==> v1.owner[g] == v0.owner[g]
  {
    hide Covers;
  }

  lemma KernelListed(v: View, m: nat)
    requires KERNEL in v.areas && m in v.areas && SpaceOk(v, m)
    ensures forall a :: a in v.areas[KERNEL] ==> a in v.areas[m]
  {
  }

  lemma CountedAfterFree(v0: View, v1: View, m: nat)
    requires KERNEL in v0.areas && m in v0.areas && m != KERNEL && Counted(v0) && SpaceOk(v0, m)
    requires Torn(v0, v1, m, v0.areas[m], |v0.areas[m]|) && v1.areas == v0.areas - {m} && |v1.areas| == |v0.areas| - 1
    ensures Counted(v1)
  {
    hide SpaceOk, Torn, RegularKept;
    RegularCounted(v0, v1, m);
    KernelListed(v0, m);
    KernelDropped(v0, v1, m);
    RegularAlone(v0, v1, m);
  }

  lemma RegularAlone(v0: View, v1: View, m: nat)
    requires KERNEL in v0.areas && Counted(v0) && v1.areas == v0.areas - {m}
    requires forall s, a :: s in v1.areas && a in v1.areas[s] && a in v1.vmas && v1.vmas[a].kind.Reg? ==>
      RegularKept(v0, v1, s, a)
    ensures forall s, a :: s in v1.areas && a in v1.areas[s] && a in v1.vmas && v1.vmas[a].kind.Reg? ==>
      v1.vmas[a].refcnt == 1
    ensures forall s, t, a ::
      (s in v1.areas && t in v1.areas && a in v1.areas[s] && a in v1.areas[t] && a in v1.vmas && v1.vmas[a].kind.Reg?)
      ==> s == t
  {
    forall s, t, a | s in v1.areas && t in v1.areas && a in v1.areas[s] && a in v1.areas[t] && a in v1.vmas &&
      v1.vmas[a].kind.Reg?
      ensures s == t
    {
      assert RegularKept(v0, v1, s, a) && RegularKept(v0, v1, t, a);
    }
  }

  /** A regular area that another space lists is as it was. */
  ghost predicate RegularKept(v0: View, v1: View, s: nat, a: nat)
  {
    && s in v0.areas && a in v0.areas[s] && a in v0.vmas && a in v1.vmas
    && v1.vmas[a] == v0.vmas[a]
  }

  lemma RegularCounted(v0: View, v1: View, m: nat)
    requires KERNEL in v0.areas && m in v0.areas && m != KERNEL && Counted(v0)
    requires Torn(v0, v1, m, v0.areas[m], |v0.areas[m]|) && v1.areas == v0.areas - {m}
    ensures forall s, a :: s in v1.areas && a in v1.areas[s] && a in v1.vmas && v1.vmas[a].kind.Reg? ==>
      RegularKept(v0, v1, s, a)
  {
    hide TornPages;
    var ls := v0.areas[m];
    assert ls[..|ls|] == ls;
    forall s, a | s in v1.areas && a in v1.areas[s] && a in v1.vmas && v1.vmas[a].kind.Reg?
      ensures RegularKept(v0, v1, s, a)
    {
      assert a in v0.areas[s];
    }
  }

  lemma KernelDropped(v0: View, v1: View, m: nat)
    requires KERNEL in v0.areas && m in v0.areas && m != KERNEL && Counted(v0)
    requires forall a :: a in v0.areas[KERNEL] ==> a in v0.areas[m]
    requires Torn(v0, v1, m, v0.areas[m], |v0.areas[m]|) && v1.areas == v0.areas - {m} && |v1.areas| == |v0.areas| - 1
    ensures forall a :: a in v1.areas[KERNEL] && a in v1.vmas ==> v1.vmas[a].refcnt == |v1.areas| - 1
  {
    hide TornPages;
    var ls := v0.areas[m];
    assert ls[..|ls|] == ls;
    forall a | a in v1.areas[KERNEL] && a in v1.vmas
      ensures v1.vmas[a].refcnt == |v1.areas| - 1
    {
      assert a in v0.areas[KERNEL] && a in ls;
    }
  }

  // ---------- frames of other spaces ----------

  /** The frames, of tables and of data, that belong to spaces other than s. */
  ghost function Foreign(v: View, s: nat): set<nat>
  {
    (set f | f in v.tables && v.tables[f].sp != s) + (set f | f in v.home && v.home[f].sp != s)
  }

  /** Table frames are those that the entries of the trees name. */
  lemma ForeignKept(v0: View, v1: View, s: nat)
    requires TablesOk(v0.slots, v0.tables) && TablesOk(v1.slots, v1.tables)
    requires OnlySpace(v0.slots, v1.slots, s) && HomesKept(v0.home, v1.home, s)
    ensures Foreign(v0, s) == Foreign(v1, s)
  {
    hide FrameOf;
    forall f
      ensures (f in v0.tables && v0.tables[f].sp != s) <==> (f in v1.tables && v1.tables[f].sp != s)
    {
      if f in v0.tables && v0.tables[f].sp != s { assert v0.tables[f] in v1.slots; }
      if f in v1.tables && v1.tables[f].sp != s { assert v1.tables[f] in v0.slots; }
    }
  }

  /** A space without pages owns no frame: every allocated frame belongs to another space. */
  lemma AllForeign(v: View, s: nat)
    requires Core(v) && v.live == v.client + v.tables.Keys
    requires (forall f :: f in v.tables ==> v.tables[f].sp != s) && (forall g :: g in v.flat ==> g.sp != s)
    ensures Foreign(v, s) == v.live
  {
    hide Covers, FrameOf, Shared, Flagged;
  }
}
