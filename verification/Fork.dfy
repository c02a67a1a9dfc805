/** What duplicating an address space must achieve (src/mm/vmm.c, lines 316-333 and 424-448). */
module Fork {
  import opened Bytes
  import opened PageTables
  import opened Views

  /**
   * The frames of the first i pages of a range were copied from space src to space dst, and no
   * other frame changed.
   */
  ghost predicate Copied(v: View, m1: seq<Frame>, dst: nat, src: nat, first: nat, i: nat)
  {
    && |m1| == |v.mem|
    && (forall p: nat :: first <= p < first + i && Page(dst, p) in v.flat && Page(src, p) in v.flat ==>
          var fd, fs := FrameOf(v.flat[Page(dst, p)]), FrameOf(v.flat[Page(src, p)]);
          fd < |m1| && fs < |m1| && m1[fd] == v.mem[fs])
    && (forall f :: 0 <= f < |m1| && !(f in v.home && v.home[f].sp == dst && first <= v.home[f].v < first + i) ==>
          m1[f] == v.mem[f])
  }

  /** A regular page of a space: its frame is its own. */
  ghost predicate RegularAt(v: View, s: nat, p: nat)
  {
    Page(s, p) in v.flat && RegularPage(v, Page(s, p))
  }

  /** A regular page owns a frame inside memory. */
  lemma RegularFrame(v: View, s: nat, p: nat)
    requires Core(v) && RegularAt(v, s, p) && (forall f :: f in v.client ==> f < |v.mem|)
    ensures var f := FrameOf(v.flat[Page(s, p)]); f in v.client && f < |v.mem| && f in v.home && v.home[f] == Page(s, p)
  {
    hide FrameOf, Covers;
    assert Private(v, Page(s, p));
  }

  lemma CopyStep(v: View, m1: seq<Frame>, m2: seq<Frame>, dst: nat, src: nat, first: nat, i: nat)
    requires Core(v) && dst != src && (forall f :: f in v.client ==> f < |v.mem|)
    requires forall p: nat :: first <= p < first + i + 1 ==> RegularAt(v, dst, p) && RegularAt(v, src, p)
    requires Copied(v, m1, dst, src, first, i)
    requires RegularAt(v, dst, first + i) && RegularAt(v, src, first + i)
    requires var fd, fs := FrameOf(v.flat[Page(dst, first + i)]), FrameOf(v.flat[Page(src, first + i)]);
      fd < |m1| && fs < |m1| && m2 == m1[fd := m1[fs]]
    ensures Copied(v, m2, dst, src, first, i + 1)
  {
    hide FrameOf, Core;
    var q := first + i;
    RegularFrame(v, dst, q);
    RegularFrame(v, src, q);
    var fd, fs := FrameOf(v.flat[Page(dst, q)]), FrameOf(v.flat[Page(src, q)]);
    assert m1[fs] == v.mem[fs];
    forall p: nat | first <= p < first + i + 1 && Page(dst, p) in v.flat && Page(src, p) in v.flat
      ensures var gd, gs := FrameOf(v.flat[Page(dst, p)]), FrameOf(v.flat[Page(src, p)]);
        gd < |m2| && gs < |m2| && m2[gd] == v.mem[gs]
    {
      RegularFrame(v, dst, p);
      RegularFrame(v, src, p);
    }
  }

  /** An area of the source whose pages the duplicate already has. */
  predicate Done(v0: View, ls: seq<nat>, i: nat, a: nat)
    requires i <= |ls|
  {
    a in v0.vmas && (!v0.vmas[a].kind.Reg? || a in ls[..i])
  }

  /** The page of the duplicate is what the page of the source calls for. */
  ghost predicate Twin(v0: View, v: View, m: nat, n: nat, p: nat)
    requires Page(m, p) in v0.flat && Page(m, p) in v0.owner && v0.owner[Page(m, p)] in v0.vmas && Page(n, p) in v.flat
  {
    var a := v0.vmas[v0.owner[Page(m, p)]];
    var f0, f := FrameOf(v0.flat[Page(m, p)]), FrameOf(v.flat[Page(n, p)]);
    if a.kind.Reg? then
      // a frame of its own, newly allocated, with the same bytes, and an entry with the same flags
      && f !in v0.live && f in v.client && f < |v.mem| && f0 < |v0.mem| && v.mem[f] == v0.mem[f0]
      && EntryFor(v.flat[Page(n, p)], a) && RegularAt(v, n, p)
    else
      f == f0
  }

  /** Space n, absent in v0, duplicates the kernel areas and the first i areas of space m. */
  ghost predicate Forked(v0: View, v: View, m: nat, n: nat, ls: seq<nat>, i: nat)
    requires i <= |ls|
  {
    && (forall g :: g in v0.flat ==> g in v.flat && v.flat[g] == v0.flat[g])
    && (forall g :: g in v0.owner ==> g in v.owner && v.owner[g] == v0.owner[g])
    && (forall g :: g in v.flat && g !in v0.flat ==> g.sp == n)
    && (forall p: nat :: Page(n, p) in v.flat <==>
          Page(m, p) in v0.flat && Page(m, p) in v0.owner && Done(v0, ls, i, v0.owner[Page(m, p)]))
    && (forall p: nat ::
          (Page(n, p) in v.flat && Page(m, p) in v0.flat && Page(m, p) in v0.owner && v0.owner[Page(m, p)] in v0.vmas)
          ==> Twin(v0, v, m, n, p))
    && (forall a :: a in v0.vmas ==> a in v.vmas && SameArea(v0.vmas[a], v.vmas[a]))
  }

  /** A new space, which has just the kernel areas, is a duplicate of no regular area yet. */
  lemma ForkStart(v0: View, v: View, m: nat, n: nat)
    requires Core(v0) && Core(v) && KERNEL in v0.areas && m in v0.areas && SpaceOk(v0, m) && SpaceOk(v0, KERNEL)
    requires n !in v0.areas
    requires var ks := v0.areas[KERNEL]; Bumped(v0.vmas, v.vmas, ks, |ks|) && KernelMapped(v0, v, n, ks, |ks|)
    ensures Forked(v0, v, m, n, v0.areas[m], 0)
  {
    hide FrameOf, Covers, VmaOk, EntryFor, Homes, Flagged, SpaceOk;
    var ks := v0.areas[KERNEL];
    assert ks[..|ks|] == ks;
    forall p: nat
      ensures Page(n, p) in v.flat <==>
        Page(m, p) in v0.flat && Page(m, p) in v0.owner && Done(v0, v0.areas[m], 0, v0.owner[Page(m, p)])
    {
      SharedPage(v0, v, m, n, p);
    }
    forall p: nat | Page(n, p) in v.flat && Page(m, p) in v0.flat && Page(m, p) in v0.owner &&
      v0.owner[Page(m, p)] in v0.vmas
      ensures Twin(v0, v, m, n, p)
    {
      SharedPage(v0, v, m, n, p);
    }
  }

  lemma SharedPage(v0: View, v: View, m: nat, n: nat, p: nat)
    requires Core(v0) && Core(v) && KERNEL in v0.areas && m in v0.areas && SpaceOk(v0, m) && SpaceOk(v0, KERNEL)
    requires n !in v0.areas
    requires var ks := v0.areas[KERNEL]; Bumped(v0.vmas, v.vmas, ks, |ks|) && KernelMapped(v0, v, n, ks, |ks|)
    ensures Page(n, p) in v.flat <==>
      Page(m, p) in v0.flat && !v0.vmas[v0.owner[Page(m, p)]].kind.Reg?
    ensures Page(n, p) in v.flat ==> FrameOf(v.flat[Page(n, p)]) == FrameOf(v0.flat[Page(m, p)])
  {
    hide FrameOf, Covers, VmaOk, EntryFor, Homes, Flagged;
    var ks := v0.areas[KERNEL];
    assert ks[..|ks|] == ks;
    var g, h := Page(n, p), Page(m, p);
    if g in v.flat {
      assert g !in v0.owner;
      var b := v.owner[g];
      assert b in ks && b in v0.areas[m] && Covers(v.vmas[b], p);
      SameMeaning(v0.vmas[b], v.vmas[b], p, 0);
      assert Complete(v0, m, b);
    }
    if h in v0.flat && !v0.vmas[v0.owner[h]].kind.Reg? {
      var b := v0.owner[h];
      assert b in v0.areas[m] && b in ks;
      var i :| 0 <= i < |ks| && ks[i] == b;
      assert Covers(v0.vmas[ks[i]], p);
      assert g in v.owner && v.owner[g] == b;
      assert Page(KERNEL, p) in v0.owner;
    }
  }

  /** The pages of the next regular area are not mapped in the duplicate yet. */
  lemma NextIsUnmapped(v0: View, v: View, m: nat, n: nat, ls: seq<nat>, i: nat, p: nat)
    requires Core(v0) && KERNEL in v0.areas && m in v0.areas && SpaceOk(v0, m)
    requires ls == v0.areas[m] && i < |ls| && Forked(v0, v, m, n, ls, i)
    requires ls[i] in v0.vmas && v0.vmas[ls[i]].kind.Reg? && Covers(v0.vmas[ls[i]], p)
    ensures Page(n, p) !in v.flat && Page(m, p) in v0.owner && v0.owner[Page(m, p)] == ls[i]
  {
    hide FrameOf, Covers, VmaOk, Twin, Homes, Shared, Flagged;
    assert ls[i] in v0.areas[m] && Complete(v0, m, ls[i]);
    assert ls[i] !in ls[..i];
  }

  /** An area of a kernel kind adds nothing. */
  lemma SkipStep(v0: View, v: View, m: nat, n: nat, ls: seq<nat>, i: nat)
    requires i < |ls| && Forked(v0, v, m, n, ls, i) && ls[i] in v0.vmas && !v0.vmas[ls[i]].kind.Reg?
    ensures Forked(v0, v, m, n, ls, i + 1)
  {
    hide Twin, SameArea;
    assert ls[..i + 1] == ls[..i] + [ls[i]];
  }

  /** A regular area is mapped afresh as area b in the duplicate (v1), then copied (v2). */
  lemma CopyAreaStep(v0: View, v: View, v1: View, v2: View, m: nat, n: nat, ls: seq<nat>, i: nat, b: nat)
    requires Core(v0) && KERNEL in v0.areas && m in v0.areas && SpaceOk(v0, m) && n !in v0.areas
    requires ls == v0.areas[m] && i < |ls| && Forked(v0, v, m, n, ls, i)
    requires ls[i] in v0.vmas && v0.vmas[ls[i]].kind.Reg?
    requires Core(v) && Core(v1) && Isolated(v0, v, n) && (forall f :: f in v1.client ==> f < |v1.mem|)
    requires (forall f :: f in v0.client ==> f < |v0.mem|)
    requires var a := v0.vmas[ls[i]];
      && Grown(v, v1, n, b, FirstPage(a), a.pages) && FreshPages(v, v1) && Isolated(v, v1, n)
      && b !in v.vmas && v1.vmas == v.vmas[b := Vma(1, Reg, a.start, a.pages, a.user, a.prot)]
      && v2 == v1.(mem := v2.mem) && Copied(v1, v2.mem, n, m, FirstPage(a), a.pages)
    ensures Forked(v0, v2, m, n, ls, i + 1)
  {
    hide FrameOf, Core, VmaOk, EntryFor, Copied, SpaceOk, Grown, FreshPages, Isolated, Twin, Covers, FirstPage;
    assert ls[..i + 1] == ls[..i] + [ls[i]];
    var a := v0.vmas[ls[i]];
    forall p: nat | Covers(a, p)
      ensures Page(n, p) !in v.flat && Page(n, p) in v2.flat && Page(m, p) in v0.owner && Page(m, p) in v0.flat
      ensures v0.owner[Page(m, p)] == ls[i] && Twin(v0, v2, m, n, p)
    {
      NextIsUnmapped(v0, v, m, n, ls, i, p);
      NewTwin(v0, v, v1, v2, m, n, a, b, p);
    }
    forall p: nat | !Covers(a, p)
      ensures Page(n, p) in v2.flat <==> Page(n, p) in v.flat
      ensures Page(m, p) in v0.owner ==> v0.owner[Page(m, p)] != ls[i]
    {
      OutsideArea(v0, v, v1, m, n, ls[i], b, p);
    }
    forall p: nat | Page(n, p) in v.flat && Page(m, p) in v0.flat && Page(m, p) in v0.owner &&
      v0.owner[Page(m, p)] in v0.vmas
      ensures Page(n, p) in v2.flat && Twin(v0, v2, m, n, p)
    {
      OldTwin(v0, v, v1, v2, m, n, a, b, p);
    }
    KeptPages(v0, v, v1, v2, n, a, b);
  }

  lemma KeptPages(v0: View, v: View, v1: View, v2: View, n: nat, a: Vma, b: nat)
    requires Grown(v, v1, n, b, FirstPage(a), a.pages) && v2 == v1.(mem := v2.mem)
    requires v1.vmas == v.vmas[b := Vma(1, Reg, a.start, a.pages, a.user, a.prot)] && b !in v.vmas
    ensures forall g :: g in v.flat ==> g in v2.flat && v2.flat[g] == v.flat[g]
    ensures forall g :: g in v.owner ==> g in v2.owner && v2.owner[g] == v.owner[g]
    ensures forall g :: g in v2.flat && g !in v.flat ==> g.sp == n
    ensures forall c :: c in v.vmas ==> c in v2.vmas && v2.vmas[c] == v.vmas[c]
  {
  }

  lemma OutsideArea(v0: View, v: View, v1: View, m: nat, n: nat, x: nat, b: nat, p: nat)
    requires Core(v0) && x in v0.vmas && !Covers(v0.vmas[x], p)
    requires Grown(v, v1, n, b, FirstPage(v0.vmas[x]), v0.vmas[x].pages)
    ensures Page(n, p) in v1.flat <==> Page(n, p) in v.flat
    ensures Page(m, p) in v0.owner ==> v0.owner[Page(m, p)] != x
  {
    hide PageNo, Homes, Shared, Flagged;
  }

  /** A page just mapped and copied. */
  lemma NewTwin(v0: View, v: View, v1: View, v2: View, m: nat, n: nat, a: Vma, b: nat, p: nat)
    requires Core(v0) && Core(v1) && m != n && Covers(a, p) && a.kind.Reg?
    requires Page(m, p) in v0.owner && v0.owner[Page(m, p)] in v0.vmas && v0.vmas[v0.owner[Page(m, p)]] == a
    requires Page(n, p) !in v.flat && Core(v)
    requires (forall g :: g in v0.flat ==> g in v.flat && v.flat[g] == v0.flat[g])
    requires (forall g :: g in v0.owner ==> g in v.owner && v.owner[g] == v0.owner[g])
    requires Grown(v, v1, n, b, FirstPage(a), a.pages) && FreshPages(v, v1)
    requires Isolated(v0, v, n) && Isolated(v, v1, n) && (forall f :: f in v0.client ==> f < |v0.mem|)
    requires b in v1.vmas && v1.vmas[b] == Vma(1, Reg, a.start, a.pages, a.user, a.prot)
    requires v2 == v1.(mem := v2.mem) && Copied(v1, v2.mem, n, m, FirstPage(a), a.pages)
    ensures Page(m, p) in v0.flat && Page(n, p) in v2.flat && Twin(v0, v2, m, n, p)
  {
    hide FrameOf, PageNo, Core, EntryFor, Grown, FreshPages, Isolated, Copied, Covers, RegularAt;
    NewLeaf(v, v1, n, a, b, p);
    NewBytes(v0, v, v1, v2, m, n, a, b, p);
    RegularAgain(v1, v2, n, p);
  }

  lemma RegularAgain(v1: View, v2: View, n: nat, p: nat)
    requires RegularAt(v1, n, p) && v2 == v1.(mem := v2.mem)
    ensures RegularAt(v2, n, p)
  {
  }

  /** The new page is a regular one, with the flags of the area. */
  lemma NewLeaf(v: View, v1: View, n: nat, a: Vma, b: nat, p: nat)
    requires Core(v) && Core(v1) && Covers(a, p) && Page(n, p) !in v.flat
    requires Grown(v, v1, n, b, FirstPage(a), a.pages)
    requires b in v1.vmas && v1.vmas[b] == Vma(1, Reg, a.start, a.pages, a.user, a.prot)
    ensures Page(n, p) in v1.flat && RegularAt(v1, n, p) && EntryFor(v1.flat[Page(n, p)], a)
  {
    hide FrameOf, PageNo, Homes, Shared, EntryFor;
    var g := Page(n, p);
    assert g in v1.flat && g in v1.owner && v1.owner[g] == b;
    EntrySame(v1.flat[g], v1.vmas[b], a);
  }

  /** It has a new frame with the bytes of the page it duplicates. */
  lemma NewBytes(v0: View, v: View, v1: View, v2: View, m: nat, n: nat, a: Vma, b: nat, p: nat)
    requires Core(v0) && m != n && Covers(a, p) && a.kind.Reg? && Page(n, p) !in v.flat && Page(n, p) in v1.flat
    requires Page(m, p) in v0.owner && v0.owner[Page(m, p)] in v0.vmas && v0.vmas[v0.owner[Page(m, p)]] == a
    requires (forall g :: g in v0.flat ==> g in v.flat && v.flat[g] == v0.flat[g])
    requires Grown(v, v1, n, b, FirstPage(a), a.pages) && FreshPages(v, v1)
    requires Isolated(v0, v, n) && Isolated(v, v1, n) && (forall f :: f in v0.client ==> f < |v0.mem|)
    requires v2 == v1.(mem := v2.mem) && Copied(v1, v2.mem, n, m, FirstPage(a), a.pages)
    ensures Page(m, p) in v0.flat
    ensures var f0, f := FrameOf(v0.flat[Page(m, p)]), FrameOf(v1.flat[Page(n, p)]);
      f !in v0.live && f in v1.client && f < |v2.mem| && f0 < |v0.mem| && v2.mem[f] == v0.mem[f0]
  {
    hide FrameOf, PageNo, ZeroFrame, Homes, Shared, Flagged, OnlySpace, HomesKept;
    assert RegularAt(v0, m, p);
    RegularFrame(v0, m, p);
    assert v1.flat[Page(m, p)] == v0.flat[Page(m, p)];
    var f0 := FrameOf(v0.flat[Page(m, p)]);
    assert v1.mem[f0] == v0.mem[f0];
  }

  lemma EntrySame(e: nat, a: Vma, b: Vma)
    requires EntryFor(e, a) && a.prot == b.prot && a.user == b.user
    ensures EntryFor(e, b)
  {
  }

  /** A page duplicated earlier stays as it is. */
  lemma OldTwin(v0: View, v: View, v1: View, v2: View, m: nat, n: nat, a: Vma, b: nat, p: nat)
    requires Core(v) && Core(v1) && Page(n, p) in v.flat
    requires Page(m, p) in v0.flat && Page(m, p) in v0.owner && v0.owner[Page(m, p)] in v0.vmas && Twin(v0, v, m, n, p)
    requires Grown(v, v1, n, b, FirstPage(a), a.pages)
    requires forall q: nat :: Covers(a, q) ==> Page(n, q) !in v.flat
    requires Isolated(v, v1, n)
    requires b !in v.vmas && b in v1.vmas && v1.vmas == v.vmas[b := v1.vmas[b]]
    requires v2 == v1.(mem := v2.mem) && Copied(v1, v2.mem, n, m, FirstPage(a), a.pages)
    ensures Page(n, p) in v2.flat && Twin(v0, v2, m, n, p)
  {
    hide FrameOf, PageNo, Core, EntryFor, Isolated, Copied;
    var g := Page(n, p);
    assert v1.flat[g] == v.flat[g];
    assert !Covers(a, p);
    if v0.vmas[v0.owner[Page(m, p)]].kind.Reg? {
      OldRegular(v, v1, n, a, b, p);
      OldBytes(v, v1, v2, m, n, a, p);
    }
  }

  lemma OldRegular(v: View, v1: View, n: nat, a: Vma, b: nat, p: nat)
    requires Core(v) && RegularAt(v, n, p) && Grown(v, v1, n, b, FirstPage(a), a.pages)
    requires b !in v.vmas && b in v1.vmas && v1.vmas == v.vmas[b := v1.vmas[b]]
    ensures RegularAt(v1, n, p)
  {
    hide Homes, Shared, Flagged, Covers, PageNo;
  }

  lemma OldBytes(v: View, v1: View, v2: View, m: nat, n: nat, a: Vma, p: nat)
    requires Core(v1) && Page(n, p) in v.flat && Page(n, p) in v1.flat && v1.flat[Page(n, p)] == v.flat[Page(n, p)]
    requires RegularAt(v1, n, p) && !Covers(a, p) && FrameOf(v.flat[Page(n, p)]) in v.client && Isolated(v, v1, n)
    requires v2 == v1.(mem := v2.mem) && Copied(v1, v2.mem, n, m, FirstPage(a), a.pages)
    requires FrameOf(v.flat[Page(n, p)]) < |v.mem|
    ensures var f := FrameOf(v.flat[Page(n, p)]); f in v1.client && f < |v2.mem| && v2.mem[f] == v.mem[f]
  {
    hide FrameOf, PageNo, Shared, Flagged, OnlySpace, HomesKept;
    var f := FrameOf(v.flat[Page(n, p)]);
    assert Private(v1, Page(n, p)) && v1.home[f] == Page(n, p);
  }
}
