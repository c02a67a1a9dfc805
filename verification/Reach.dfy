/**
 * Which frames the allocator hands out before it has to touch memory past a limit (src/mm/pmm.c,
 * lines 126-180). The kernel reaches frames through its map of physical memory, which has a limit.
 */
module Reach {
  import opened Bytes
  import opened Pmm

  predicate Below(r: Region, limit: nat)
  {
    Base(r) + r.pages <= limit
  }

  /** A usable frame below the limit such that all regions searched before its own are below it too. */
  ghost predicate InReach(rs: seq<Region>, limit: nat, f: nat)
  {
    f < limit && exists k :: 0 <= k < |rs| && UsableIn(rs[k], f) && AllBelow(rs, k, limit)
  }

  ghost predicate AllBelow(rs: seq<Region>, k: nat, limit: nat)
  {
    forall j :: 0 <= j < k && j < |rs| ==> Below(rs[j], limit)
  }

  ghost function ReachSet(rs: seq<Region>, n: nat, limit: nat): (fs: set<nat>)
    ensures forall f :: f in fs ==> f < limit && f in UsableSet(rs, n)
  {
    set f: nat | f < n && InReach(rs, limit, f)
  }

  /** A search that stops at frame i of region k reads no bitmap past the limit, and the frame is below it. */
  ghost predicate SearchWithin(rs: seq<Region>, k: nat, i: nat, limit: nat)
    requires k < |rs|
  {
    && Base(rs[k]) + i < limit
    && (forall j, b: nat :: 0 <= j < k && b < rs[j].pages ==> BitFrame(rs[j], b) < limit)
    && (forall b: nat :: b <= i ==> BitFrame(rs[k], b) < limit)
  }

  /** The first free frame comes no later than any other free frame. */
  lemma FirstIsFirst(m: seq<Frame>, rs: seq<Region>, live: set<nat>, k: nat, i: nat, k': nat, f: nat)
    requires BitmapInv(m, rs, live) && FirstFree(m, rs, k, i) && k' < |rs| && UsableIn(rs[k'], f) && f !in live
    ensures k <= k' && (k == k' ==> Base(rs[k]) + i <= f)
  {
    hide RegionsOk, RegionBit;
    var i' := f - Base(rs[k']);
    assert BitMeans(m, rs[k'], live, i');
  }

  /** It is not part of a bitmap. */
  lemma FirstIsUsable(m: seq<Frame>, rs: seq<Region>, live: set<nat>, k: nat, i: nat)
    requires BitmapInv(m, rs, live) && FirstFree(m, rs, k, i)
    ensures RegionOk(rs[k], |m|) && BitmapFrames(rs[k]) <= i && UsableIn(rs[k], Base(rs[k]) + i)
    ensures Base(rs[k]) + i !in live && Base(rs[k]) + i < |m|
  {
    hide RegionBit;
    assert RegionOk(rs[k], |m|) && BitMeans(m, rs[k], live, i);
  }

  /** While a frame in reach is free, the allocator hands out one. */
  lemma FirstIsNear(m: seq<Frame>, rs: seq<Region>, live: set<nat>, k: nat, i: nat, limit: nat, f: nat)
    requires BitmapInv(m, rs, live) && FirstFree(m, rs, k, i) && f in ReachSet(rs, |m|, limit) && f !in live
    ensures Base(rs[k]) + i in ReachSet(rs, |m|, limit) && AllBelow(rs, k, limit) && BitmapFrames(rs[k]) <= i
  {
    hide RegionBit, BitMeans, BitmapFrames;
    var k' :| 0 <= k' < |rs| && UsableIn(rs[k'], f) && AllBelow(rs, k', limit);
    FirstIsFirst(m, rs, live, k, i, k', f);
    FirstIsUsable(m, rs, live, k, i);
    assert AllBelow(rs, k, limit) && (k < k' ==> Below(rs[k], limit));
    assert InReach(rs, limit, Base(rs[k]) + i);
  }

  lemma NearIsWithin(m: seq<Frame>, rs: seq<Region>, k: nat, i: nat, limit: nat)
    requires RegionsOk(rs, |m|) && k < |rs| && i < rs[k].pages && AllBelow(rs, k, limit)
    requires BitmapFrames(rs[k]) <= i && Base(rs[k]) + i < limit
    ensures SearchWithin(rs, k, i, limit)
  {
    forall j, b: nat | 0 <= j < k && b < rs[j].pages ensures BitFrame(rs[j], b) < limit {
      assert RegionOk(rs[j], |m|) && Below(rs[j], limit);
      BitmapFits(rs[j], b);
    }
    forall b: nat | b <= i ensures BitFrame(rs[k], b) < limit {
      BitmapFits(rs[k], b);
    }
  }

  /** A search within the limit has passed only regions below it, as far as what is live is in reach. */
  lemma WithinIsNear(m: seq<Frame>, rs: seq<Region>, live: set<nat>, k: nat, i: nat, limit: nat, j: nat)
    requires BitmapInv(m, rs, live) && FirstFree(m, rs, k, i) && live <= ReachSet(rs, |m|, limit)
    requires SearchWithin(rs, k, i, limit) && j < k
    ensures Below(rs[j], limit)
  {
    var last := rs[j].pages - 1;
    assert RegionOk(rs[j], |m|);
    assert RegionBit(m, rs[j], last) && BitMeans(m, rs[j], live, last);
    if last < BitmapFrames(rs[j]) {
      assert rs[j].pages == 1;
      assert BitFrame(rs[j], 0) < limit;
    }
  }

  /** Exactly when an allocation stays within the limit: when a frame in reach is free. */
  lemma AllocWithinIff(m: seq<Frame>, rs: seq<Region>, live: set<nat>, k: nat, i: nat, limit: nat)
    requires BitmapInv(m, rs, live) && FirstFree(m, rs, k, i) && live <= ReachSet(rs, |m|, limit)
    ensures SearchWithin(rs, k, i, limit) <==> ReachSet(rs, |m|, limit) - live != {}
    ensures SearchWithin(rs, k, i, limit) ==> Base(rs[k]) + i in ReachSet(rs, |m|, limit)
  {
    if ReachSet(rs, |m|, limit) - live != {} {
      var f :| f in ReachSet(rs, |m|, limit) - live;
      FirstIsNear(m, rs, live, k, i, limit, f);
      NearIsWithin(m, rs, k, i, limit);
    }
    if SearchWithin(rs, k, i, limit) {
      forall j | 0 <= j < k ensures Below(rs[j], limit) { WithinIsNear(m, rs, live, k, i, limit, j); }
      FirstIsUsable(m, rs, live, k, i);
      assert AllBelow(rs, k, limit);
      assert InReach(rs, limit, Base(rs[k]) + i);
      assert Base(rs[k]) + i in ReachSet(rs, |m|, limit) - live;
    }
  }

  /** In regions listed by address, the frames in reach are all usable frames below the limit. */
  lemma SortedReach(rs: seq<Region>, n: nat, limit: nat, f: nat)
    requires RegionsOk(rs, n) && forall j, k :: 0 <= j < k < |rs| ==> Base(rs[j]) + rs[j].pages <= Base(rs[k])
    ensures f in ReachSet(rs, n, limit) <==> f in UsableSet(rs, n) && f < limit
  {
    if f in UsableSet(rs, n) && f < limit {
      var k :| 0 <= k < |rs| && UsableIn(rs[k], f);
      assert AllBelow(rs, k, limit);
    }
  }

  /** Giving a frame in reach back touches its own region's bitmap, which lies below the frame. */
  lemma ReleaseWithin(rs: seq<Region>, n: nat, limit: nat, f: nat, k: nat)
    requires RegionsOk(rs, n) && f in ReachSet(rs, n, limit) && k < |rs| && UsableIn(rs[k], f)
    ensures BitFrame(rs[k], f - Base(rs[k])) < limit
  {
    assert RegionOk(rs[k], n);
    BitmapFits(rs[k], f - Base(rs[k]));
  }

  /** An allocation that gave this address has read no bitmap past the limit. */
  ghost predicate FoundWithin(m: seq<Frame>, rs: seq<Region>, addr: nat, limit: nat)
  {
    exists k: nat, i: nat ::
      FirstFree(m, rs, k, i) && addr == rs[k].start + i * PAGE_SIZE && SearchWithin(rs, k, i, limit)
  }

  lemma SpareIsFree(rs: seq<Region>, n: nat, limit: nat, live: set<nat>)
    requires ReachSet(rs, n, limit) - live != {}
    ensures UsableSet(rs, n) - live != {}
  {
    var f :| f in ReachSet(rs, n, limit) - live;
    assert f in UsableSet(rs, n) - live;
  }

  lemma FoundIsWithin(m: seq<Frame>, rs: seq<Region>, live: set<nat>, addr: nat, limit: nat)
    requires BitmapInv(m, rs, live)
    requires exists k: nat, i: nat :: FirstFree(m, rs, k, i) && addr == rs[k].start + i * PAGE_SIZE
    requires ReachSet(rs, |m|, limit) - live != {} && live <= ReachSet(rs, |m|, limit)
    ensures FoundWithin(m, rs, addr, limit) && addr / PAGE_SIZE in ReachSet(rs, |m|, limit)
  {
    hide RegionBit, BitMeans, ReachSet, SearchWithin;
    var k: nat, i: nat :| FirstFree(m, rs, k, i) && addr == rs[k].start + i * PAGE_SIZE;
    AllocWithinIff(m, rs, live, k, i, limit);
    assert RegionOk(rs[k], |m|);
    assert addr / PAGE_SIZE == Base(rs[k]) + i;
  }
}
