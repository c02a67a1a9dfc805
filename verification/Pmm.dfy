/**
 * The physical frame allocator (src/mm/pmm.c). The bitmap of a region lives in the first frames
 * of that very region, so it is read from and written to the same memory that is handed out.
 */
module Pmm {
  import opened Bytes

  /** `struct mmap_region`: byte address of the first frame, and number of frames. */
  datatype Region = Region(start: nat, pages: nat)

  function DivCeil(x: nat, y: nat): nat
    requires y > 0
  {
    (x + y - 1) / y
  }

  /** Number of the first frame of a region. */
  function Base(r: Region): nat { r.start / PAGE_SIZE }

  function BitmapBytes(r: Region): nat { (r.pages + 8 - 1) / 8 }

  function BitmapFrames(r: Region): nat { DivCeil(BitmapBytes(r), PAGE_SIZE) }

  /** The frame and the byte inside it that hold bit i of a region's bitmap. */
  function BitFrame(r: Region, i: nat): nat { Base(r) + i / 8 / PAGE_SIZE }

  function BitByte(i: nat): nat { i / 8 % PAGE_SIZE }

  predicate RegionBit(m: seq<Frame>, r: Region, i: nat)
    requires BitFrame(r, i) < |m|
  {
    Bit(m[BitFrame(r, i)][BitByte(i)], i % 8)
  }

  function MarkUsed(m: seq<Frame>, r: Region, i: nat): (m': seq<Frame>)
    requires BitFrame(r, i) < |m|
  {
    var f := m[BitFrame(r, i)];
    m[BitFrame(r, i) := f[BitByte(i) := SetBit(f[BitByte(i)], i % 8)]]
  }

  function MarkFree(m: seq<Frame>, r: Region, i: nat): (m': seq<Frame>)
    requires BitFrame(r, i) < |m|
  {
    var f := m[BitFrame(r, i)];
    m[BitFrame(r, i) := f[BitByte(i) := ClearBit(f[BitByte(i)], i % 8)]]
  }

  // ---------- regions ----------

  predicate RegionOk(r: Region, n: nat)
  {
    r.start % PAGE_SIZE == 0 && r.start > 0 && r.pages > 0 && Base(r) + r.pages <= n
  }

  predicate Disjoint(r: Region, s: Region)
  {
    Base(r) + r.pages <= Base(s) || Base(s) + s.pages <= Base(r)
  }

  /** Aligned, nonempty, pairwise disjoint regions inside n frames, none holding frame 0. */
  ghost predicate RegionsOk(rs: seq<Region>, n: nat)
  {
    && (forall k :: 0 <= k < |rs| ==> RegionOk(rs[k], n))
    && (forall j, k :: 0 <= j < |rs| && 0 <= k < |rs| && j != k ==> Disjoint(rs[j], rs[k]))
  }

  /** A frame that the allocator may hand out: inside the region, past its bitmap. */
  predicate UsableIn(r: Region, f: nat)
  {
    Base(r) + BitmapFrames(r) <= f < Base(r) + r.pages
  }

  ghost predicate Usable(rs: seq<Region>, f: nat)
  {
    exists k :: 0 <= k < |rs| && UsableIn(rs[k], f)
  }

  predicate BitmapIn(r: Region, f: nat)
  {
    Base(r) <= f < Base(r) + BitmapFrames(r)
  }

  ghost predicate IsBitmap(rs: seq<Region>, f: nat)
  {
    exists k :: 0 <= k < |rs| && BitmapIn(rs[k], f)
  }

  ghost function UsableSet(rs: seq<Region>, n: nat): set<nat>
  {
    set f: nat | f < n && Usable(rs, f)
  }

  lemma BitmapFits(r: Region, i: nat)
    requires r.pages > 0
    ensures 1 <= BitmapFrames(r) <= r.pages
    ensures i < r.pages ==> BitmapIn(r, BitFrame(r, i))
    ensures i < BitmapBytes(r) ==> i / PAGE_SIZE < BitmapFrames(r)
  {
  }

  /** The bitmap takes exactly as many frames as its bits need, 8 * 4096 to a frame. */
  lemma BitmapExact(r: Region)
    ensures BitmapFrames(r) * 32768 >= r.pages
    ensures r.pages > 0 ==> (BitmapFrames(r) - 1) * 32768 < r.pages
  {
  }

  /** No frame handed out holds any region's bitmap. */
  lemma UsableIsNotBitmap(rs: seq<Region>, n: nat, f: nat)
    requires RegionsOk(rs, n) && Usable(rs, f)
    ensures !IsBitmap(rs, f) && 0 < f < n
  {
    var k :| 0 <= k < |rs| && UsableIn(rs[k], f);
    BitmapFits(rs[k], 0);
    assert RegionOk(rs[k], n);
    forall j | 0 <= j < |rs|
      ensures !BitmapIn(rs[j], f)
    {
      BitmapFits(rs[j], 0);
      if j != k { assert Disjoint(rs[j], rs[k]); }
    }
  }

  /** Two memories agree on a set of frames. */
  ghost predicate SameOn(m0: seq<Frame>, m1: seq<Frame>, frames: set<nat>)
  {
    |m0| == |m1| && forall f :: f in frames && f < |m0| ==> m1[f] == m0[f]
  }

  lemma SameOnChain(m0: seq<Frame>, m1: seq<Frame>, m2: seq<Frame>, c: set<nat>, d: set<nat>, f: nat)
    requires SameOn(m0, m1, c) && SameOn(m1, m2, d) && c <= d
    ensures SameOn(m0, m2, c)
    ensures f in d && f < |m1| ==> f < |m2| && m2[f] == m1[f]
  {
  }

  // ---------- the bitmap invariant ----------

  lemma LiveIsNotBitmap(m: seq<Frame>, rs: seq<Region>, live: set<nat>)
    requires BitmapInv(m, rs, live)
    ensures forall f :: f in live ==> 0 < f < |m| && !IsBitmap(rs, f)
  {
    forall f | f in live
      ensures 0 < f < |m| && !IsBitmap(rs, f)
    {
      UsableIsNotBitmap(rs, |m|, f);
    }
  }

  /** A frame's bit is set exactly when the frame holds the bitmap or is live. */
  ghost predicate BitmapInv(m: seq<Frame>, rs: seq<Region>, live: set<nat>)
  {
    && RegionsOk(rs, |m|)
    && (forall f :: f in live ==> Usable(rs, f))
    && (forall k, i: nat :: 0 <= k < |rs| && i < rs[k].pages ==>
          BitMeans(m, rs[k], live, i))
  }

  lemma BitSlot(i: nat, j: nat)
    requires i / 8 / PAGE_SIZE == j / 8 / PAGE_SIZE && BitByte(i) == BitByte(j) && i % 8 == j % 8
    ensures i == j
  {
  }

  /** Rewriting the byte of bit i with a byte that differs in that bit only changes one bit. */
  lemma OneBitChanges(m: seq<Frame>, m': seq<Frame>, rs: seq<Region>, k: nat, i: nat, b: byte)
    requires RegionsOk(rs, |m|) && k < |rs| && i < rs[k].pages
    requires BitFrame(rs[k], i) < |m|
    requires m' == m[BitFrame(rs[k], i) := m[BitFrame(rs[k], i)][BitByte(i) := b]]
    requires forall j: nat :: j != i % 8 ==> Bit(b, j) == Bit(m[BitFrame(rs[k], i)][BitByte(i)], j)
    ensures RegionBit(m', rs[k], i) == Bit(b, i % 8)
    ensures forall k', i': nat :: 0 <= k' < |rs| && i' < rs[k'].pages && (k' != k || i' != i) ==>
      BitFrame(rs[k'], i') < |m| && RegionBit(m', rs[k'], i') == RegionBit(m, rs[k'], i')
  {
    BitmapFits(rs[k], i);
    forall k', i': nat | 0 <= k' < |rs| && i' < rs[k'].pages && (k' != k || i' != i)
      ensures BitFrame(rs[k'], i') < |m| && RegionBit(m', rs[k'], i') == RegionBit(m, rs[k'], i')
    {
      BitmapFits(rs[k'], i');
      assert RegionOk(rs[k'], |m|);
      if k' != k {
        assert Disjoint(rs[k'], rs[k]);
        assert BitFrame(rs[k'], i') != BitFrame(rs[k], i);
      } else if i' / 8 / PAGE_SIZE == i / 8 / PAGE_SIZE && BitByte(i') == BitByte(i) {
        if i' % 8 == i % 8 { BitSlot(i, i'); }
      }
    }
  }

  /** Index i of region k is where the allocator's search stops. */
  ghost predicate FirstFree(m: seq<Frame>, rs: seq<Region>, k: nat, i: nat)
  {
    && k < |rs| && i < rs[k].pages
    && (forall k', i': nat :: 0 <= k' <= k && i' < rs[k'].pages && (k' < k || i' <= i) ==>
          BitFrame(rs[k'], i') < |m| && (RegionBit(m, rs[k'], i') <==> k' != k || i' != i))
  }

  /** The meaning of one bit, under a set of live frames. */
  ghost predicate BitMeans(m: seq<Frame>, r: Region, live: set<nat>, i: nat)
  {
    BitFrame(r, i) < |m| && (RegionBit(m, r, i) <==> i < BitmapFrames(r) || Base(r) + i in live)
  }

  lemma SameFrame(rs: seq<Region>, n: nat, k: nat, i: nat, k': nat, i': nat)
    requires RegionsOk(rs, n) && k < |rs| && k' < |rs| && i < rs[k].pages && i' < rs[k'].pages
    requires Base(rs[k]) + i == Base(rs[k']) + i'
    ensures k == k' && i == i'
  {
    var apart := Disjoint(rs[k], rs[k']);
    assert k != k' ==> apart;
  }

  /** The bitmap invariant is kept when the bit of a clear index is set and its frame rewritten. */
  lemma MarkUsedKeepsInv(m: seq<Frame>, rs: seq<Region>, live: set<nat>, k: nat, i: nat, z: Frame)
    requires BitmapInv(m, rs, live) && k < |rs| && i < rs[k].pages
    requires !RegionBit(m, rs[k], i)
    ensures var f := Base(rs[k]) + i;
      f < |m| && f !in live && UsableIn(rs[k], f) &&
      BitmapInv(MarkUsed(m, rs[k], i)[f := z], rs, live + {f})
  {
    var f := Base(rs[k]) + i;
    var m1 := MarkUsed(m, rs[k], i);
    assert RegionOk(rs[k], |m|);
    assert BitMeans(m, rs[k], live, i);
    assert UsableIn(rs[k], f);
    assert BitmapInv(m1, rs, live + {f}) by {
      OneBitChanges(m, m1, rs, k, i, SetBit(m[BitFrame(rs[k], i)][BitByte(i)], i % 8));
      BitsAfterChange(m, m1, rs, live, live + {f}, k, i);
    }
    UsableIsNotBitmap(rs, |m|, f);
    ClientWriteKeepsInv(m1, rs, live + {f}, f, z);
  }

  lemma MarkFreeKeepsInv(m: seq<Frame>, rs: seq<Region>, live: set<nat>, k: nat, f: nat)
    requires BitmapInv(m, rs, live) && k < |rs| && f in live && UsableIn(rs[k], f)
    ensures BitFrame(rs[k], f - Base(rs[k])) < |m|
    ensures BitmapInv(MarkFree(m, rs[k], f - Base(rs[k])), rs, live - {f})
  {
    var i := f - Base(rs[k]);
    var m1 := MarkFree(m, rs[k], i);
    OneBitChanges(m, m1, rs, k, i, ClearBit(m[BitFrame(rs[k], i)][BitByte(i)], i % 8));
    BitsAfterChange(m, m1, rs, live, live - {f}, k, i);
  }

  /** If one bit and the liveness of its frame change together, every bit keeps its meaning. */
  lemma BitsAfterChange(m: seq<Frame>, m1: seq<Frame>, rs: seq<Region>, live: set<nat>, live1: set<nat>,
                        k: nat, i: nat)
    requires BitmapInv(m, rs, live) && k < |rs| && BitmapFrames(rs[k]) <= i < rs[k].pages && |m1| == |m|
    requires live1 == live + {Base(rs[k]) + i} || live1 == live - {Base(rs[k]) + i}
    requires RegionBit(m1, rs[k], i) == (Base(rs[k]) + i in live1)
    requires forall k', i': nat :: 0 <= k' < |rs| && i' < rs[k'].pages && (k' != k || i' != i) ==>
      BitFrame(rs[k'], i') < |m| && RegionBit(m1, rs[k'], i') == RegionBit(m, rs[k'], i')
    ensures BitmapInv(m1, rs, live1)
  {
    assert UsableIn(rs[k], Base(rs[k]) + i);
    forall k', i': nat | 0 <= k' < |rs| && i' < rs[k'].pages
      ensures BitMeans(m1, rs[k'], live1, i')
    {
      assert BitMeans(m, rs[k'], live, i');
      if Base(rs[k']) + i' == Base(rs[k]) + i { SameFrame(rs, |m|, k, i, k', i'); }
    }
  }

  /** The range test of the free path, with its inclusive upper bound. */
  predicate Matches(r: Region, phys: nat)
  {
    !(phys < r.start || phys > r.start + r.pages * PAGE_SIZE)
  }

  /**
   * The inclusive upper bound in the free path never matches a second region: the frame just past
   * a region is, if it belongs to any region, that region's first frame, which holds a bitmap.
   */
  lemma OnlyOwnerMatches(rs: seq<Region>, n: nat, k: nat, j: nat, phys: nat)
    requires RegionsOk(rs, n) && k < |rs| && j < |rs| && phys % PAGE_SIZE == 0
    requires UsableIn(rs[k], phys / PAGE_SIZE)
    ensures Matches(rs[j], phys) <==> j == k
    ensures j == k ==> (phys - rs[j].start) / PAGE_SIZE == phys / PAGE_SIZE - Base(rs[j])
  {
    BitmapFits(rs[k], 0);
    assert RegionOk(rs[k], n) && RegionOk(rs[j], n);
    if j != k { assert Disjoint(rs[j], rs[k]); }
  }

  /** A frame outside every bitmap may be rewritten by its owner: the allocator does not notice. */
  lemma ClientWriteKeepsInv(m: seq<Frame>, rs: seq<Region>, live: set<nat>, f: nat, z: Frame)
    requires BitmapInv(m, rs, live) && f < |m| && !IsBitmap(rs, f)
    ensures BitmapInv(m[f := z], rs, live)
  {
    var m1 := m[f := z];
    forall k, i: nat | 0 <= k < |rs| && i < rs[k].pages
      ensures BitMeans(m1, rs[k], live, i)
    {
      assert BitMeans(m, rs[k], live, i);
      BitmapFits(rs[k], i);
      assert BitmapIn(rs[k], BitFrame(rs[k], i));
    }
  }

  /** When every bit is set, every usable frame is live: the search fails only on exhaustion. */
  lemma FullMeansExhausted(m: seq<Frame>, rs: seq<Region>, live: set<nat>)
    requires BitmapInv(m, rs, live)
    requires forall k, i: nat :: 0 <= k < |rs| && i < rs[k].pages ==> RegionBit(m, rs[k], i)
    ensures UsableSet(rs, |m|) - live == {}
  {
    forall f | f in UsableSet(rs, |m|)
      ensures f in live
    {
      var k :| 0 <= k < |rs| && UsableIn(rs[k], f);
      var i: nat := f - Base(rs[k]);
      assert BitMeans(m, rs[k], live, i);
    }
  }

  /** The only change is that the bit of frame f, which region k owns, is now clear. */
  ghost predicate ClearsOneBit(m: seq<Frame>, m': seq<Frame>, rs: seq<Region>, k: int, f: nat)
  {
    && 0 <= k < |rs| && UsableIn(rs[k], f) && BitFrame(rs[k], f - Base(rs[k])) < |m|
    && m' == MarkFree(m, rs[k], f - Base(rs[k]))
  }

  /** The memory left by releasing a live frame: one bit clear, no frame handed out touched. */
  lemma Released(m: seq<Frame>, rs: seq<Region>, live: set<nat>, k: nat, f: nat) returns (m': seq<Frame>)
    requires BitmapInv(m, rs, live) && k < |rs| && f in live && UsableIn(rs[k], f)
    ensures ClearsOneBit(m, m', rs, k, f) && |m'| == |m|
    ensures BitmapInv(m', rs, live - {f})
    ensures forall g :: 0 <= g < |m| && !IsBitmap(rs, g) ==> m'[g] == m[g]
  {
    MarkFreeKeepsInv(m, rs, live, k, f);
    m' := MarkFree(m, rs[k], f - Base(rs[k]));
    BitmapFits(rs[k], f - Base(rs[k]));
    assert BitmapIn(rs[k], BitFrame(rs[k], f - Base(rs[k])));
  }

  lemma ZeroIsOutside(m: seq<Frame>, rs: seq<Region>, live: set<nat>)
    requires BitmapInv(m, rs, live)
    ensures 0 !in live && !IsBitmap(rs, 0)
    ensures forall k :: 0 <= k < |rs| ==> !Matches(rs[k], 0)
  {
    forall k | 0 <= k < |rs|
      ensures !UsableIn(rs[k], 0) && !BitmapIn(rs[k], 0) && !Matches(rs[k], 0)
    {
      assert RegionOk(rs[k], |m|);
    }
  }

  /** What a successful search amounts to, once the frame found is zeroed. */
  lemma Allocated(m: seq<Frame>, rs: seq<Region>, live: set<nat>, k: nat, i: nat, addr: nat)
    requires BitmapInv(m, rs, live) && k < |rs| && i < rs[k].pages && !RegionBit(m, rs[k], i)
    requires addr == rs[k].start + i * PAGE_SIZE
    requires forall k', i': nat :: 0 <= k' < k && i' < rs[k'].pages ==> RegionBit(m, rs[k'], i')
    requires forall i': nat :: i' < i ==> RegionBit(m, rs[k], i')
    ensures var f := addr / PAGE_SIZE; var m' := MarkUsed(m, rs[k], i);
      && addr % PAGE_SIZE == 0 && f == Base(rs[k]) + i && f < |m| && f !in live
      && FirstFree(m, rs, k, i) && f in UsableSet(rs, |m|)
      && BitmapInv(m'[f := ZeroFrame()], rs, live + {f})
      && (forall g :: 0 <= g < |m| && !IsBitmap(rs, g) ==> m'[g] == m[g])
  {
    assert RegionOk(rs[k], |m|);
    assert addr / PAGE_SIZE == Base(rs[k]) + i;
    MarkUsedKeepsInv(m, rs, live, k, i, ZeroFrame());
    BitmapFits(rs[k], i);
    assert BitmapIn(rs[k], BitFrame(rs[k], i));
    assert FirstFree(m, rs, k, i) by {
      forall k', i': nat | 0 <= k' <= k && i' < rs[k'].pages && (k' < k || i' <= i)
        ensures BitFrame(rs[k'], i') < |m| && (RegionBit(m, rs[k'], i') <==> k' != k || i' != i)
      {
        assert BitMeans(m, rs[k'], live, i');
      }
    }
  }

  class FrameAllocator {
    const regions: seq<Region>
    const ram: array<Frame>
    /** The frames handed out and not yet given back. */
    ghost var live: set<nat>

    ghost predicate Valid()
      reads this, ram
    {
      BitmapInv(ram[..], regions, live) && ram.Length > 0
    }

    /** The frames still available. */
    ghost function Free(): (s: set<nat>)
      reads this
    {
      UsableSet(regions, ram.Length) - live
    }

    /** `pmm_init_regions`. */
    constructor (rs: seq<Region>, memory: array<Frame>)
      requires RegionsOk(rs, memory.Length) && memory.Length > 0
      modifies memory
      ensures Valid() && live == {} && regions == rs && ram == memory
      ensures forall f :: 0 <= f < memory.Length && !IsBitmap(rs, f) ==> memory[f] == old(memory[f])
    {
      regions, ram, live := rs, memory, {};
      new;
      for k := 0 to |rs|
        invariant live == {}
        invariant forall f :: 0 <= f < ram.Length && !IsBitmap(rs, f) ==> ram[f] == old(memory[f])
        invariant forall k', i: nat :: 0 <= k' < k && i < rs[k'].pages ==>
          BitFrame(rs[k'], i) < ram.Length &&
          (RegionBit(ram[..], rs[k'], i) <==> i < BitmapFrames(rs[k']))
      {
        label before:
        assert RegionOk(rs[k], ram.Length);
        ClearBitmap(k);
        SetOwnBits(k);
        forall k', i: nat | 0 <= k' < k && i < rs[k'].pages
          ensures BitFrame(rs[k'], i) < ram.Length
          ensures RegionBit(ram[..], rs[k'], i) == old@before(RegionBit(ram[..], rs[k'], i))
        {
          assert Disjoint(rs[k'], rs[k]);
          BitmapFits(rs[k'], i);
          BitmapFits(rs[k], 0);
        }
      }
    }

    /** The `memset` of a region's bitmap. */
    method ClearBitmap(k: nat)
      requires RegionsOk(regions, ram.Length) && k < |regions|
      modifies ram
      ensures forall f :: 0 <= f < ram.Length && !BitmapIn(regions[k], f) ==> ram[f] == old(ram[f])
      ensures forall i: nat :: i < regions[k].pages ==>
        BitFrame(regions[k], i) < ram.Length && !RegionBit(ram[..], regions[k], i)
    {
      var r := regions[k];
      assert RegionOk(r, ram.Length);
      BitmapFits(r, 0);
      for b := 0 to BitmapBytes(r)
        invariant forall f :: 0 <= f < ram.Length && !BitmapIn(r, f) ==> ram[f] == old(ram[f])
        invariant forall c :: 0 <= c < b ==>
          Base(r) + c / PAGE_SIZE < ram.Length && ram[Base(r) + c / PAGE_SIZE][c % PAGE_SIZE] == 0
      {
        BitmapFits(r, b);
        var f := Base(r) + b / PAGE_SIZE;
        ram[f] := ram[f][b % PAGE_SIZE := 0];
      }
      AllClear(ram[..], r);
    }

    /** Marks the frames of the bitmap itself, so that they are never handed out. */
    method SetOwnBits(k: nat)
      requires RegionsOk(regions, ram.Length) && k < |regions|
      requires forall i: nat :: i < regions[k].pages ==>
        BitFrame(regions[k], i) < ram.Length && !RegionBit(ram[..], regions[k], i)
      modifies ram
      ensures forall f :: 0 <= f < ram.Length && !BitmapIn(regions[k], f) ==> ram[f] == old(ram[f])
      ensures forall i: nat :: i < regions[k].pages ==>
        BitFrame(regions[k], i) < ram.Length &&
        (RegionBit(ram[..], regions[k], i) <==> i < BitmapFrames(regions[k]))
    {
      var r := regions[k];
      assert RegionOk(r, ram.Length);
      BitmapFits(r, 0);
      for j := 0 to BitmapFrames(r)
        invariant forall f :: 0 <= f < ram.Length && !BitmapIn(r, f) ==> ram[f] == old(ram[f])
        invariant forall i: nat :: i < r.pages ==>
          BitFrame(r, i) < ram.Length && (RegionBit(ram[..], r, i) <==> i < j)
      {
        BitmapFits(r, j);
        SetRegionBit(k, j);
      }
    }

    /** `region_set_bit`. */
    method SetRegionBit(k: nat, i: nat)
      requires RegionsOk(regions, ram.Length) && k < |regions| && i < regions[k].pages
      requires BitFrame(regions[k], i) < ram.Length
      modifies ram
      ensures ram[..] == MarkUsed(old(ram[..]), regions[k], i)
      ensures forall f :: 0 <= f < ram.Length && f != BitFrame(regions[k], i) ==> ram[f] == old(ram[f])
      ensures RegionBit(ram[..], regions[k], i)
      ensures forall k', i': nat :: 0 <= k' < |regions| && i' < regions[k'].pages && (k' != k || i' != i) ==>
        BitFrame(regions[k'], i') < ram.Length &&
        RegionBit(ram[..], regions[k'], i') == old(RegionBit(ram[..], regions[k'], i'))
    {
      var f, c := BitFrame(regions[k], i), BitByte(i);
      ghost var m := ram[..];
      ram[f] := ram[f][c := SetBit(ram[f][c], i % 8)];
      assert ram[..] == MarkUsed(m, regions[k], i);
      OneBitChanges(m, ram[..], regions, k, i, SetBit(m[f][c], i % 8));
    }

    /** `region_unset_bit`. */
    method UnsetRegionBit(k: nat, i: nat)
      requires k < |regions| && BitFrame(regions[k], i) < ram.Length
      modifies ram
      ensures ram[..] == MarkFree(old(ram[..]), regions[k], i)
    {
      var f, c := BitFrame(regions[k], i), BitByte(i);
      ram[f] := ram[f][c := ClearBit(ram[f][c], i % 8)];
    }

    /** `find_free_page`. */
    method FindFreePage(k: nat) returns (addr: nat, ghost at: nat)
      requires Valid() && k < |regions|
      modifies ram
      ensures at <= regions[k].pages
      ensures forall i: nat :: i < at ==> old(RegionBit(ram[..], regions[k], i))
      ensures at == regions[k].pages ==> addr == 0 && ram[..] == old(ram[..])
      ensures at < regions[k].pages ==>
        !old(RegionBit(ram[..], regions[k], at)) &&
        addr == regions[k].start + at * PAGE_SIZE && addr != 0 &&
        ram[..] == MarkUsed(old(ram[..]), regions[k], at)
    {
      var r := regions[k];
      assert RegionOk(r, ram.Length);
      at := r.pages;
      for i := 0 to r.pages
        invariant ram[..] == old(ram[..]) && Valid()
        invariant forall j: nat :: j < i ==> old(RegionBit(ram[..], r, j))
      {
        BitmapFits(r, i);
        if Bit(ram[BitFrame(r, i)][BitByte(i)], i % 8) {
          assert RegionBit(ram[..], r, i);
          continue;
        }
        SetRegionBit(k, i);
        at := i;
        return r.start + i * PAGE_SIZE, i;
      }
      return 0, r.pages;
    }

    /**
     * `pmm_alloc`: the lowest free frame of the first region that has one, zero-filled. When no
     * frame is free it zeroes physical page 0 and returns 0.
     */
    method Alloc() returns (addr: nat)
      requires Valid()
      modifies this`live, ram
      ensures Valid()
      ensures addr % PAGE_SIZE == 0 && (addr == 0 <==> old(Free()) == {})
      ensures addr == 0 ==> live == old(live) && ram[..] == old(ram[..])[0 := ZeroFrame()]
      ensures addr != 0 ==>
        && addr / PAGE_SIZE in old(Free()) && live == old(live) + {addr / PAGE_SIZE}
        && Free() == old(Free()) - {addr / PAGE_SIZE}
        && ram[addr / PAGE_SIZE] == ZeroFrame()
        && (forall f :: 0 <= f < ram.Length && f != addr / PAGE_SIZE && !IsBitmap(regions, f) ==>
              ram[f] == old(ram[f]))
        && (exists k: nat, i: nat :: FirstFree(old(ram[..]), regions, k, i) &&
              addr == regions[k].start + i * PAGE_SIZE &&
              ram[..] == MarkUsed(old(ram[..]), regions[k], i)[addr / PAGE_SIZE := ZeroFrame()])
    {
      addr := 0;
      ghost var m := ram[..];
      for k := 0 to |regions|
        invariant ram[..] == m && Valid() && live == old(live) && addr == 0
        invariant forall k', i: nat :: 0 <= k' < k && i < regions[k'].pages ==>
          RegionBit(m, regions[k'], i)
      {
        ghost var i;
        addr, i := FindFreePage(k);
        if addr != 0 {
          Allocated(m, regions, live, k, i, addr);
          assert addr / PAGE_SIZE in old(Free());
          ram[addr / PAGE_SIZE] := ZeroFrame();
          live := live + {addr / PAGE_SIZE};
          assert ram[..] == MarkUsed(m, regions[k], i)[addr / PAGE_SIZE := ZeroFrame()];
          return;
        }
      }
      FullMeansExhausted(m, regions, live);
      ZeroIsOutside(m, regions, live);
      ClientWriteKeepsInv(m, regions, live, 0, ZeroFrame());
      ram[0] := ZeroFrame();
      assert ram[..] == m[0 := ZeroFrame()];
    }

    /**
     * `pmm_free` of a live frame or of address 0: clears exactly the bit of that frame, in the
     * region that owns it; address 0 belongs to no region and nothing happens.
     */
    method Release(phys: nat)
      requires Valid() && phys % PAGE_SIZE == 0
      requires phys == 0 || phys / PAGE_SIZE in live
      modifies this`live, ram
      ensures Valid() && live == old(live) - {phys / PAGE_SIZE} && old(Free()) <= Free()
      ensures forall f :: 0 <= f < ram.Length && !IsBitmap(regions, f) ==> ram[f] == old(ram[f])
      ensures phys == 0 ==> ram[..] == old(ram[..])
      ensures phys != 0 ==>
        exists k :: ClearsOneBit(old(ram[..]), ram[..], regions, k, phys / PAGE_SIZE)
    {
      ghost var m := ram[..];
      ghost var owner, freed, f := |regions|, m, phys / PAGE_SIZE;
      if phys != 0 {
        owner :| 0 <= owner < |regions| && UsableIn(regions[owner], f);
        freed := Released(m, regions, live, owner, f);
      } else {
        ZeroIsOutside(m, regions, live);
        assert live - {f} == live;
      }
      ReleaseIn(phys, owner, freed);
      live := live - {f};
    }

    /** The loop over all regions: only the owner's bitmap is touched. */
    method ReleaseIn(phys: nat, ghost owner: nat, ghost freed: seq<Frame>)
      requires RegionsOk(regions, ram.Length) && phys % PAGE_SIZE == 0
      requires if phys != 0 then ClearsOneBit(ram[..], freed, regions, owner, phys / PAGE_SIZE)
               else owner == |regions| && freed == ram[..] && forall k :: 0 <= k < |regions| ==> !Matches(regions[k], 0)
      modifies ram
      ensures ram[..] == freed
    {
      hide RegionsOk, MarkFree, UsableIn, Matches;
      ghost var m := ram[..];
      for k := 0 to |regions|
        invariant ram[..] == if owner < k then freed else m
      {
        var r := regions[k];
        if phys != 0 {
          OnlyOwnerMatches(regions, ram.Length, owner, k, phys);
        }
        if !Matches(r, phys) {
          continue;
        }
        RegionBelow(r, phys);
        var i := (phys - r.start) / PAGE_SIZE;
        UnsetRegionBit(k, i);
      }
    }
  }

  lemma RegionBelow(r: Region, phys: nat)
    requires Matches(r, phys)
    ensures phys >= r.start
  {
  }

  /** A bitmap of zero bytes has no bit set. */
  lemma AllClear(m: seq<Frame>, r: Region)
    requires forall c :: 0 <= c < BitmapBytes(r) ==>
      Base(r) + c / PAGE_SIZE < |m| && m[Base(r) + c / PAGE_SIZE][c % PAGE_SIZE] == 0
    ensures forall i: nat :: i < r.pages ==> BitFrame(r, i) < |m| && !RegionBit(m, r, i)
  {
    forall i: nat | i < r.pages
      ensures BitFrame(r, i) < |m| && !RegionBit(m, r, i)
    {
      assert i / 8 < BitmapBytes(r);
      ZeroHasNoBits(i % 8);
    }
  }

  lemma ZeroHasNoBits(j: nat)
    ensures !Bit(0, j)
  {
  }
}
