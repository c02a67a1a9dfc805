/**
 * The block list of the kernel heap as a layout (src/mm/kmalloc.c): blocks tile the heap from its
 * base on, each a 32-byte header and a payload. What allocation and freeing do to the layout.
 */
module Layout {

  const HEADER: nat := 32

  datatype Block = Block(size: nat, used: bool)

  /** Where the heap starts. */
  const HEAP_BASE: nat := 0xffff_c900_0000_0000

  /** The address of the header of block i; for i == |bs|, the end of the heap. */
  function Addr(bs: seq<Block>, i: nat): (a: nat)
    requires i <= |bs|
    ensures a >= HEAP_BASE + HEADER * i
  {
    if i == 0 then HEAP_BASE else Addr(bs, i - 1) + HEADER + bs[i - 1].size
  }

  predicate NoAdjacentFree(bs: seq<Block>)
  {
    forall i :: 0 <= i < |bs| - 1 ==> bs[i].used || bs[i + 1].used
  }

  // ---------- addresses ----------

  /** Blocks do not overlap: a later header starts past the payload of an earlier block. */
  lemma {:induction false} AddrOrder(bs: seq<Block>, i: nat, j: nat)
    requires i < j <= |bs|
    ensures Addr(bs, i) + HEADER + bs[i].size <= Addr(bs, j)
  {
    if i + 1 < j { AddrOrder(bs, i, j - 1); }
  }

  lemma {:induction false} AddrPrefix(bs: seq<Block>, cs: seq<Block>, i: nat)
    requires i <= |bs| && i <= |cs| && forall k :: 0 <= k < i ==> bs[k].size == cs[k].size
    ensures Addr(bs, i) == Addr(cs, i)
  {
    if i > 0 { AddrPrefix(bs, cs, i - 1); }
  }

  /** Past a stretch of the same length, equal tails have equal addresses. */
  lemma {:induction false} AddrSuffix(bs: seq<Block>, cs: seq<Block>, i: nat, j: nat, k: nat)
    requires i + k <= |bs| && j + k <= |cs| && Addr(bs, i) == Addr(cs, j)
    requires bs[i..i + k] == cs[j..j + k]
    ensures Addr(bs, i + k) == Addr(cs, j + k)
  {
    if k > 0 {
      assert bs[i..i + k - 1] == bs[i..i + k][..k - 1] == cs[j..j + k][..k - 1] == cs[j..j + k - 1];
      assert bs[i + k - 1] == bs[i..i + k][k - 1] == cs[j..j + k][k - 1] == cs[j + k - 1];
      AddrSuffix(bs, cs, i, j, k - 1);
    }
  }

  lemma AddrInjective(bs: seq<Block>, i: nat, j: nat)
    requires i <= |bs| && j <= |bs| && Addr(bs, i) == Addr(bs, j)
    ensures i == j
  {
    if i < j { AddrOrder(bs, i, j); }
    if j < i { AddrOrder(bs, j, i); }
  }

  // ---------- allocation ----------

  /** The test of the search loop. */
  predicate Fits(b: Block, size: nat)
  {
    !b.used && (b.size == size || b.size >= size + HEADER)
  }

  /** The first block that fits, or the number of blocks. */
  function FirstFit(bs: seq<Block>, size: nat): (i: nat)
    ensures i <= |bs|
    ensures forall j :: 0 <= j < i ==> !Fits(bs[j], size)
    ensures i < |bs| ==> Fits(bs[i], size)
  {
    FirstFitFrom(bs, size, 0)
  }

  function FirstFitFrom(bs: seq<Block>, size: nat, k: nat): (i: nat)
    requires k <= |bs| && forall j :: 0 <= j < k ==> !Fits(bs[j], size)
    ensures k <= i <= |bs|
    ensures forall j :: 0 <= j < i ==> !Fits(bs[j], size)
    ensures i < |bs| ==> Fits(bs[i], size)
    decreases |bs| - k
  {
    if k == |bs| || Fits(bs[k], size) then k else FirstFitFrom(bs, size, k + 1)
  }

  lemma FirstFitUnique(bs: seq<Block>, size: nat, i: nat)
    requires i <= |bs| && (forall j :: 0 <= j < i ==> !Fits(bs[j], size)) && (i < |bs| ==> Fits(bs[i], size))
    ensures FirstFit(bs, size) == i
  {
    var k := FirstFit(bs, size);
    assert k < |bs| ==> Fits(bs[k], size);
  }

  /** Block i is taken whole, or split when more than a header would be left over. */
  function Take(bs: seq<Block>, i: nat, size: nat): seq<Block>
    requires i < |bs| && Fits(bs[i], size)
  {
    if bs[i].size - size <= HEADER then bs[i := Block(bs[i].size, true)]
    else bs[..i] + [Block(size, true), Block(bs[i].size - size - HEADER, false)] + bs[i + 1..]
  }

  /** `kmalloc` on the layout. */
  function Malloc(bs: seq<Block>, size: nat): seq<Block>
  {
    var i := FirstFit(bs, size);
    if i < |bs| then Take(bs, i, size) else bs + [Block(size, true)]
  }

  // ---------- freeing ----------

  /** Blocks i and i + 1 become one free block. */
  function Merge(bs: seq<Block>, i: nat): (r: seq<Block>)
    requires i + 1 < |bs|
    ensures |r| == |bs| - 1 && !r[i].used
  {
    bs[..i] + [Block(bs[i].size + bs[i + 1].size + HEADER, false)] + bs[i + 2..]
  }

  function MergeBack(bs: seq<Block>, i: nat): (seq<Block>, nat)
    requires i < |bs|
  {
    if i > 0 && !bs[i - 1].used then (Merge(bs, i - 1), i - 1) else (bs, i)
  }

  function MergeForward(bs: seq<Block>, i: nat): seq<Block>
    requires i < |bs|
  {
    if i + 1 < |bs| && !bs[i + 1].used then Merge(bs, i) else bs
  }

  /** `free` of block i on the layout. */
  function Free(bs: seq<Block>, i: nat): seq<Block>
    requires i < |bs|
  {
    var (cs, j) := MergeBack(bs[i := Block(bs[i].size, false)], i);
    MergeForward(cs, j)
  }

  /** Coalescing is complete: neither operation leaves two adjacent free blocks. */
  lemma MallocCoalesced(bs: seq<Block>, size: nat)
    requires NoAdjacentFree(bs)
    ensures NoAdjacentFree(Malloc(bs, size))
  {
    var i := FirstFit(bs, size);
    if i < |bs| && bs[i].size - size > HEADER {
      var cs := Take(bs, i, size);
      forall k | 0 <= k < |cs| - 1
        ensures cs[k].used || cs[k + 1].used
      {
        if k == i + 1 { assert cs[k + 1] == bs[i + 1]; }
        if k > i + 1 { assert cs[k] == bs[k - 1] && cs[k + 1] == bs[k]; }
      }
    }
  }

  lemma FreeCoalesced(bs: seq<Block>, i: nat)
    requires NoAdjacentFree(bs) && i < |bs| && bs[i].used
    ensures NoAdjacentFree(Free(bs, i))
  {
    hide Merge;
    var b1 := bs[i := Block(bs[i].size, false)];
    BackCoalesced(b1, i);
    var (cs, j) := MergeBack(b1, i);
    if j + 1 < |cs| && !cs[j + 1].used { ForwardCoalesced(cs, j); }
  }

  /** Only around block i may free blocks be adjacent. */
  predicate CoalescedBut(bs: seq<Block>, i: nat)
  {
    forall k :: 0 <= k < |bs| - 1 && k != i && k + 1 != i ==> bs[k].used || bs[k + 1].used
  }

  lemma BackCoalesced(bs: seq<Block>, i: nat)
    requires i < |bs| && !bs[i].used && CoalescedBut(bs, i)
    requires i > 1 ==> bs[i - 2].used || bs[i - 1].used
    ensures var (cs, j) := MergeBack(bs, i);
      j < |cs| && !cs[j].used && CoalescedBut(cs, j) && (j > 0 ==> cs[j - 1].used)
    ensures var (cs, j) := MergeBack(bs, i); j + 2 < |cs| ==> cs[j + 1].used || cs[j + 2].used
  {
    var (cs, j) := MergeBack(bs, i);
    assert i + 2 < |bs| ==> bs[i + 1].used || bs[i + 2].used;
    if j < i {
      forall k | 0 <= k < |cs| - 1 && k != j && k + 1 != j ensures cs[k].used || cs[k + 1].used {
        if k > j { assert cs[k] == bs[k + 1] && cs[k + 1] == bs[k + 2]; }
      }
    }
  }

  lemma ForwardCoalesced(cs: seq<Block>, j: nat)
    requires j + 1 < |cs| && !cs[j].used && !cs[j + 1].used && CoalescedBut(cs, j)
    requires (j > 0 ==> cs[j - 1].used) && (j + 2 < |cs| ==> cs[j + 1].used || cs[j + 2].used)
    ensures NoAdjacentFree(Merge(cs, j))
  {
    var ds := Merge(cs, j);
    forall k | 0 <= k < |ds| - 1 ensures ds[k].used || ds[k + 1].used {
      if k == j { assert ds[k + 1] == cs[j + 2]; }
      if k > j { assert ds[k] == cs[k + 1] && ds[k + 1] == cs[k + 2]; }
    }
  }

  /** Served from an existing block and freed at once, an allocation leaves no trace in the layout. */
  lemma MallocThenFree(bs: seq<Block>, size: nat)
    requires NoAdjacentFree(bs) && FirstFit(bs, size) < |bs|
    ensures Free(Malloc(bs, size), FirstFit(bs, size)) == bs
  {
    var i := FirstFit(bs, size);
    var cs := Take(bs, i, size);
    var c1 := cs[i := Block(cs[i].size, false)];
    assert i > 0 ==> cs[i - 1] == bs[i - 1] && bs[i - 1].used;
    assert MergeBack(c1, i) == (c1, i);
    if bs[i].size - size <= HEADER {
      assert c1 == bs;
    } else {
      assert Merge(c1, i) == bs;
    }
  }

  // ---------- live allocations ----------

  /** The live payloads: header address of every used block, with its size. */
  ghost function Live(bs: seq<Block>): map<nat, nat>
  {
    LiveTo(bs, |bs|)
  }

  ghost function LiveTo(bs: seq<Block>, n: nat): map<nat, nat>
    requires n <= |bs|
  {
    if n == 0 then map[]
    else if bs[n - 1].used then LiveTo(bs, n - 1)[Addr(bs, n - 1) := bs[n - 1].size]
    else LiveTo(bs, n - 1)
  }

  lemma {:induction false} LiveToMeans(bs: seq<Block>, n: nat, a: nat)
    requires n <= |bs|
    ensures a in LiveTo(bs, n) <==> exists i :: 0 <= i < n && bs[i].used && Addr(bs, i) == a
    ensures forall i :: 0 <= i < n && bs[i].used && Addr(bs, i) == a ==> LiveTo(bs, n)[a] == bs[i].size
  {
    if n > 0 {
      LiveToMeans(bs, n - 1, a);
      forall i | 0 <= i < n - 1
        ensures Addr(bs, i) < Addr(bs, n - 1)
      {
        AddrOrder(bs, i, n - 1);
      }
    }
  }

  lemma LiveAt(bs: seq<Block>, i: nat)
    requires i < |bs| && bs[i].used
    ensures Addr(bs, i) in Live(bs) && Live(bs)[Addr(bs, i)] == bs[i].size
  {
    LiveToMeans(bs, |bs|, Addr(bs, i));
  }

  lemma LiveIndex(bs: seq<Block>, a: nat) returns (i: nat)
    requires a in Live(bs)
    ensures i < |bs| && bs[i].used && Addr(bs, i) == a && Live(bs)[a] == bs[i].size
  {
    LiveToMeans(bs, |bs|, a);
    i :| 0 <= i < |bs| && bs[i].used && Addr(bs, i) == a;
  }

  ghost function IndexOf(bs: seq<Block>, a: nat): (i: nat)
    requires a in Live(bs)
    ensures i < |bs| && bs[i].used && Addr(bs, i) == a
  {
    LiveToMeans(bs, |bs|, a);
    var i :| 0 <= i < |bs| && bs[i].used && Addr(bs, i) == a;
    i
  }

  /** Live payloads lie inside the heap and are pairwise disjoint. */
  lemma LiveDisjoint(bs: seq<Block>, a: nat, b: nat)
    requires a in Live(bs) && b in Live(bs) && a != b
    ensures a + HEADER + Live(bs)[a] <= b || b + HEADER + Live(bs)[b] <= a
    ensures HEAP_BASE <= a && a + HEADER + Live(bs)[a] <= Addr(bs, |bs|)
  {
    var i := LiveIndex(bs, a);
    var j := LiveIndex(bs, b);
    AddrOrder(bs, i, |bs|);
    if i < j { AddrOrder(bs, i, j); } else { AddrOrder(bs, j, i); }
  }

  /** Marking a block leaves every address where it is. */
  lemma FlipAddr(bs: seq<Block>, i: nat, u: bool, k: nat)
    requires i < |bs| && k <= |bs|
    ensures Addr(bs[i := Block(bs[i].size, u)], k) == Addr(bs, k)
  {
    AddrPrefix(bs[i := Block(bs[i].size, u)], bs, k);
  }

  lemma LiveFlip(bs: seq<Block>, i: nat, u: bool)
    requires i < |bs|
    ensures var a := Addr(bs, i);
      Live(bs[i := Block(bs[i].size, u)]) == if u then Live(bs)[a := bs[i].size] else Live(bs) - {a}
  {
    var cs := bs[i := Block(bs[i].size, u)];
    var a := Addr(bs, i);
    var want := if u then Live(bs)[a := bs[i].size] else Live(bs) - {a};
    hide Addr, Live;
    forall b | b in Live(cs)
      ensures b in want && Live(cs)[b] == want[b]
    {
      var k := LiveIndex(cs, b);
      FlipAddr(bs, i, u, k);
      if k != i {
        LiveAt(bs, k);
        if b == a { AddrInjective(bs, k, i); }
      }
    }
    forall b | b in want
      ensures b in Live(cs)
    {
      var k := if b == a then i else IndexOf(bs, b);
      FlipAddr(bs, i, u, k);
      LiveAt(cs, k);
    }
  }

  /** Addresses after a merge: those before stay, those behind are one index further down. */
  lemma MergeAddr(bs: seq<Block>, i: nat, k: nat)
    requires i + 1 < |bs| && k < |bs| && k != i + 1
    ensures Addr(Merge(bs, i), if k <= i then k else k - 1) == Addr(bs, k)
    ensures Addr(Merge(bs, i), |bs| - 1) == Addr(bs, |bs|)
  {
    hide Addr;
    MergedAddr(bs, i, k);
    MergedAddr(bs, i, |bs|);
  }

  lemma MergedAddr(bs: seq<Block>, i: nat, k: nat)
    requires i + 1 < |bs| && k <= |bs| && k != i + 1
    ensures Addr(Merge(bs, i), if k <= i then k else k - 1) == Addr(bs, k)
  {
    var cs := Merge(bs, i);
    if k <= i {
      AddrPrefix(cs, bs, k);
    } else {
      MergeHere(bs, i);
      var l := k - (i + 2);
      assert bs[i + 2..i + 2 + l] == cs[i + 1..i + 1 + l];
      AddrSuffix(bs, cs, i + 2, i + 1, l);
    }
  }

  lemma MergeHere(bs: seq<Block>, i: nat)
    requires i + 1 < |bs|
    ensures Addr(Merge(bs, i), i + 1) == Addr(bs, i + 2)
  {
    var cs := Merge(bs, i);
    AddrPrefix(cs, bs, i);
    assert Addr(bs, i + 1) == Addr(bs, i) + HEADER + bs[i].size;
  }

  /** Merging two free blocks concerns no live payload. */
  lemma LiveMerge(bs: seq<Block>, i: nat)
    requires i + 1 < |bs| && !bs[i].used && !bs[i + 1].used
    ensures Live(Merge(bs, i)) == Live(bs) && Addr(Merge(bs, i), |bs| - 1) == Addr(bs, |bs|)
  {
    var cs := Merge(bs, i);
    MergeAddr(bs, i, 0);
    forall b | b in Live(bs)
      ensures b in Live(cs) && Live(cs)[b] == Live(bs)[b]
    {
      var k := LiveIndex(bs, b);
      MergeAddr(bs, i, k);
      LiveAt(cs, if k <= i then k else k - 1);
    }
    forall b | b in Live(cs)
      ensures b in Live(bs)
    {
      var k := LiveIndex(cs, b);
      var l := if k <= i then k else k + 1;
      MergeAddr(bs, i, l);
      LiveAt(bs, l);
    }
  }

  /** Freeing removes exactly that payload; every other stays at its address with its size. */
  lemma LiveFree(bs: seq<Block>, i: nat)
    requires i < |bs| && bs[i].used
    ensures Live(Free(bs, i)) == Live(bs) - {Addr(bs, i)} && |Free(bs, i)| > 0
    ensures Addr(Free(bs, i), |Free(bs, i)|) == Addr(bs, |bs|)
  {
    hide Live, Addr, Merge;
    var b1 := bs[i := Block(bs[i].size, false)];
    LiveFlip(bs, i, false);
    FlipAddr(bs, i, false, |bs|);
    LiveMergeBack(b1, i);
    var (cs, j) := MergeBack(b1, i);
    if j + 1 < |cs| && !cs[j + 1].used { LiveMerge(cs, j); }
  }

  lemma LiveMergeBack(bs: seq<Block>, i: nat)
    requires i < |bs| && !bs[i].used
    ensures var (cs, j) := MergeBack(bs, i);
      j < |cs| && !cs[j].used && Live(cs) == Live(bs) && Addr(cs, |cs|) == Addr(bs, |bs|)
  {
    hide Live, Addr;
    if i > 0 && !bs[i - 1].used { LiveMerge(bs, i - 1); }
  }

  /** The size that an allocation really gets. */
  function Granted(bs: seq<Block>, size: nat): (g: nat)
    ensures g == size || g == size + HEADER
  {
    var i := FirstFit(bs, size);
    if i < |bs| && bs[i].size - size <= HEADER then bs[i].size else size
  }

  /** Allocating adds one payload, of the requested size or 32 bytes more, and moves no other. */
  lemma LiveMalloc(bs: seq<Block>, size: nat)
    ensures var a := Addr(bs, FirstFit(bs, size));
      Live(Malloc(bs, size)) == Live(bs)[a := Granted(bs, size)] && a !in Live(bs)
    ensures var cs := Malloc(bs, size);
      Addr(cs, |cs|) == Addr(bs, |bs|) + if FirstFit(bs, size) < |bs| then 0 else HEADER + size
    ensures FirstFit(bs, size) < |Malloc(bs, size)|
    ensures Addr(Malloc(bs, size), FirstFit(bs, size)) == Addr(bs, FirstFit(bs, size))
  {
    hide Live, Addr, FirstFit;
    var i := FirstFit(bs, size);
    var cs := Malloc(bs, size);
    var a := Addr(bs, i);
    if a in Live(bs) {
      var k := LiveIndex(bs, a);
      AddrInjective(bs, k, i);
    }
    if i == |bs| {
      LiveAppend(bs, Block(size, true));
    } else if bs[i].size - size <= HEADER {
      LiveFlip(bs, i, true);
      FlipAddr(bs, i, true, |bs|);
      FlipAddr(bs, i, true, i);
    } else {
      var split := cs[i := Block(size, false)];
      assert Merge(split, i) == bs;
      LiveMerge(split, i);
      MergeAddr(split, i, i);
      LiveFlip(split, i, true);
      FlipAddr(split, i, true, |split|);
      FlipAddr(split, i, true, i);
      assert split[i := Block(split[i].size, true)] == cs;
    }
  }

  /** No block is empty: a rest too small for a payload is not split off. */
  predicate NoEmpty(bs: seq<Block>)
  {
    forall i :: 0 <= i < |bs| ==> bs[i].size > 0
  }

  lemma MallocNoEmpty(bs: seq<Block>, size: nat)
    requires NoEmpty(bs) && size > 0
    ensures NoEmpty(Malloc(bs, size))
  {
    hide FirstFit;
  }

  lemma FreeNoEmpty(bs: seq<Block>, i: nat)
    requires NoEmpty(bs) && i < |bs|
    ensures NoEmpty(Free(bs, i))
  {
    var b1 := bs[i := Block(bs[i].size, false)];
    var (cs, j) := MergeBack(b1, i);
    assert NoEmpty(cs);
  }

  // ---------- a buffer taken and given back ----------

  /** The layout after an allocation that is freed at once. */
  function Borrow(bs: seq<Block>, size: nat): (cs: seq<Block>)
  {
    LiveMalloc(bs, size);
    Free(Malloc(bs, size), FirstFit(bs, size))
  }

  lemma MallocUsed(bs: seq<Block>, size: nat)
    ensures FirstFit(bs, size) < |Malloc(bs, size)| && Malloc(bs, size)[FirstFit(bs, size)].used
  {
  }

  /** It leaves the live payloads as they were, and coalesced layouts coalesced. */
  lemma LiveBorrow(bs: seq<Block>, size: nat)
    ensures Live(Borrow(bs, size)) == Live(bs)
    ensures NoAdjacentFree(bs) ==> NoAdjacentFree(Borrow(bs, size))
  {
    hide Live, Addr, FirstFit, Malloc, Free, NoAdjacentFree;
    LiveMalloc(bs, size);
    MallocUsed(bs, size);
    LiveFree(Malloc(bs, size), FirstFit(bs, size));
    assert Live(bs)[Addr(bs, FirstFit(bs, size)) := Granted(bs, size)] - {Addr(bs, FirstFit(bs, size))} == Live(bs);
    if NoAdjacentFree(bs) {
      MallocCoalesced(bs, size);
      FreeCoalesced(Malloc(bs, size), FirstFit(bs, size));
    }
  }

  /** What was borrowed once can be borrowed again, and the layout no longer changes. */
  lemma BorrowAgain(bs: seq<Block>, size: nat)
    requires NoAdjacentFree(bs)
    ensures FirstFit(Borrow(bs, size), size) < |Borrow(bs, size)| && Borrow(Borrow(bs, size), size) == Borrow(bs, size)
  {
    hide FirstFit, Free, Malloc, NoAdjacentFree;
    var cs := Borrow(bs, size);
    if FirstFit(bs, size) < |bs| {
      MallocThenFree(bs, size);
    } else {
      BorrowedFits(bs, size);
      LiveBorrow(bs, size);
      MallocThenFree(cs, size);
    }
  }

  lemma BorrowedFits(bs: seq<Block>, size: nat)
    requires FirstFit(bs, size) == |bs|
    ensures FirstFit(Borrow(bs, size), size) < |Borrow(bs, size)|
  {
    hide FirstFit;
    var cs := Borrow(bs, size);
    var b1 := bs + [Block(size, false)];
    assert (bs + [Block(size, true)])[|bs| := Block(size, false)] == b1;
    assert cs == MergeBack(b1, |bs|).0;
    assert Fits(cs[|cs| - 1], size);
  }

  lemma LiveAppend(bs: seq<Block>, b: Block)
    requires b.used
    ensures Live(bs + [b]) == Live(bs)[Addr(bs, |bs|) := b.size]
    ensures Addr(bs + [b], |bs| + 1) == Addr(bs, |bs|) + HEADER + b.size && Addr(bs + [b], |bs|) == Addr(bs, |bs|)
  {
    var n, cs := |bs|, bs + [b];
    AddrPrefix(cs, bs, n);
    AddrNext(cs, n);
    hide Addr;
    LivePrefix(bs, b, n);
    assert Live(cs) == LiveTo(cs, n + 1) && cs[n] == b;
  }

  lemma AddrNext(bs: seq<Block>, i: nat)
    requires i < |bs|
    ensures Addr(bs, i + 1) == Addr(bs, i) + HEADER + bs[i].size
  {
  }

  lemma {:induction false} LivePrefix(bs: seq<Block>, b: Block, n: nat)
    requires n <= |bs|
    ensures LiveTo(bs + [b], n) == LiveTo(bs, n)
  {
    if n > 0 {
      LivePrefix(bs, b, n - 1);
      AddrPrefix(bs + [b], bs, n - 1);
    }
  }

  // ---------- freeing everything ----------

  /** Frees the payloads at a list of addresses, in that order. */
  ghost function FreeEach(bs: seq<Block>, order: seq<nat>): seq<Block>
    decreases |order|
  {
    if |order| == 0 || order[0] !in Live(bs) then bs
    else FreeEach(Free(bs, IndexOf(bs, order[0])), order[1..])
  }

  lemma OneFreeBlock(bs: seq<Block>)
    requires |bs| > 0 && NoAdjacentFree(bs) && Live(bs) == map[]
    ensures bs == [Block(Addr(bs, |bs|) - HEAP_BASE - HEADER, false)]
  {
    if |bs| > 1 { assert bs[0].used || bs[0 + 1].used; }
    forall i | 0 <= i < |bs|
      ensures !bs[i].used
    {
      if bs[i].used { LiveAt(bs, i); }
    }
    assert |bs| == 1;
    assert Addr(bs, 1) == HEAP_BASE + HEADER + bs[0].size;
  }

  lemma RestOf(order: seq<nat>)
    requires |order| > 0 && forall i, j :: 0 <= i < j < |order| ==> order[i] != order[j]
    ensures forall x :: x in order[1..] <==> x in order && x != order[0]
    ensures forall i, j :: 0 <= i < j < |order[1..]| ==> order[1..][i] != order[1..][j]
  {
    forall x ensures x in order[1..] <==> x in order && x != order[0] {
      if x in order && x != order[0] {
        var i :| 0 <= i < |order| && order[i] == x;
        assert order[1..][i - 1] == x;
      }
    }
  }

  /** Freeing all live payloads, in any order, leaves a single free block that spans the heap. */
  lemma {:induction false} FreeAllInAnyOrder(bs: seq<Block>, order: seq<nat>)
    requires |bs| > 0 && NoAdjacentFree(bs)
    requires forall a :: a in order <==> a in Live(bs)
    requires forall i, j :: 0 <= i < j < |order| ==> order[i] != order[j]
    ensures FreeEach(bs, order) == [Block(Addr(bs, |bs|) - HEAP_BASE - HEADER, false)]
    decreases |order|
  {
    hide NoAdjacentFree, Free, Live, Addr;
    if |order| == 0 {
      assert Live(bs) == map[];
      OneFreeBlock(bs);
    } else {
      var a := order[0];
      assert a in order;
      var i := IndexOf(bs, a);
      LiveFree(bs, i);
      FreeCoalesced(bs, i);
      RestOf(order);
      FreeAllInAnyOrder(Free(bs, i), order[1..]);
    }
  }
}
