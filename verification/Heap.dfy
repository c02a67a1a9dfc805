/** The kernel heap in memory (src/mm/kmalloc.c): headers live between the payloads, as bytes. */
module Heap {
  import opened Bytes
  import opened Layout

  const HEAP_SIZE: nat := 128 * 4096
  const INIT_HEAP_SIZE: nat := 4 * 4096

  // ---------- headers as bytes ----------

  /** `struct block`: size and links are 8 bytes wide, `in_use` is 4 bytes and 4 bytes of padding. */
  datatype Hdr = Hdr(size: nat, inUse: nat, next: nat, prev: nat)

  predicate InHeap(m: seq<byte>, a: nat)
  {
    HEAP_BASE <= a && a + HEADER <= HEAP_BASE + |m|
  }

  function Read(m: seq<byte>, a: nat, n: nat): nat
    requires HEAP_BASE <= a && a + n <= HEAP_BASE + |m|
  {
    FromLE(m[a - HEAP_BASE..a - HEAP_BASE + n])
  }

  function Write(m: seq<byte>, a: nat, n: nat, v: nat): (r: seq<byte>)
    requires HEAP_BASE <= a && a + n <= HEAP_BASE + |m|
    ensures |r| == |m|
  {
    m[..a - HEAP_BASE] + ToLE(v, n) + m[a - HEAP_BASE + n..]
  }

  function HdrAt(m: seq<byte>, a: nat): Hdr
    requires InHeap(m, a)
  {
    Hdr(Read(m, a, 8), Read(m, a + 8, 4), Read(m, a + 16, 8), Read(m, a + 24, 8))
  }

  lemma ReadAfterWrite(m: seq<byte>, a: nat, n: nat, v: nat)
    requires HEAP_BASE <= a && a + n <= HEAP_BASE + |m| && v < Exp256(n)
    ensures Read(Write(m, a, n, v), a, n) == v
  {
    var w := Write(m, a, n, v);
    assert w[a - HEAP_BASE..a - HEAP_BASE + n] == ToLE(v, n);
    LittleEndianRoundTrip(v, n);
  }

  lemma ReadElsewhere(m: seq<byte>, a: nat, n: nat, v: nat, b: nat, k: nat)
    requires HEAP_BASE <= a && a + n <= HEAP_BASE + |m| && HEAP_BASE <= b && b + k <= HEAP_BASE + |m|
    requires a + n <= b || b + k <= a
    ensures Read(Write(m, a, n, v), b, k) == Read(m, b, k)
  {
    var w := Write(m, a, n, v);
    assert w[b - HEAP_BASE..b - HEAP_BASE + k] == m[b - HEAP_BASE..b - HEAP_BASE + k];
  }

  /** Storing one field of a header changes that field and no other. */
  lemma FieldStores(m: seq<byte>, a: nat, v: nat)
    requires InHeap(m, a) && v < WORD_LIMIT
    ensures HdrAt(Write(m, a, 8, v), a) == HdrAt(m, a).(size := v)
    ensures v < 0x1_0000_0000 ==> HdrAt(Write(m, a + 8, 4, v), a) == HdrAt(m, a).(inUse := v)
    ensures HdrAt(Write(m, a + 16, 8, v), a) == HdrAt(m, a).(next := v)
    ensures HdrAt(Write(m, a + 24, 8, v), a) == HdrAt(m, a).(prev := v)
  {
    WordWidth();
    hide Read, Write;
    FieldStore(m, a, a, 8, v);
    if v < 0x1_0000_0000 { FieldStore(m, a, a + 8, 4, v); }
    FieldStore(m, a, a + 16, 8, v);
    FieldStore(m, a, a + 24, 8, v);
  }

  lemma FieldStore(m: seq<byte>, a: nat, x: nat, n: nat, v: nat)
    requires InHeap(m, a) && v < Exp256(n)
    requires (n == 8 && (x == a || x == a + 16 || x == a + 24)) || (n == 4 && x == a + 8)
    ensures var w := Write(m, x, n, v);
      && Read(w, x, n) == v
      && (x != a ==> Read(w, a, 8) == Read(m, a, 8))
      && (x != a + 8 ==> Read(w, a + 8, 4) == Read(m, a + 8, 4))
      && (x != a + 16 ==> Read(w, a + 16, 8) == Read(m, a + 16, 8))
      && (x != a + 24 ==> Read(w, a + 24, 8) == Read(m, a + 24, 8))
  {
    hide Read, Write;
    ReadAfterWrite(m, x, n, v);
    if x != a { ReadElsewhere(m, x, n, v, a, 8); }
    if x != a + 8 { ReadElsewhere(m, x, n, v, a + 8, 4); }
    if x != a + 16 { ReadElsewhere(m, x, n, v, a + 16, 8); }
    if x != a + 24 { ReadElsewhere(m, x, n, v, a + 24, 8); }
  }

  /** Outside the headers at the given addresses no byte has changed. */
  ghost predicate OnlyHeaders(m0: seq<byte>, m1: seq<byte>, hs: set<nat>)
  {
    && |m0| == |m1|
    && (forall k: nat :: k < |m0| && (forall h :: h in hs ==> !(h <= HEAP_BASE + k < h + HEADER)) ==> m1[k] == m0[k])
  }

  lemma OnlyHeadersChain(m0: seq<byte>, m1: seq<byte>, m2: seq<byte>, hs: set<nat>, h: nat)
    requires OnlyHeaders(m0, m1, hs) && OnlyHeaders(m1, m2, {h})
    ensures OnlyHeaders(m0, m2, hs + {h})
  {
  }

  /** A stretch of memory that none of the changed headers meets. */
  lemma StretchKept(m0: seq<byte>, m1: seq<byte>, hs: set<nat>, a: nat, n: nat)
    requires OnlyHeaders(m0, m1, hs) && HEAP_BASE <= a && a + n <= HEAP_BASE + |m0|
    requires forall h :: h in hs ==> h + HEADER <= a || a + n <= h
    ensures m1[a - HEAP_BASE..a - HEAP_BASE + n] == m0[a - HEAP_BASE..a - HEAP_BASE + n]
  {
    forall k | a - HEAP_BASE <= k < a - HEAP_BASE + n
      ensures m1[k] == m0[k]
    {
    }
  }

  lemma HdrKept(m0: seq<byte>, m1: seq<byte>, hs: set<nat>, a: nat)
    requires OnlyHeaders(m0, m1, hs) && InHeap(m0, a)
    requires forall h :: h in hs ==> h + HEADER <= a || a + HEADER <= h
    ensures HdrAt(m1, a) == HdrAt(m0, a)
  {
    hide OnlyHeaders, FromLE;
    StretchKept(m0, m1, hs, a, 8);
    StretchKept(m0, m1, hs, a + 8, 4);
    StretchKept(m0, m1, hs, a + 16, 8);
    StretchKept(m0, m1, hs, a + 24, 8);
  }

  lemma WriteInHeader(m: seq<byte>, a: nat, n: nat, v: nat, h: nat)
    requires InHeap(m, h) && h <= a && a + n <= h + HEADER
    ensures OnlyHeaders(m, Write(m, a, n, v), {h})
  {
  }

  // ---------- memory encodes a layout ----------

  function HdrOf(bs: seq<Block>, i: nat): Hdr
    requires i < |bs|
  {
    Hdr(bs[i].size, if bs[i].used then 1 else 0,
        if i + 1 < |bs| then Addr(bs, i + 1) else 0, if i > 0 then Addr(bs, i - 1) else 0)
  }

  /** `next` and `prev` link each block to the one that follows and the one before: they are inverse. */
  ghost predicate Encoded(m: seq<byte>, bs: seq<Block>)
  {
    && Addr(bs, |bs|) <= HEAP_BASE + |m|
    && (forall i: nat :: i < |bs| ==> InHeap(m, Addr(bs, i)) && HdrAt(m, Addr(bs, i)) == HdrOf(bs, i))
  }

  lemma BlockInHeap(m: seq<byte>, bs: seq<Block>, i: nat)
    requires Addr(bs, |bs|) <= HEAP_BASE + |m| && i < |bs|
    ensures InHeap(m, Addr(bs, i)) && Addr(bs, i) + HEADER + bs[i].size <= HEAP_BASE + |m|
  {
    AddrOrder(bs, i, |bs|);
  }

  lemma LiveInHeap(m: seq<byte>, bs: seq<Block>, a: nat)
    requires Encoded(m, bs) && a in Live(bs)
    ensures HEAP_BASE <= a && a + HEADER + Live(bs)[a] <= HEAP_BASE + |m|
  {
    hide HdrAt, HdrOf, Live, Addr;
    var i := LiveIndex(bs, a);
    BlockInHeap(m, bs, i);
  }

  /** The bytes of a payload. */
  function Payload(m: seq<byte>, a: nat, n: nat): seq<byte>
    requires HEAP_BASE <= a && a + HEADER + n <= HEAP_BASE + |m|
  {
    m[a + HEADER - HEAP_BASE..a + HEADER + n - HEAP_BASE]
  }

  /** Every payload of a set (header address and size) has the same bytes. */
  ghost predicate PayloadsKept(m0: seq<byte>, m1: seq<byte>, live: map<nat, nat>)
  {
    && |m0| == |m1|
    && (forall a :: a in live ==>
          HEAP_BASE <= a && a + HEADER + live[a] <= HEAP_BASE + |m0| &&
          Payload(m1, a, live[a]) == Payload(m0, a, live[a]))
  }

  lemma PayloadsChain(m0: seq<byte>, m1: seq<byte>, m2: seq<byte>, live: map<nat, nat>, more: map<nat, nat>)
    requires PayloadsKept(m0, m1, live) && PayloadsKept(m1, m2, more)
    requires forall a :: a in live ==> a in more && more[a] == live[a]
    ensures PayloadsKept(m0, m2, live)
  {
  }

  lemma ClaimIsMalloc(bs: seq<Block>, cs: seq<Block>, i: nat, size: nat)
    requires i == FirstFit(bs, size) && i < |cs|
    requires cs == if i < |bs| then SplitOf(bs, i, size) else bs + [Block(size, true)]
    ensures cs[i := Block(cs[i].size, true)] == Malloc(bs, size)
  {
  }

  /** Whether a request can be met: by a block that fits, or by growth within the heap area. */
  ghost predicate Served(bs: seq<Block>, size: nat)
  {
    size > 0 && (FirstFit(bs, size) < |bs| || Addr(bs, |bs|) + HEADER + size < HEAP_BASE + HEAP_SIZE)
  }

  /** In numbers: a free block of the size or at least 32 bytes larger, or room below the end of the heap area. */
  lemma ServedIff(bs: seq<Block>, size: nat)
    ensures Served(bs, size) <==>
      size > 0 &&
      ((exists i :: 0 <= i < |bs| && !bs[i].used && (bs[i].size == size || bs[i].size >= size + 32)) ||
       Addr(bs, |bs|) + 32 + size < 0xffff_c900_0008_0000)
  {
    var k := FirstFit(bs, size);
    if k == |bs| {
      assert forall i :: 0 <= i < |bs| ==> !Fits(bs[i], size);
    } else {
      assert Fits(bs[k], size);
    }
  }

  /** The test of the search loop as the code computes it, in 64-bit words. */
  predicate LargeEnough(block: nat, size: nat)
  {
    block >= (size + HEADER) % WORD_LIMIT
  }

  /** It means what it should exactly if the sum does not wrap to a number that the block reaches. */
  lemma TestIff(block: nat, size: nat)
    requires block < WORD_LIMIT && size < WORD_LIMIT
    ensures (LargeEnough(block, size) <==> block >= size + HEADER) <==>
      (size + HEADER < WORD_LIMIT || block < size + HEADER - WORD_LIMIT)
  {
  }

  /** A request that wraps is taken to fit into 16 bytes. */
  lemma TestWraps()
    ensures LargeEnough(16, WORD_LIMIT - 16) && !(16 >= WORD_LIMIT - 16 + HEADER)
  {
  }

  // ---------- owners write their payloads ----------

  /** Only the n bytes at address x differ. */
  ghost predicate OnlyWithin(m0: seq<byte>, m1: seq<byte>, x: nat, n: nat)
  {
    |m0| == |m1| && forall k: nat :: k < |m0| && !(x <= HEAP_BASE + k < x + n) ==> m1[k] == m0[k]
  }

  lemma StretchBeside(m0: seq<byte>, m1: seq<byte>, x: nat, n: nat, a: nat, w: nat)
    requires OnlyWithin(m0, m1, x, n) && HEAP_BASE <= a && a + w <= HEAP_BASE + |m0| && (a + w <= x || x + n <= a)
    ensures m1[a - HEAP_BASE..a - HEAP_BASE + w] == m0[a - HEAP_BASE..a - HEAP_BASE + w]
  {
    forall k | a - HEAP_BASE <= k < a - HEAP_BASE + w
      ensures m1[k] == m0[k]
    {
    }
  }

  lemma HdrBeside(m0: seq<byte>, m1: seq<byte>, x: nat, n: nat, a: nat)
    requires OnlyWithin(m0, m1, x, n) && InHeap(m0, a) && (a + HEADER <= x || x + n <= a)
    ensures InHeap(m1, a) && HdrAt(m1, a) == HdrAt(m0, a)
  {
    hide OnlyWithin, FromLE;
    SameLength(m0, m1, x, n);
    StretchBeside(m0, m1, x, n, a, 8);
    StretchBeside(m0, m1, x, n, a + 8, 4);
    StretchBeside(m0, m1, x, n, a + 16, 8);
    StretchBeside(m0, m1, x, n, a + 24, 8);
  }

  lemma SameLength(m0: seq<byte>, m1: seq<byte>, x: nat, n: nat)
    requires OnlyWithin(m0, m1, x, n)
    ensures |m0| == |m1|
  {
  }

  /**
   * Whatever an owner writes inside its payload, the headers still encode the layout and every other
   * payload keeps its bytes.
   */
  lemma OwnerWrites(m0: seq<byte>, m1: seq<byte>, bs: seq<Block>, a: nat, x: nat, n: nat)
    requires Encoded(m0, bs) && a in Live(bs) && OnlyWithin(m0, m1, x, n)
    requires a + HEADER <= x && x + n <= a + HEADER + Live(bs)[a]
    ensures Encoded(m1, bs) && PayloadsKept(m0, m1, Live(bs) - {a})
  {
    hide HdrAt, OnlyWithin, Live, Addr, HdrOf;
    var j := LiveIndex(bs, a);
    SameLength(m0, m1, x, n);
    forall i: nat | i < |bs|
      ensures InHeap(m1, Addr(bs, i)) && HdrAt(m1, Addr(bs, i)) == HdrOf(bs, i)
    {
      assert InHeap(m0, Addr(bs, i)) && HdrAt(m0, Addr(bs, i)) == HdrOf(bs, i);
      if i < j { AddrOrder(bs, i, j); }
      if j < i { AddrOrder(bs, j, i); }
      HdrBeside(m0, m1, x, n, Addr(bs, i));
    }
    forall b | b in Live(bs) - {a}
      ensures HEAP_BASE <= b && b + HEADER + Live(bs)[b] <= HEAP_BASE + |m0|
      ensures Payload(m1, b, Live(bs)[b]) == Payload(m0, b, Live(bs)[b])
    {
      LiveDisjoint(bs, b, a);
      StretchBeside(m0, m1, x, n, b + HEADER, Live(bs)[b]);
    }
  }

  /** Such a place does not meet the payload of a used block. */
  lemma SpotApart(bs: seq<Block>, h: nat, i: nat)
    requires HeaderSpot(bs, h) && i < |bs| && bs[i].used
    ensures h <= Addr(bs, i) || Addr(bs, i) + HEADER + bs[i].size <= h
  {
    hide Addr;
    var j: nat :| j <= |bs| && SpotIn(bs, h, j);
    if j < i { AddrOrder(bs, j, i); }
    if i < j { AddrOrder(bs, i, j); }
  }

  /** Rewriting headers of blocks, or places inside free blocks, disturbs no live payload. */
  lemma HeadersSpare(m0: seq<byte>, m1: seq<byte>, bs: seq<Block>, hs: set<nat>)
    requires OnlyHeaders(m0, m1, hs) && Addr(bs, |bs|) <= HEAP_BASE + |m0|
    requires forall h :: h in hs ==> HeaderSpot(bs, h)
    ensures PayloadsKept(m0, m1, Live(bs))
  {
    hide Live, Addr, HeaderSpot;
    forall a | a in Live(bs)
      ensures HEAP_BASE <= a && a + HEADER + Live(bs)[a] <= HEAP_BASE + |m0|
      ensures Payload(m1, a, Live(bs)[a]) == Payload(m0, a, Live(bs)[a])
    {
      var i := LiveIndex(bs, a);
      BlockInHeap(m0, bs, i);
      forall h | h in hs
        ensures h + HEADER <= a + HEADER || a + HEADER + bs[i].size <= h
      {
        SpotApart(bs, h, i);
      }
      StretchKept(m0, m1, hs, a + HEADER, bs[i].size);
    }
  }

  /** h is the header of block j (or the end), or a header's room inside free block j. */
  ghost predicate SpotIn(bs: seq<Block>, h: nat, j: nat)
    requires j <= |bs|
  {
    h == Addr(bs, j) || (j < |bs| && !bs[j].used && Addr(bs, j) < h && h + HEADER <= Addr(bs, j) + HEADER + bs[j].size)
  }

  ghost predicate HeaderSpot(bs: seq<Block>, h: nat)
  {
    exists j: nat :: j <= |bs| && SpotIn(bs, h, j)
  }

  // ---------- how header stores change the layout ----------

  /** Headers of different blocks do not meet. */
  lemma HeadersApart(bs: seq<Block>, i: nat, j: nat)
    requires i < |bs| && j < |bs| && i != j
    ensures Addr(bs, i) + HEADER <= Addr(bs, j) || Addr(bs, j) + HEADER <= Addr(bs, i)
  {
    if i < j { AddrOrder(bs, i, j); } else { AddrOrder(bs, j, i); }
  }

  lemma EncodedFlip(m0: seq<byte>, m1: seq<byte>, bs: seq<Block>, i: nat, u: bool)
    requires Encoded(m0, bs) && i < |bs| && OnlyHeaders(m0, m1, {Addr(bs, i)})
    requires InHeap(m1, Addr(bs, i)) && HdrAt(m1, Addr(bs, i)) == HdrAt(m0, Addr(bs, i)).(inUse := if u then 1 else 0)
    ensures Encoded(m1, bs[i := Block(bs[i].size, u)])
  {
    hide HdrAt, OnlyHeaders;
    var cs := bs[i := Block(bs[i].size, u)];
    forall k | 0 <= k <= |bs| ensures Addr(cs, k) == Addr(bs, k) { FlipAddr(bs, i, u, k); }
    assert |m0| == |m1| by { SameSize(m0, m1, {Addr(bs, i)}); }
    forall k: nat | k < |cs|
      ensures InHeap(m1, Addr(cs, k)) && HdrAt(m1, Addr(cs, k)) == HdrOf(cs, k)
    {
      if k != i {
        HeadersApart(bs, k, i);
        HdrKept(m0, m1, {Addr(bs, i)}, Addr(bs, k));
      }
    }
  }

  lemma SameSize(m0: seq<byte>, m1: seq<byte>, hs: set<nat>)
    requires OnlyHeaders(m0, m1, hs)
    ensures |m0| == |m1|
  {
  }

  /** The header of the block after i, if there is one. */
  ghost function NextHeader(bs: seq<Block>, i: nat): set<nat>
    requires i < |bs|
  {
    if i + 1 < |bs| then {Addr(bs, i + 1)} else {}
  }

  /**
   * Two layouts, cs with blocks i and i + 1 where bs has their merger: memory that encodes one and
   * differs from memory m1 in the headers around the seam, as given, encodes the other in m1.
   */
  lemma EncodedMerge(m0: seq<byte>, m1: seq<byte>, cs: seq<Block>, i: nat)
    requires Encoded(m0, cs) && i + 1 < |cs| && !cs[i].used
    requires OnlyHeaders(m0, m1, {Addr(cs, i)} + NextHeader(cs, i + 1)) && InHeap(m1, Addr(cs, i))
    requires HdrAt(m1, Addr(cs, i)) == HdrAt(m0, Addr(cs, i)).(
      size := cs[i].size + cs[i + 1].size + HEADER, next := if i + 2 < |cs| then Addr(cs, i + 2) else 0)
    requires i + 2 < |cs| ==>
      InHeap(m1, Addr(cs, i + 2)) && HdrAt(m1, Addr(cs, i + 2)) == HdrAt(m0, Addr(cs, i + 2)).(prev := Addr(cs, i))
    ensures Encoded(m1, Merge(cs, i))
  {
    hide HdrAt, OnlyHeaders, HdrOf, Addr, NextHeader;
    var bs := Merge(cs, i);
    SameSize(m0, m1, {Addr(cs, i)} + NextHeader(cs, i + 1));
    MergeAddr(cs, i, i);
    forall k: nat | k < |bs|
      ensures InHeap(m1, Addr(bs, k)) && HdrAt(m1, Addr(bs, k)) == HdrOf(bs, k)
    {
      var l := if k <= i then k else k + 1;
      MergeAddr(cs, i, l);
      assert HdrAt(m0, Addr(cs, l)) == HdrOf(cs, l);
      OtherHeader(m0, m1, cs, i, l);
      MergedHeader(cs, i, k, l);
    }
  }

  lemma OtherHeader(m0: seq<byte>, m1: seq<byte>, cs: seq<Block>, i: nat, l: nat)
    requires i + 1 < |cs| && l < |cs| && InHeap(m0, Addr(cs, l))
    requires OnlyHeaders(m0, m1, {Addr(cs, i)} + NextHeader(cs, i + 1))
    ensures l != i && l != i + 2 ==> HdrAt(m1, Addr(cs, l)) == HdrAt(m0, Addr(cs, l))
    ensures InHeap(m1, Addr(cs, l))
  {
    hide HdrAt, Addr, OnlyHeaders;
    var hs := {Addr(cs, i)} + NextHeader(cs, i + 1);
    SameSize(m0, m1, hs);
    if l != i && l != i + 2 {
      HeadersApart(cs, l, i);
      if i + 2 < |cs| { HeadersApart(cs, l, i + 2); }
      HdrKept(m0, m1, hs, Addr(cs, l));
    }
  }

  lemma MergedHeader(cs: seq<Block>, i: nat, k: nat, l: nat)
    requires i + 1 < |cs| && k + 1 < |cs| && l == (if k <= i then k else k + 1) && !cs[i].used
    ensures var h := HdrOf(cs, l);
      HdrOf(Merge(cs, i), k) ==
        if l == i then
          h.(size := cs[i].size + cs[i + 1].size + HEADER, next := if i + 2 < |cs| then Addr(cs, i + 2) else 0)
        else if l == i + 2 then h.(prev := Addr(cs, i)) else h
  {
    hide Addr;
    var bs := Merge(cs, i);
    if k > 0 { MergeAddr(cs, i, if k - 1 <= i then k - 1 else k); }
    if k + 1 < |bs| { MergeAddr(cs, i, if k + 1 <= i then k + 1 else k + 2); }
  }

  lemma EncodedSplit(m0: seq<byte>, m1: seq<byte>, cs: seq<Block>, i: nat)
    requires i + 1 < |cs| && !cs[i].used && !cs[i + 1].used && Encoded(m0, Merge(cs, i))
    requires OnlyHeaders(m0, m1, {Addr(cs, i), Addr(cs, i + 1)} + NextHeader(cs, i + 1))
    requires InHeap(m1, Addr(cs, i)) && InHeap(m1, Addr(cs, i + 1)) && InHeap(m0, Addr(cs, i))
    requires HdrAt(m1, Addr(cs, i)) == HdrAt(m0, Addr(cs, i)).(size := cs[i].size, next := Addr(cs, i + 1))
    requires HdrAt(m1, Addr(cs, i + 1)) == Hdr(cs[i + 1].size, 0, HdrAt(m0, Addr(cs, i)).next, Addr(cs, i))
    requires i + 2 < |cs| ==>
      InHeap(m1, Addr(cs, i + 2)) && InHeap(m0, Addr(cs, i + 2)) &&
      HdrAt(m1, Addr(cs, i + 2)) == HdrAt(m0, Addr(cs, i + 2)).(prev := Addr(cs, i + 1))
    ensures Encoded(m1, cs)
  {
    hide HdrAt, OnlyHeaders, HdrOf, Addr, NextHeader;
    var bs := Merge(cs, i);
    var hs := {Addr(cs, i), Addr(cs, i + 1)} + NextHeader(cs, i + 1);
    SameSize(m0, m1, hs);
    MergeAddr(cs, i, i);
    SecondHeader(cs, i);
    forall k: nat | k < |cs|
      ensures InHeap(m1, Addr(cs, k)) && HdrAt(m1, Addr(cs, k)) == HdrOf(cs, k)
    {
      var l := if k <= i then k else k - 1;
      assert InHeap(m0, Addr(bs, l)) && HdrAt(m0, Addr(bs, l)) == HdrOf(bs, l);
      if k != i + 1 {
        MergeAddr(cs, i, k);
        MergedHeader(cs, i, l, k);
        UntouchedHeader(m0, m1, cs, i, k);
      } else {
        MergedHeader(cs, i, i, i);
      }
    }
  }

  lemma SecondHeader(cs: seq<Block>, i: nat)
    requires i + 1 < |cs| && !cs[i + 1].used
    ensures HdrOf(cs, i + 1) == Hdr(cs[i + 1].size, 0, if i + 2 < |cs| then Addr(cs, i + 2) else 0, Addr(cs, i))
    ensures HdrOf(cs, i).next == Addr(cs, i + 1) && HdrOf(cs, i).size == cs[i].size
    ensures i + 2 < |cs| ==> HdrOf(cs, i + 2).prev == Addr(cs, i + 1)
  {
  }

  lemma UntouchedHeader(m0: seq<byte>, m1: seq<byte>, cs: seq<Block>, i: nat, k: nat)
    requires i + 1 < |cs| && k < |cs| && InHeap(m0, Addr(cs, k))
    requires OnlyHeaders(m0, m1, {Addr(cs, i), Addr(cs, i + 1)} + NextHeader(cs, i + 1))
    ensures k != i && k != i + 1 && k != i + 2 ==> HdrAt(m1, Addr(cs, k)) == HdrAt(m0, Addr(cs, k))
    ensures InHeap(m1, Addr(cs, k))
  {
    hide HdrAt, Addr, OnlyHeaders;
    var hs := {Addr(cs, i), Addr(cs, i + 1)} + NextHeader(cs, i + 1);
    SameSize(m0, m1, hs);
    if k != i && k != i + 1 && k != i + 2 {
      HeadersApart(cs, k, i);
      HeadersApart(cs, k, i + 1);
      if i + 2 < |cs| { HeadersApart(cs, k, i + 2); }
      HdrKept(m0, m1, hs, Addr(cs, k));
    }
  }

  lemma EncodedAppend(m0: seq<byte>, m1: seq<byte>, bs: seq<Block>, b: Block)
    requires Encoded(m0, bs) && |bs| > 0 && Addr(bs, |bs|) + HEADER + b.size <= HEAP_BASE + |m0|
    requires OnlyHeaders(m0, m1, {Addr(bs, |bs| - 1), Addr(bs, |bs|)})
    requires InHeap(m1, Addr(bs, |bs|)) && InHeap(m1, Addr(bs, |bs| - 1))
    requires HdrAt(m1, Addr(bs, |bs|)) == Hdr(b.size, if b.used then 1 else 0, 0, Addr(bs, |bs| - 1))
    requires HdrAt(m1, Addr(bs, |bs| - 1)) == HdrAt(m0, Addr(bs, |bs| - 1)).(next := Addr(bs, |bs|))
    ensures Encoded(m1, bs + [b])
  {
    hide HdrAt, OnlyHeaders, HdrOf;
    var n := |bs|;
    var cs := bs + [b];
    var hs := {Addr(bs, n - 1), Addr(bs, n)};
    SameSize(m0, m1, hs);
    AddrPrefix(cs, bs, n);
    AddrPrefix(cs, bs, n - 1);
    forall k: nat | k < |cs|
      ensures InHeap(m1, Addr(cs, k)) && HdrAt(m1, Addr(cs, k)) == HdrOf(cs, k)
    {
      AppendedHeader(bs, b, k);
      if k < n { assert InHeap(m0, Addr(bs, k)) && HdrAt(m0, Addr(bs, k)) == HdrOf(bs, k); }
      if k < n - 1 {
        HeadersApart(bs, k, n - 1);
        AddrOrder(bs, k, n);
        HdrKept(m0, m1, hs, Addr(bs, k));
      }
    }
  }

  lemma AppendedHeader(bs: seq<Block>, b: Block, k: nat)
    requires k <= |bs| && |bs| > 0
    ensures Addr(bs + [b], k) == Addr(bs, k)
    ensures HdrOf(bs + [b], k) == if k == |bs| then Hdr(b.size, if b.used then 1 else 0, 0, Addr(bs, |bs| - 1))
      else if k == |bs| - 1 then HdrOf(bs, k).(next := Addr(bs, |bs|)) else HdrOf(bs, k)
  {
    AddrPrefix(bs + [b], bs, k);
    if k > 0 { AddrPrefix(bs + [b], bs, k - 1); }
    if k < |bs| { AddrPrefix(bs + [b], bs, k + 1); }
  }

  // ---------- the heap ----------

  class KernelHeap {
    /** The bytes of the kernel heap area, the first at `HEAP_BASE`. */
    const mem: array<byte>
    /** `heap_base` and `kernel_brk`. */
    var base: nat
    var brk: nat
    ghost var blocks: seq<Block>

    /** The block list is laid out in memory, tiles the heap up to the break, and is coalesced. */
    ghost predicate Valid()
      reads this, mem
    {
      && mem.Length == HEAP_SIZE && base == HEAP_BASE && |blocks| > 0
      && Encoded(mem[..], blocks) && NoAdjacentFree(blocks)
      && brk == Addr(blocks, |blocks|) && brk < HEAP_BASE + HEAP_SIZE
    }

    /** `kmalloc_init`. */
    constructor (area: array<byte>)
      requires area.Length == HEAP_SIZE
      modifies area
      ensures Valid() && mem == area && blocks == [Block(4 * 4096 - 32, false)]
    {
      mem := area;
      base, brk := HEAP_BASE, HEAP_BASE;
      new;
      var first := Sbrk(INIT_HEAP_SIZE);
      base := first.value;
      SetSize(base, INIT_HEAP_SIZE - HEADER);
      SetUse(base, 0);
      SetNext(base, 0);
      SetPrev(base, 0);
      blocks := [Block(INIT_HEAP_SIZE - HEADER, false)];
      assert Addr(blocks, 1) == HEAP_BASE + INIT_HEAP_SIZE;
      assert HdrAt(mem[..], Addr(blocks, 0)) == HdrOf(blocks, 0);
    }

    /**
     * `sbrk` of an increment as a 64-bit word; `None` is one of the three panics. Increments from 2^63
     * on are negative to the code and move the break down.
     */
    method Sbrk(inc: nat) returns (old_brk: Option<nat>)
      requires inc < WORD_LIMIT && HEAP_BASE <= brk < HEAP_BASE + HEAP_SIZE
      modifies this`brk
      ensures old_brk.Some? <==>
        || 0 < inc < 0xffff_c900_0008_0000 - old(brk)
        || 0x1_0000_0000_0000_0000 - (old(brk) - 0xffff_c900_0000_0000) <= inc
      ensures old_brk.Some? ==> old_brk.value == old(brk)
      ensures old_brk.Some? ==> brk == old(brk) + inc - if inc < HEAP_SIZE then 0 else WORD_LIMIT
    {
      if inc == 0 { return None; }
      brk := (brk + inc) % WORD_LIMIT;
      if brk < HEAP_BASE { return None; }
      if brk >= HEAP_BASE + HEAP_SIZE { return None; }
      return Some((brk - inc) % WORD_LIMIT);
    }

    method SetSize(a: nat, v: nat)
      requires InHeap(mem[..], a) && v < WORD_LIMIT
      modifies mem
      ensures InHeap(mem[..], a) && HdrAt(mem[..], a) == HdrAt(old(mem[..]), a).(size := v)
      ensures OnlyHeaders(old(mem[..]), mem[..], {a})
    {
      hide HdrAt, Write, OnlyHeaders;
      FieldStores(mem[..], a, v);
      Put(a, 8, v, a);
    }

    method SetUse(a: nat, v: nat)
      requires InHeap(mem[..], a) && v < 2
      modifies mem
      ensures InHeap(mem[..], a) && HdrAt(mem[..], a) == HdrAt(old(mem[..]), a).(inUse := v)
      ensures OnlyHeaders(old(mem[..]), mem[..], {a})
    {
      hide HdrAt, Write, OnlyHeaders;
      FieldStores(mem[..], a, v);
      Put(a + 8, 4, v, a);
    }

    method SetNext(a: nat, v: nat)
      requires InHeap(mem[..], a) && v < WORD_LIMIT
      modifies mem
      ensures InHeap(mem[..], a) && HdrAt(mem[..], a) == HdrAt(old(mem[..]), a).(next := v)
      ensures OnlyHeaders(old(mem[..]), mem[..], {a})
    {
      hide HdrAt, Write, OnlyHeaders;
      FieldStores(mem[..], a, v);
      Put(a + 16, 8, v, a);
    }

    method SetPrev(a: nat, v: nat)
      requires InHeap(mem[..], a) && v < WORD_LIMIT
      modifies mem
      ensures InHeap(mem[..], a) && HdrAt(mem[..], a) == HdrAt(old(mem[..]), a).(prev := v)
      ensures OnlyHeaders(old(mem[..]), mem[..], {a})
    {
      hide HdrAt, Write, OnlyHeaders;
      FieldStores(mem[..], a, v);
      Put(a + 24, 8, v, a);
    }

    /** Stores n bytes inside the header at h. */
    method Put(a: nat, n: nat, v: nat, ghost h: nat)
      requires InHeap(mem[..], h) && h <= a && a + n <= h + HEADER
      modifies mem
      ensures mem[..] == Write(old(mem[..]), a, n, v) && OnlyHeaders(old(mem[..]), mem[..], {h})
    {
      hide OnlyHeaders, ToLE;
      var bytes := ToLE(v, n);
      ghost var m := mem[..];
      var start := a - HEAP_BASE;
      forall j | start <= j < start + n { mem[j] := bytes[j - start]; }
      assert mem[..] == m[..start] + bytes + m[start + n..];
      WriteInHeader(m, a, n, v, h);
    }

    /** Fills in a whole header. */
    method InitHeader(a: nat, size: nat, inUse: nat, next: nat, prev: nat)
      requires InHeap(mem[..], a) && size < WORD_LIMIT && inUse < 2 && next < WORD_LIMIT && prev < WORD_LIMIT
      modifies mem
      ensures InHeap(mem[..], a) && HdrAt(mem[..], a) == Hdr(size, inUse, next, prev)
      ensures OnlyHeaders(old(mem[..]), mem[..], {a})
    {
      hide HdrAt, OnlyHeaders;
      ghost var m0 := mem[..];
      SetSize(a, size);
      ghost var m1 := mem[..];
      SetUse(a, inUse);
      ghost var m2 := mem[..];
      OnlyHeadersChain(m0, m1, m2, {a}, a);
      SetNext(a, next);
      ghost var m3 := mem[..];
      assert {a} + {a} == {a};
      OnlyHeadersChain(m0, m2, m3, {a}, a);
      SetPrev(a, prev);
      OnlyHeadersChain(m0, m3, mem[..], {a}, a);
    }

    /** `split_block`: carves a free block off the end of a free block that is large enough. */
    method SplitBlock(size: nat, a: nat, ghost i: nat)
      requires mem.Length == HEAP_SIZE && Encoded(mem[..], blocks)
      requires i < |blocks| && a == Addr(blocks, i) && Fits(blocks[i], size)
      modifies this`blocks, mem
      ensures Encoded(mem[..], blocks) && blocks == SplitOf(old(blocks), i, size)
      ensures PayloadsKept(old(mem[..]), mem[..], Live(old(blocks)))
    {
      hide HdrAt, OnlyHeaders, PayloadsKept, InHeap, Encoded, NextHeader;
      ghost var m0 := mem[..];
      ghost var bs := blocks;
      BlockHeader(m0, bs, i);
      var h := HdrAt(mem[..], a);
      if h.size - size <= HEADER {
        NoHeaders(m0, bs);
        return;
      }
      var n := a + HEADER + size;
      ghost var cs := SplitOf(bs, i, size);
      SplitFacts(m0, bs, cs, i, size);
      InitHeader(n, h.size - size - HEADER, 0, h.next, a);
      ghost var m1 := mem[..];
      SplitApart(m0, m1, cs, i, {n});
      SetSize(a, size);
      ghost var m2 := mem[..];
      OnlyHeadersChain(m0, m1, m2, {n}, a);
      SplitApart(m1, m2, cs, i, {a});
      if h.next != 0 {
        SetPrev(h.next, n);
      }
      ghost var m3 := mem[..];
      ghost var hs := {a, n} + NextHeader(cs, i + 1);
      SplitLink(m0, m2, m3, cs, i);
      SetNext(a, n);
      OnlyHeadersChain(m0, m3, mem[..], hs, a);
      assert hs + {a} == hs;
      SplitApart(m3, mem[..], cs, i, {a});
      EncodedSplit(m0, mem[..], cs, i);
      SpotsOfSplit(m0, mem[..], bs, cs, i, size);
      blocks := cs;
    }

    /**
     * `kmalloc`: the first block that fits, split if it is more than a header too large, or a new
     * block past the break. `None` is a panic: a request of size 0 or an exhausted heap. The largest
     * sizes are excluded: with a header they wrap (see `TestIff`) or move the break down (see `Sbrk`).
     */
    method Kmalloc(size: nat) returns (p: Option<nat>)
      requires Valid() && HEADER + size <= WORD_LIMIT - HEAP_SIZE
      modifies this`blocks, this`brk, mem
      ensures p.Some? <==> Served(old(blocks), size)
      ensures p.Some? ==>
        && Valid() && blocks == Malloc(old(blocks), size)
        && p.value == Addr(old(blocks), FirstFit(old(blocks), size)) + HEADER
        && PayloadsKept(old(mem[..]), mem[..], Live(old(blocks)))
    {
      hide HdrAt, OnlyHeaders, PayloadsKept, InHeap, Encoded, NoAdjacentFree, Malloc, Live, Addr;
      if size == 0 { return None; }
      ghost var m0, bs := mem[..], blocks;
      var target, last, i := Search(size);
      if target == 0 {
        target := Extend(size, last);
        if target == 0 { return None; }
      } else {
        SplitAddr(bs, i, size);
      }
      Claim(m0, bs, i, size, target);
      return Some(target + HEADER);
    }

    /** A store by the owner of the payload behind header address a. */
    method Store(a: nat, k: nat, b: byte)
      requires Valid() && a in Live(blocks) && k < Live(blocks)[a]
      modifies mem
      ensures Valid() && HEAP_BASE <= a && a + HEADER + k - HEAP_BASE < mem.Length
      ensures mem[..] == old(mem[..])[a + HEADER + k - HEAP_BASE := b]
      ensures PayloadsKept(old(mem[..]), mem[..], Live(blocks) - {a})
    {
      hide Encoded, Live, Addr, NoAdjacentFree, PayloadsKept;
      ghost var m0 := mem[..];
      LiveInHeap(m0, blocks, a);
      mem[a + HEADER + k - HEAP_BASE] := b;
      OwnerWrites(m0, mem[..], blocks, a, a + HEADER + k, 1);
    }

    /** The search loop, with the split of the block found; otherwise the last block is returned too. */
    method Search(size: nat) returns (target: nat, last: nat, ghost i: nat)
      requires Valid() && size > 0
      modifies this`blocks, mem
      ensures i == FirstFit(old(blocks), size)
      ensures i == |old(blocks)| ==>
        && target == 0 && blocks == old(blocks) && mem[..] == old(mem[..])
        && |blocks| > 0 && last == Addr(blocks, |blocks| - 1)
      ensures i < |old(blocks)| ==>
        && target == Addr(old(blocks), i) && target != 0 && blocks == SplitOf(old(blocks), i, size)
        && Encoded(mem[..], blocks) && PayloadsKept(old(mem[..]), mem[..], Live(old(blocks)))
    {
      hide HdrAt, OnlyHeaders, PayloadsKept, InHeap, Encoded, NoAdjacentFree, Live;
      ghost var m0, bs := mem[..], blocks;
      i := 0;
      var prev, curr := 0, base;
      while curr != 0
        invariant i <= |bs| && blocks == bs && mem[..] == m0
        invariant curr == if i < |bs| then Addr(bs, i) else 0
        invariant prev == if i > 0 then Addr(bs, i - 1) else 0
        invariant forall j :: 0 <= j < i ==> !Fits(bs[j], size)
        decreases |bs| - i
      {
        BlockHeader(m0, bs, i);
        var h := HdrAt(mem[..], curr);
        if h.inUse == 0 {
          if h.size == size {
            NoHeaders(m0, bs);
            FirstFitUnique(bs, size, i);
            return curr, prev, i;
          }
          if h.size >= size + HEADER {
            FirstFitUnique(bs, size, i);
            SplitBlock(size, curr, i);
            return curr, prev, i;
          }
        }
        prev := curr;
        curr := h.next;
        i := i + 1;
      }
      FirstFitUnique(bs, size, i);
      return 0, prev, i;
    }

    /** The growth path: a block past the break, linked after the last one. 0 stands for the panic. */
    method Extend(size: nat, last: nat) returns (target: nat)
      requires Valid() && size > 0 && last == Addr(blocks, |blocks| - 1) && HEADER + size <= WORD_LIMIT - HEAP_SIZE
      modifies this`blocks, this`brk, mem
      ensures target == 0 <==> old(brk) + HEADER + size >= HEAP_BASE + HEAP_SIZE
      ensures target != 0 ==>
        && target == old(brk) && brk == old(brk) + HEADER + size && Encoded(mem[..], blocks)
        && blocks == old(blocks) + [Block(size, true)] && PayloadsKept(old(mem[..]), mem[..], Live(old(blocks)))
        && Addr(blocks, |old(blocks)|) == target && Addr(blocks, |blocks|) == brk
    {
      hide HdrAt, OnlyHeaders, PayloadsKept, Encoded;
      ghost var m0, bs := mem[..], blocks;
      ghost var n := |bs|;
      BlockHeader(m0, bs, n - 1);
      var t := Sbrk(HEADER + size);
      if t.None? { return 0; }
      target := t.value;
      AddrOrder(bs, n - 1, n);
      InitHeader(target, size, 1, 0, last);
      ghost var m1 := mem[..];
      SameSize(m0, m1, {target});
      HdrKept(m0, m1, {target}, last);
      SetNext(last, target);
      SameSize(m1, mem[..], {last});
      HdrKept(m1, mem[..], {last}, target);
      OnlyHeadersChain(m0, m1, mem[..], {target}, last);
      assert {target} + {last} == {last, target};
      blocks := bs + [Block(size, true)];
      EncodedAppend(m0, mem[..], bs, Block(size, true));
      AddrPrefix(blocks, bs, n);
      assert SpotIn(bs, target, n) && SpotIn(bs, last, n - 1);
      HeadersSpare(m0, mem[..], bs, {last, target});
    }

    /** `target->in_use = 1`. */
    method Claim(ghost m0: seq<byte>, ghost bs: seq<Block>, ghost i: nat, size: nat, target: nat)
      requires mem.Length == HEAP_SIZE && base == HEAP_BASE && |bs| > 0 && NoAdjacentFree(bs)
      requires Encoded(mem[..], blocks)
      requires i == FirstFit(bs, size) && Addr(bs, |bs|) <= HEAP_BASE + |m0| && |m0| == HEAP_SIZE
      requires blocks == if i < |bs| then SplitOf(bs, i, size) else bs + [Block(size, true)]
      requires i < |blocks| && target == Addr(blocks, i) && brk == Addr(blocks, |blocks|) < HEAP_BASE + HEAP_SIZE
      requires PayloadsKept(m0, mem[..], Live(bs))
      modifies this`blocks, mem
      ensures Valid() && blocks == Malloc(bs, size) && PayloadsKept(m0, mem[..], Live(bs))
    {
      hide HdrAt, OnlyHeaders, PayloadsKept, Encoded, NoAdjacentFree, Addr, Live, Malloc;
      ghost var m1, cs := mem[..], blocks;
      BlockHeader(m1, cs, i);
      ClaimIsMalloc(bs, cs, i, size);
      SetUse(target, 1);
      EncodedFlip(m1, mem[..], cs, i, true);
      blocks := cs[i := Block(cs[i].size, true)];
      FlipAddr(cs, i, true, |cs|);
      MallocCoalesced(bs, size);
      assert SpotIn(cs, target, i);
      HeadersSpare(m1, mem[..], cs, {target});
      LiveBeforeClaim(bs, cs, i, size);
      PayloadsChain(m0, m1, mem[..], Live(bs), Live(cs));
    }

    /**
     * `free` of a live payload: its block is free, merged with a free neighbour on either side, and
     * no other live payload has changed.
     */
    method KFree(ptr: nat, ghost i: nat)
      requires Valid() && i < |blocks| && blocks[i].used && ptr == Addr(blocks, i) + HEADER
      modifies this`blocks, mem
      ensures Valid() && blocks == Free(old(blocks), i)
      ensures PayloadsKept(old(mem[..]), mem[..], Live(old(blocks)) - {ptr - HEADER})
    {
      hide HdrAt, OnlyHeaders, PayloadsKept, InHeap, Encoded, NoAdjacentFree, Live;
      ghost var m0, bs := mem[..], blocks;
      ghost var live := Live(bs) - {ptr - HEADER};
      FreeCoalesced(bs, i);
      LiveFree(bs, i);
      Unclaim(ptr - HEADER, i);
      ghost var m1 := mem[..];
      ghost var j;
      var a;
      a, j := AbsorbBack(ptr - HEADER, i);
      ghost var m2 := mem[..];
      PayloadsChain(m0, m1, m2, live, live);
      AbsorbForward(a, j);
      PayloadsChain(m0, m2, mem[..], live, live);
    }

    /** A free block before `a` takes it over; the block that `a` is in then is returned. */
    method AbsorbBack(a: nat, ghost i: nat) returns (b: nat, ghost j: nat)
      requires mem.Length == HEAP_SIZE && Encoded(mem[..], blocks)
      requires i < |blocks| && !blocks[i].used && a == Addr(blocks, i)
      modifies this`blocks, mem
      ensures Encoded(mem[..], blocks) && (blocks, j) == MergeBack(old(blocks), i)
      ensures j < |blocks| && !blocks[j].used && b == Addr(blocks, j) && Live(blocks) == Live(old(blocks))
      ensures PayloadsKept(old(mem[..]), mem[..], Live(blocks))
    {
      hide HdrAt, OnlyHeaders, PayloadsKept, InHeap, Encoded, Live, Addr;
      ghost var m1, b1 := mem[..], blocks;
      BlockHeader(m1, b1, i);
      var h := HdrAt(mem[..], a);
      if i > 0 { BlockHeader(m1, b1, i - 1); }
      if h.prev != 0 && HdrAt(mem[..], h.prev).inUse == 0 {
        Absorb(h.prev, a, i - 1);
        return h.prev, i - 1;
      }
      NoHeaders(m1, b1);
      return a, i;
    }

    /** The free block `a` takes over a free block right behind it. */
    method AbsorbForward(a: nat, ghost j: nat)
      requires mem.Length == HEAP_SIZE && Encoded(mem[..], blocks)
      requires j < |blocks| && !blocks[j].used && a == Addr(blocks, j)
      modifies this`blocks, mem
      ensures Encoded(mem[..], blocks) && blocks == MergeForward(old(blocks), j)
      ensures PayloadsKept(old(mem[..]), mem[..], Live(old(blocks)))
    {
      hide HdrAt, OnlyHeaders, PayloadsKept, InHeap, Encoded, Live, Addr;
      ghost var m2, cs := mem[..], blocks;
      BlockHeader(m2, cs, j);
      var h := HdrAt(mem[..], a);
      if j + 1 < |cs| { BlockHeader(m2, cs, j + 1); }
      if h.next != 0 && HdrAt(mem[..], h.next).inUse == 0 {
        Absorb(a, h.next, j);
      } else {
        NoHeaders(m2, cs);
      }
    }

    /** `block->in_use = 0`. */
    method Unclaim(a: nat, ghost i: nat)
      requires Valid() && i < |blocks| && blocks[i].used && a == Addr(blocks, i)
      modifies this`blocks, mem
      ensures Encoded(mem[..], blocks) && blocks == old(blocks)[i := Block(old(blocks)[i].size, false)]
      ensures Addr(blocks, i) == a && Live(blocks) == Live(old(blocks)) - {a}
      ensures PayloadsKept(old(mem[..]), mem[..], Live(blocks))
    {
      hide HdrAt, OnlyHeaders, PayloadsKept, Encoded, NoAdjacentFree, Live;
      ghost var m0, bs := mem[..], blocks;
      BlockHeader(m0, bs, i);
      SetUse(a, 0);
      EncodedFlip(m0, mem[..], bs, i, false);
      FlipAddr(bs, i, false, i);
      FlipAddr(bs, i, false, |bs|);
      LiveFlip(bs, i, false);
      blocks := bs[i := Block(bs[i].size, false)];
      BlockInHeap(m0, bs, |bs| - 1);
      assert SpotIn(blocks, a, i);
      HeadersSpare(m0, mem[..], blocks, {a});
    }

    /** Coalescing: free block `a` takes over the free block `b` right behind it. */
    method Absorb(a: nat, b: nat, ghost i: nat)
      requires mem.Length == HEAP_SIZE && Encoded(mem[..], blocks)
      requires i + 1 < |blocks| && !blocks[i].used && !blocks[i + 1].used
      requires a == Addr(blocks, i) && b == Addr(blocks, i + 1)
      modifies this`blocks, mem
      ensures Encoded(mem[..], blocks) && blocks == Merge(old(blocks), i)
      ensures Addr(blocks, i) == a && Live(blocks) == Live(old(blocks))
      ensures PayloadsKept(old(mem[..]), mem[..], Live(old(blocks)))
    {
      hide HdrAt, OnlyHeaders, PayloadsKept, Encoded, Live, NextHeader;
      ghost var m0, cs := mem[..], blocks;
      BlockHeader(m0, cs, i);
      BlockHeader(m0, cs, i + 1);
      var ha, hb := HdrAt(mem[..], a), HdrAt(mem[..], b);
      SetSize(a, ha.size + hb.size + HEADER);
      ghost var m1 := mem[..];
      SetNext(a, hb.next);
      ghost var m2 := mem[..];
      OnlyHeadersChain(m0, m1, m2, {a}, a);
      assert {a} + {a} == {a};
      SameSize(m0, m2, {a});
      if i + 2 < |cs| { BeforeLink(m0, m2, cs, i); }
      if hb.next != 0 {
        SetPrev(hb.next, a);
      }
      AbsorbLink(m0, m2, mem[..], cs, i);
      EncodedMerge(m0, mem[..], cs, i);
      LiveMerge(cs, i);
      MergeAddr(cs, i, i);
      AbsorbSpots(m0, mem[..], cs, i);
      blocks := Merge(cs, i);
    }
  }

  lemma BeforeLink(m0: seq<byte>, m2: seq<byte>, cs: seq<Block>, i: nat)
    requires Encoded(m0, cs) && i + 2 < |cs| && OnlyHeaders(m0, m2, {Addr(cs, i)}) && |m2| == |m0|
    ensures InHeap(m0, Addr(cs, i + 2)) && InHeap(m2, Addr(cs, i + 2))
    ensures HdrAt(m2, Addr(cs, i + 2)) == HdrAt(m0, Addr(cs, i + 2))
  {
    hide HdrAt, OnlyHeaders, Addr;
    BlockHeader(m0, cs, i + 2);
    HeadersApart(cs, i, i + 2);
    HdrKept(m0, m2, {Addr(cs, i)}, Addr(cs, i + 2));
  }

  lemma AbsorbLink(m0: seq<byte>, m2: seq<byte>, m3: seq<byte>, cs: seq<Block>, i: nat)
    requires i + 1 < |cs| && OnlyHeaders(m0, m2, {Addr(cs, i)}) && InHeap(m2, Addr(cs, i))
    requires if i + 2 < |cs| then OnlyHeaders(m2, m3, {Addr(cs, i + 2)}) else m3 == m2
    ensures OnlyHeaders(m0, m3, {Addr(cs, i)} + NextHeader(cs, i + 1)) && InHeap(m3, Addr(cs, i))
    ensures HdrAt(m3, Addr(cs, i)) == HdrAt(m2, Addr(cs, i))
  {
    hide HdrAt, OnlyHeaders, Addr;
    if i + 2 < |cs| {
      var x := Addr(cs, i + 2);
      OnlyHeadersChain(m0, m2, m3, {Addr(cs, i)}, x);
      SameSize(m2, m3, {x});
      HeadersApart(cs, i, i + 2);
      HdrKept(m2, m3, {x}, Addr(cs, i));
    } else {
      assert {Addr(cs, i)} + {} == {Addr(cs, i)};
    }
  }

  lemma AbsorbSpots(m0: seq<byte>, m1: seq<byte>, cs: seq<Block>, i: nat)
    requires Encoded(m0, cs) && i + 1 < |cs| && OnlyHeaders(m0, m1, {Addr(cs, i)} + NextHeader(cs, i + 1))
    ensures PayloadsKept(m0, m1, Live(cs))
  {
    hide HdrAt, OnlyHeaders, PayloadsKept;
    assert SpotIn(cs, Addr(cs, i), i);
    if i + 2 < |cs| { assert SpotIn(cs, Addr(cs, i + 2), i + 2); }
    HeadersSpare(m0, m1, cs, {Addr(cs, i)} + NextHeader(cs, i + 1));
  }

  /** Where the block that was found, and perhaps split, lies. */
  lemma SplitAddr(bs: seq<Block>, i: nat, size: nat)
    requires i < |bs| && Fits(bs[i], size)
    ensures var cs := SplitOf(bs, i, size);
      i < |cs| && Addr(cs, i) == Addr(bs, i) && Addr(cs, |cs|) == Addr(bs, |bs|)
  {
    hide Addr;
    var cs := SplitOf(bs, i, size);
    if bs[i].size - size > HEADER {
      assert Merge(cs, i) == bs;
      MergeAddr(cs, i, i);
    }
  }

  lemma LiveBeforeClaim(bs: seq<Block>, cs: seq<Block>, i: nat, size: nat)
    requires i == FirstFit(bs, size) && cs == if i < |bs| then SplitOf(bs, i, size) else bs + [Block(size, true)]
    ensures forall a :: a in Live(bs) ==> a in Live(cs) && Live(cs)[a] == Live(bs)[a]
  {
    hide Live;
    if i == |bs| {
      LiveAppend(bs, Block(size, true));
      forall a | a in Live(bs) ensures a != Addr(bs, |bs|) {
        var k := LiveIndex(bs, a);
        AddrOrder(bs, k, |bs|);
      }
    } else if cs != bs {
      assert Merge(cs, i) == bs;
      LiveMerge(cs, i);
    }
  }

  /** Splitting a free block in two free blocks. */
  function SplitOf(bs: seq<Block>, i: nat, size: nat): seq<Block>
    requires i < |bs| && Fits(bs[i], size)
  {
    if bs[i].size - size <= HEADER then bs
    else bs[..i] + [Block(size, false), Block(bs[i].size - size - HEADER, false)] + bs[i + 1..]
  }

  /** What the header of a block says. */
  lemma BlockHeader(m: seq<byte>, bs: seq<Block>, i: nat)
    requires Encoded(m, bs) && i < |bs|
    ensures InHeap(m, Addr(bs, i)) && HdrAt(m, Addr(bs, i)) == HdrOf(bs, i)
    ensures Addr(bs, i) + HEADER + bs[i].size <= HEAP_BASE + |m|
    ensures i + 1 < |bs| ==> Addr(bs, i + 1) == Addr(bs, i) + HEADER + bs[i].size && InHeap(m, Addr(bs, i + 1))
    ensures i > 0 ==> Addr(bs, i - 1) + HEADER <= Addr(bs, i) && InHeap(m, Addr(bs, i - 1))
  {
    hide HdrAt;
    BlockInHeap(m, bs, i);
    if i > 0 { AddrOrder(bs, i - 1, i); }
  }

  lemma NoHeaders(m: seq<byte>, bs: seq<Block>)
    requires Encoded(m, bs)
    ensures PayloadsKept(m, m, Live(bs))
  {
    hide HdrAt;
    assert OnlyHeaders(m, m, {});
    HeadersSpare(m, m, bs, {});
  }

  lemma SplitFacts(m: seq<byte>, bs: seq<Block>, cs: seq<Block>, i: nat, size: nat)
    requires Encoded(m, bs) && i < |bs| && Fits(bs[i], size) && bs[i].size - size > HEADER && cs == SplitOf(bs, i, size)
    ensures |cs| == |bs| + 1 && cs[i] == Block(size, false) && cs[i + 1] == Block(bs[i].size - size - HEADER, false)
    ensures Merge(cs, i) == bs
    ensures Addr(cs, i) == Addr(bs, i) && Addr(cs, i + 1) == Addr(bs, i) + HEADER + size
    ensures i + 1 < |bs| ==> Addr(cs, i + 2) == Addr(bs, i + 1) && InHeap(m, Addr(cs, i + 2))
    ensures InHeap(m, Addr(cs, i)) && InHeap(m, Addr(cs, i + 1))
    ensures HdrOf(bs, i).next == if i + 2 < |cs| then Addr(cs, i + 2) else 0
  {
    hide HdrAt;
    assert Merge(cs, i) == bs;
    MergeAddr(cs, i, i);
    BlockInHeap(m, bs, i);
    if i + 1 < |bs| {
      MergeAddr(cs, i, i + 2);
      BlockInHeap(m, bs, i + 1);
    }
  }

  /** A store to one of the three headers around the seam leaves the other two alone. */
  lemma SplitApart(m0: seq<byte>, m1: seq<byte>, cs: seq<Block>, i: nat, hs: set<nat>)
    requires i + 1 < |cs| && OnlyHeaders(m0, m1, hs) && InHeap(m0, Addr(cs, i)) && InHeap(m0, Addr(cs, i + 1))
    requires hs == {Addr(cs, i)} || hs == {Addr(cs, i + 1)}
    requires i + 2 < |cs| ==> InHeap(m0, Addr(cs, i + 2))
    ensures InHeap(m1, Addr(cs, i)) && InHeap(m1, Addr(cs, i + 1)) && (i + 2 < |cs| ==> InHeap(m1, Addr(cs, i + 2)))
    ensures hs == {Addr(cs, i)} ==> HdrAt(m1, Addr(cs, i + 1)) == HdrAt(m0, Addr(cs, i + 1))
    ensures hs == {Addr(cs, i + 1)} ==> HdrAt(m1, Addr(cs, i)) == HdrAt(m0, Addr(cs, i))
    ensures i + 2 < |cs| ==> HdrAt(m1, Addr(cs, i + 2)) == HdrAt(m0, Addr(cs, i + 2))
  {
    hide HdrAt, Addr, OnlyHeaders;
    SameSize(m0, m1, hs);
    HeadersApart(cs, i, i + 1);
    if hs == {Addr(cs, i)} { HdrKept(m0, m1, hs, Addr(cs, i + 1)); }
    if hs == {Addr(cs, i + 1)} { HdrKept(m0, m1, hs, Addr(cs, i)); }
    if i + 2 < |cs| {
      HeadersApart(cs, i, i + 2);
      HeadersApart(cs, i + 1, i + 2);
      HdrKept(m0, m1, hs, Addr(cs, i + 2));
    }
  }

  /** After the conditional store to the following block. */
  lemma SplitLink(m0: seq<byte>, m2: seq<byte>, m3: seq<byte>, cs: seq<Block>, i: nat)
    requires i + 1 < |cs| && OnlyHeaders(m0, m2, {Addr(cs, i + 1)} + {Addr(cs, i)})
    requires InHeap(m2, Addr(cs, i)) && InHeap(m2, Addr(cs, i + 1))
    requires if i + 2 < |cs| then OnlyHeaders(m2, m3, {Addr(cs, i + 2)}) else m3 == m2
    ensures OnlyHeaders(m0, m3, {Addr(cs, i), Addr(cs, i + 1)} + NextHeader(cs, i + 1))
    ensures InHeap(m3, Addr(cs, i)) && InHeap(m3, Addr(cs, i + 1))
    ensures HdrAt(m3, Addr(cs, i)) == HdrAt(m2, Addr(cs, i)) && HdrAt(m3, Addr(cs, i + 1)) == HdrAt(m2, Addr(cs, i + 1))
  {
    hide HdrAt, Addr, OnlyHeaders;
    assert {Addr(cs, i + 1)} + {Addr(cs, i)} == {Addr(cs, i), Addr(cs, i + 1)};
    if i + 2 < |cs| {
      var x := Addr(cs, i + 2);
      OnlyHeadersChain(m0, m2, m3, {Addr(cs, i), Addr(cs, i + 1)}, x);
      SameSize(m2, m3, {x});
      HeadersApart(cs, i, i + 2);
      HeadersApart(cs, i + 1, i + 2);
      HdrKept(m2, m3, {x}, Addr(cs, i));
      HdrKept(m2, m3, {x}, Addr(cs, i + 1));
    } else {
      assert {Addr(cs, i), Addr(cs, i + 1)} + {} == {Addr(cs, i), Addr(cs, i + 1)};
    }
  }

  lemma SpotsOfSplit(m0: seq<byte>, m1: seq<byte>, bs: seq<Block>, cs: seq<Block>, i: nat, size: nat)
    requires Encoded(m0, bs) && i < |bs| && Fits(bs[i], size) && bs[i].size - size > HEADER
    requires cs == SplitOf(bs, i, size)
    requires OnlyHeaders(m0, m1, {Addr(cs, i), Addr(cs, i + 1)} + NextHeader(cs, i + 1))
    ensures PayloadsKept(m0, m1, Live(bs))
  {
    hide HdrAt, OnlyHeaders, PayloadsKept;
    SplitFacts(m0, bs, cs, i, size);
    assert SpotIn(bs, Addr(cs, i), i);
    assert SpotIn(bs, Addr(cs, i + 1), i);
    if i + 2 < |cs| { assert SpotIn(bs, Addr(cs, i + 2), i + 1); }
    HeadersSpare(m0, m1, bs, {Addr(cs, i), Addr(cs, i + 1)} + NextHeader(cs, i + 1));
  }
}
