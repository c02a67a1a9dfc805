/**
 * The block tree of an ext2 inode and reading a file through it (src/fs/ext2.c, src/drivers/ata.c). The
 * disk is its bytes; one buffer holds each pointer block on the way and then the data, and every read
 * borrows a sector buffer from the kernel heap.
 */
module Ext2 {
  import opened Bytes
  import opened Layout
  import opened Heap

  const NDIR: nat := 12
  const INODE_SIZE: nat := 128
  const SECTOR: nat := 512

  // ---------- paths in the block tree ----------

  /** A path with p pointers per block: an index into the inode's pointers, then one into each block. */
  predicate ValidPath(p: nat, path: seq<int>)
  {
    && 1 <= |path| <= 4
    && (if |path| == 1 then 0 <= path[0] < NDIR else path[0] == 10 + |path|)
    && (forall i :: 1 <= i < |path| ==> 0 <= path[i] < p)
  }

  /** The pointers of a path below its first, read as a number in base p. */
  function Digits(p: nat, ds: seq<int>): (n: int)
  {
    if ds == [] then 0 else Digits(p, ds[..|ds| - 1]) * p + ds[|ds| - 1]
  }

  /** How many blocks the tree holds before its single, double and triple parts. */
  function Before(p: nat, depth: nat): (n: nat)
    requires 1 <= depth <= 4
  {
    if depth == 1 then 0
    else if depth == 2 then NDIR
    else if depth == 3 then NDIR + p
    else NDIR + p + p * p
  }

  /** Which block of the file a path leads to. */
  function BlockIndex(p: nat, path: seq<int>): (k: int)
    requires ValidPath(p, path)
  {
    if |path| == 1 then path[0] else Before(p, |path|) + Digits(p, path[1..])
  }

  lemma DigitsOf(p: nat, a: int, b: int, c: int)
    ensures Digits(p, [a]) == a
    ensures Digits(p, [a, b]) == a * p + b
    ensures Digits(p, [a, b, c]) == (a * p + b) * p + c
  {
    assert [a][..0] == [] && [a, b][..1] == [a] && [a, b, c][..2] == [a, b];
  }

  /** Digits in range give a number below p to the power of their count, and different digits different numbers. */
  lemma {:induction false} DigitsBound(p: nat, ds: seq<int>)
    requires forall i :: 0 <= i < |ds| ==> 0 <= ds[i] < p
    ensures 0 <= Digits(p, ds) < Power(p, |ds|)
  {
    if ds != [] {
      DigitsBound(p, ds[..|ds| - 1]);
      var d := Digits(p, ds[..|ds| - 1]);
      Scale(d + 1, Power(p, |ds| - 1), p);
      assert (d + 1) * p == d * p + p;
    }
  }

  lemma {:induction false} DigitsUnique(p: nat, ds: seq<int>, es: seq<int>)
    requires |ds| == |es| && Digits(p, ds) == Digits(p, es)
    requires forall i :: 0 <= i < |ds| ==> 0 <= ds[i] < p && 0 <= es[i] < p
    ensures ds == es
  {
    if ds != [] {
      var n := |ds| - 1;
      var q := Digits(p, es[..n]);
      DivUnique(Digits(p, ds), p, Digits(p, ds[..n]), ds[n]);
      DivUnique(Digits(p, es), p, q, es[n]);
      DigitsUnique(p, ds[..n], es[..n]);
      assert ds == ds[..n] + [ds[n]] && es == es[..n] + [es[n]];
    }
  }

  lemma Powers(p: nat)
    ensures Power(p, 1) == p && Power(p, 2) == p * p && Power(p, 3) == p * p * p
  {
    assert Power(p, 0) == 1;
  }

  /** No two paths lead to the same block. */
  lemma PathUnique(p: nat, a: seq<int>, b: seq<int>)
    requires ValidPath(p, a) && ValidPath(p, b) && BlockIndex(p, a) == BlockIndex(p, b)
    ensures a == b
  {
    Powers(p);
    DigitsBound(p, a[1..]);
    DigitsBound(p, b[1..]);
    assert |a| == |b|;
    if |a| > 1 { DigitsUnique(p, a[1..], b[1..]); }
    assert a == [a[0]] + a[1..] && b == [b[0]] + b[1..];
  }

  /** The blocks for which the path is computed correctly. */
  predicate Reached(p: nat, blk: nat)
  {
    || blk < 12 + p
    || 24 + p <= blk < 12 + p + p * p
    || 12 + 2 * p + p * p <= blk < 12 + p + 2 * (p * p)
  }

  /** Beyond this block the path computation panics. */
  function PanicAt(p: nat): (k: nat)
  {
    12 + p + 2 * (p * p) + p * p * (p * p)
  }

  /** With blocks of 1024 bytes or more no 32-bit block number reaches the panic. */
  lemma NoPanic(p: nat)
    requires p >= 256
    ensures PanicAt(p) >= UINT_LIMIT
  {
    Scale(256, p, p);
    Scale(256, p, 256);
    var d := p * p;
    assert d >= 0x1_0000;
    Scale(0x1_0000, d, d);
    Scale(0x1_0000, d, 0x1_0000);
  }

  /** Whether a path is in range and leads to block blk. */
  predicate LeadsTo(p: nat, path: seq<int>, blk: nat)
  {
    ValidPath(p, path) && BlockIndex(p, path) == blk
  }

  lemma Quotient(p: nat, b: nat)
    requires p > 0
    ensures b == b / p * p + b % p
    ensures b / p < p <==> b < p * p
    ensures b < p * p ==> b / (p * p) == 0
  {
    if b / p >= p { Scale(p, b / p, p); } else { Scale(b / p + 1, p, p); }
  }

  lemma SinglePath(p: nat, blk: nat)
    requires NDIR <= blk
    ensures LeadsTo(p, [12, blk - NDIR], blk) <==> blk < NDIR + p
  {
    var path := [12, blk - NDIR];
    assert path[1..] == [blk - NDIR];
    DigitsOf(p, blk - NDIR, 0, 0);
  }

  lemma DoublePath(p: nat, b: nat)
    requires p > 0
    ensures LeadsTo(p, [13, b / p, b % p], b + NDIR + p) <==> b < p * p
  {
    var path := [13, b / p, b % p];
    assert path[1..] == [b / p, b % p] && path[1] == b / p;
    DigitsOf(p, b / p, b % p, 0);
    Quotient(p, b);
  }

  lemma TriplePath(p: nat, b: nat)
    requires p > 0
    ensures LeadsTo(p, [14, b / (p * p), b / p, b % p], b + NDIR + p + p * p) <==> b < p * p
  {
    var path := [14, b / (p * p), b / p, b % p];
    assert path[1..] == [b / (p * p), b / p, b % p] && path[2] == b / p;
    DigitsOf(p, b / (p * p), b / p, b % p);
    Quotient(p, b);
  }

  /**
   * `ext2_block_offsets`; 0 stands for the panic. The range tests subtract the size of the previous
   * level once more than they should and the triple level lacks a modulus, so the path is right for
   * exactly the blocks `Reached`.
   */
  method BlockOffsets(p: nat, block: nat, offsets: array<int>) returns (n: nat)
    requires 4 <= p <= 0x4000 && block < UINT_LIMIT && offsets.Length == 4
    modifies offsets
    ensures n <= 4 && (n == 0 <==> block >= PanicAt(p))
    ensures n > 0 ==> (LeadsTo(p, offsets[..n], block) <==> Reached(p, block))
  {
    n := 0;
    var blk := block;
    var indirect := p;
    var double := indirect * indirect;
    var triple := double * double;
    Scale(4, p, p);
    if blk < NDIR {
      offsets[0] := blk;
      n := 1;
      assert offsets[..1] == [block];
      return;
    }
    blk := blk - NDIR;
    if blk - NDIR < indirect {
      offsets[0], offsets[1] := 12, blk;
      n := 2;
      SinglePath(p, block);
      assert offsets[..2] == [12, block - NDIR];
      return;
    }
    blk := blk - indirect;
    if blk - indirect < double {
      offsets[0], offsets[1], offsets[2] := 13, blk / p, blk % p;
      n := 3;
      DoublePath(p, blk);
      assert offsets[..3] == [13, blk / p, blk % p];
      return;
    }
    blk := blk - double;
    if blk - double < triple {
      offsets[0], offsets[1], offsets[2], offsets[3] := 14, blk / (p * p), blk / p, blk % p;
      n := 4;
      TriplePath(p, blk);
      assert offsets[..4] == [14, blk / (p * p), blk / p, blk % p];
      return;
    }
  }

  /** Every block below the capacity of the tree has a path. */
  function PathTo(p: nat, k: nat): (path: seq<int>)
    requires 0 < p && k < NDIR + p + p * p + p * p * p
    ensures LeadsTo(p, path, k)
  {
    if k < NDIR then [k]
    else if k < NDIR + p then SinglePath(p, k); [12, k - NDIR]
    else if k < NDIR + p + p * p then
      var b := k - NDIR - p;
      DoublePath(p, b);
      [13, b / p, b % p]
    else
      var b := k - NDIR - p - p * p;
      ThreeDigits(p, b);
      [14, b / p / p, b / p % p, b % p]
  }

  lemma ThreeDigits(p: nat, b: nat)
    requires 0 < p && b < p * p * p
    ensures LeadsTo(p, [14, b / p / p, b / p % p, b % p], b + NDIR + p + p * p)
  {
    hide LeadsTo;
    var q, c := b / p, b % p;
    DivMod(p, b);
    BelowSquare(p, b, q, c);
    var a, d := q / p, q % p;
    DivMod(p, q);
    BelowRoot(p, q, a, d);
    TripleOf(p, b, q, a, d, c);
  }

  lemma DivMod(p: nat, b: nat)
    requires p > 0
    ensures b == b / p * p + b % p && b % p < p
  {
  }

  lemma BelowRoot(p: nat, q: nat, a: nat, d: nat)
    requires q == a * p + d && q < p * p
    ensures a < p
  {
    if a >= p { Scale(p, a, p); }
  }

  lemma BelowSquare(p: nat, b: nat, q: nat, c: nat)
    requires b == q * p + c && b < p * p * p
    ensures q < p * p
  {
    if q >= p * p { Scale(p * p, q, p); }
  }

  lemma TripleOf(p: nat, b: nat, q: nat, a: nat, d: nat, c: nat)
    requires a < p && d < p && c < p && q == a * p + d && b == q * p + c
    ensures LeadsTo(p, [14, a, d, c], b + NDIR + p + p * p)
  {
    var path := [14, a, d, c];
    assert path[1..] == [a, d, c];
    DigitsOf(p, a, d, c);
  }

  // ---------- reading through the tree ----------

  /** The fields of an inode that reading uses; `blocks` is the field i_blocks. */
  datatype Inode = Inode(size: nat, blocks: nat, block: seq<nat>)

  predicate BlockSize(bs: nat)
  {
    1024 <= bs <= 0x1_0000 && bs % SECTOR == 0
  }

  predicate OnDisk(disk: seq<byte>, bs: nat, b: nat)
  {
    b * bs < UINT_LIMIT && b * bs + bs <= |disk|
  }

  function DiskBlock(disk: seq<byte>, bs: nat, b: nat): (r: seq<byte>)
    requires OnDisk(disk, bs, b)
    ensures |r| == bs
  {
    disk[b * bs..b * bs + bs]
  }

  /** The i-th pointer of a pointer block. */
  function Pointer(block: seq<byte>, i: int): (b: nat)
    requires 0 <= i && 4 * i + 4 <= |block|
  {
    FromLE(block[4 * i..4 * i + 4])
  }

  /** The tree below block b has no hole on the way along a path: every block is on the disk and not block 0. */
  predicate Present(disk: seq<byte>, bs: nat, b: nat, path: seq<int>)
    decreases |path|
  {
    && b != 0 && OnDisk(disk, bs, b)
    && (path == [] ||
        ( && 0 <= path[0] && 4 * path[0] + 4 <= bs
          && Present(disk, bs, Pointer(DiskBlock(disk, bs, b), path[0]), path[1..])))
  }

  /** The block at the end of a path. */
  function Follow(disk: seq<byte>, bs: nat, b: nat, path: seq<int>): (leaf: nat)
    requires Present(disk, bs, b, path)
    ensures OnDisk(disk, bs, leaf)
    decreases |path|
  {
    if path == [] then b else Follow(disk, bs, Pointer(DiskBlock(disk, bs, b), path[0]), path[1..])
  }

  lemma ReachedInTree(p: nat, k: nat)
    requires 0 < p && Reached(p, k)
    ensures k < NDIR + p + p * p + p * p * p
  {
    Scale(1, p, p * p);
  }

  /** The path of a block for which it is computed correctly. */
  function Route(bs: nat, k: nat): (path: seq<int>)
    requires BlockSize(bs) && Reached(bs / 4, k)
    ensures LeadsTo(bs / 4, path, k) && 1 <= |path| <= 4 && 0 <= path[0] < 15
  {
    ReachedInTree(bs / 4, k);
    PathTo(bs / 4, k)
  }

  /** Block k of the file is reached and present. */
  predicate HasBlock(disk: seq<byte>, bs: nat, ino: Inode, k: nat)
  {
    && BlockSize(bs) && |ino.block| == 15 && k < UINT_LIMIT && Reached(bs / 4, k)
    && Present(disk, bs, ino.block[Route(bs, k)[0]], Route(bs, k)[1..])
  }

  /** The contents of block k of the file. */
  function FileBlock(disk: seq<byte>, bs: nat, ino: Inode, k: nat): (r: seq<byte>)
    requires HasBlock(disk, bs, ino, k)
    ensures |r| == bs
  {
    DiskBlock(disk, bs, Follow(disk, bs, ino.block[Route(bs, k)[0]], Route(bs, k)[1..]))
  }

  /** The buffer with a block in place of its part from `at` on. */
  ghost function Over(buf: seq<byte>, at: nat, block: seq<byte>): (r: seq<byte>)
    requires at + |block| <= |buf|
    ensures |r| == |buf|
  {
    buf[..at] + block + buf[at + |block|..]
  }

  lemma OverTwice(buf: seq<byte>, at: nat, a: seq<byte>, b: seq<byte>)
    requires at + |a| <= |buf| && |a| == |b|
    ensures Over(Over(buf, at, a), at, b) == Over(buf, at, b)
    ensures Over(buf, at, a)[at..at + |a|] == a
  {
  }

  /** The computed path is the right one. */
  lemma RouteFound(bs: nat, blk: nat, n: nat, path: seq<int>)
    requires BlockSize(bs) && blk < UINT_LIMIT && Reached(bs / 4, blk) && n <= 4
    requires n == 0 <==> blk >= PanicAt(bs / 4)
    requires n > 0 ==> |path| == n && LeadsTo(bs / 4, path, blk)
    ensures n > 0 && path == Route(bs, blk)
  {
    NoPanic(bs / 4);
    PathUnique(bs / 4, path, Route(bs, blk));
  }

  // ---------- reads borrow from the heap ----------

  /** The payload behind header address a starts with s. */
  ghost predicate PayloadIs(m: seq<byte>, a: nat, s: seq<byte>)
  {
    HEAP_BASE <= a && a + HEADER + |s| <= HEAP_BASE + |m| && Payload(m, a, |s|) == s
  }

  /** The payload at a is live, at least as long as s, and starts with s. */
  ghost predicate Buffer(m: seq<byte>, blocks: seq<Block>, a: nat, s: seq<byte>)
  {
    a in Live(blocks) && |s| <= Live(blocks)[a] && PayloadIs(m, a, s)
  }

  /** Every live payload holds some bytes. */
  lemma AnyBytes(m: seq<byte>, blocks: seq<Block>, a: nat, n: nat) returns (s: seq<byte>)
    requires Encoded(m, blocks) && a in Live(blocks) && n <= Live(blocks)[a]
    ensures |s| == n && Buffer(m, blocks, a, s)
  {
    hide Encoded, Live;
    LiveInHeap(m, blocks, a);
    s := Payload(m, a, n);
  }

  lemma FilledPayload(m: seq<byte>, m1: seq<byte>, a: nat, s: seq<byte>, at: nat, bytes: seq<byte>)
    requires PayloadIs(m, a, s) && at + |bytes| <= |s| && |m1| == |m|
    requires forall j :: 0 <= j < |m| ==> var start := a + HEADER - HEAP_BASE + at;
      m1[j] == if start <= j < start + |bytes| then bytes[j - start] else m[j]
    ensures PayloadIs(m1, a, Over(s, at, bytes)) && OnlyWithin(m, m1, a + HEADER + at, |bytes|)
  {
    var t := Over(s, at, bytes);
    forall k | 0 <= k < |s| ensures Payload(m1, a, |t|)[k] == t[k] {
      assert Payload(m, a, |s|)[k] == m[a + HEADER - HEAP_BASE + k];
    }
  }

  /** Bytes are copied into a payload. */
  method Fill(heap: KernelHeap, a: nat, at: nat, bytes: seq<byte>, ghost s: seq<byte>)
    requires heap.Valid() && Buffer(heap.mem[..], heap.blocks, a, s) && at + |bytes| <= |s|
    modifies heap.mem
    ensures heap.Valid() && Buffer(heap.mem[..], heap.blocks, a, Over(s, at, bytes))
    ensures PayloadsKept(old(heap.mem[..]), heap.mem[..], Live(heap.blocks) - {a})
  {
    hide Live, Addr, PayloadsKept, Encoded, NoAdjacentFree, Over, OnlyWithin, Payload;
    ghost var m := heap.mem[..];
    var start := a + HEADER - HEAP_BASE + at;
    forall j | start <= j < start + |bytes| { heap.mem[j] := bytes[j - start]; }
    FilledPayload(m, heap.mem[..], a, s, at, bytes);
    OwnerWrites(m, heap.mem[..], heap.blocks, a, a + HEADER + at, |bytes|);
  }

  /** A payload that is kept still starts as it did. */
  lemma StillThere(m0: seq<byte>, m1: seq<byte>, live: map<nat, nat>, a: nat, s: seq<byte>)
    requires PayloadsKept(m0, m1, live) && a in live && |s| <= live[a] && PayloadIs(m0, a, s)
    ensures PayloadIs(m1, a, s)
  {
    var start := a + HEADER - HEAP_BASE;
    SliceOfSlice(m0, start, live[a], 0, |s|);
    SliceOfSlice(m1, start, live[a], 0, |s|);
  }

  function Sectors(len: nat): (n: nat)
  {
    (len + SECTOR - 1) / SECTOR
  }

  /** The sectors that are read hold the wanted bytes, and the disk has them. */
  predicate InSectors(disk: seq<byte>, off: nat, len: nat)
  {
    && off % SECTOR + len <= Sectors(len) * SECTOR <= 0x1_0000
    && off / SECTOR * SECTOR + Sectors(len) * SECTOR <= |disk|
  }

  /**
   * `ata_read_bytes` into a payload: through a sector buffer of the same heap, which is given back.
   * False stands for the panic of an exhausted heap.
   */
  method ReadBytes(heap: KernelHeap, disk: seq<byte>, off: nat, len: nat, a: nat, at: nat, ghost s: seq<byte>)
    returns (ok: bool)
    requires heap.Valid() && Buffer(heap.mem[..], heap.blocks, a, s) && at + len <= |s| && InSectors(disk, off, len)
    modifies heap`blocks, heap`brk, heap.mem
    ensures ok <==> Served(old(heap.blocks), Sectors(len) * SECTOR)
    ensures ok ==> heap.Valid() && heap.blocks == Borrow(old(heap.blocks), Sectors(len) * SECTOR)
    ensures ok ==> off + len <= |disk| && Buffer(heap.mem[..], heap.blocks, a, Over(s, at, disk[off..off + len]))
    ensures ok ==> PayloadsKept(old(heap.mem[..]), heap.mem[..], Live(old(heap.blocks)) - {a})
  {
    hide Live, Malloc, Free, Addr, Served, PayloadsKept, Encoded, NoAdjacentFree, FirstFit, PayloadIs, Over;
    ghost var m0, b0 := heap.mem[..], heap.blocks;
    var lba, skip := off / SECTOR, off % SECTOR;
    var n := Sectors(len) * SECTOR;
    var from := lba * SECTOR;
    var buf := heap.Kmalloc(n);
    if buf.None? { return false; }
    ghost var m1, b1 := heap.mem[..], heap.blocks;
    var b := buf.value - HEADER;
    NewBuffer(m0, m1, b0, n, a, s);
    ghost var t := AnyBytes(m1, b1, b, n);
    Fill(heap, b, 0, disk[from..from + n], t);
    ghost var m2 := heap.mem[..];
    StillThere(m1, m2, Live(b1) - {b}, a, s);
    OverAll(t, disk[from..from + n]);
    LiveInHeap(m2, b1, b);
    var start := b + HEADER - HEAP_BASE + skip;
    CopiedBytes(m2, b, disk, from, n, skip, len);
    Fill(heap, a, at, heap.mem[start..start + len], s);
    ghost var m3 := heap.mem[..];
    heap.KFree(buf.value, FirstFit(b0, n)) by { MallocUsed(b0, n); }
    BufferBack(m0, m1, m2, m3, heap.mem[..], b0, n, a, b, Over(s, at, disk[off..off + len]));
    ok := true;
  }

  lemma NewBuffer(m0: seq<byte>, m1: seq<byte>, b0: seq<Block>, n: nat, a: nat, s: seq<byte>)
    requires Buffer(m0, b0, a, s) && PayloadsKept(m0, m1, Live(b0))
    ensures var b1, b := Malloc(b0, n), Addr(b0, FirstFit(b0, n));
      && b in Live(b1) && n <= Live(b1)[b] && b !in Live(b0) && Live(b1) - {b} == Live(b0) && a != b
      && Buffer(m1, b1, a, s) && Addr(b1, FirstFit(b0, n)) == b
  {
    hide Live, Malloc, Addr, FirstFit, PayloadsKept, PayloadIs;
    LiveMalloc(b0, n);
    StillThere(m0, m1, Live(b0), a, s);
  }

  lemma OverAll(t: seq<byte>, bytes: seq<byte>)
    requires |t| == |bytes|
    ensures Over(t, 0, bytes) == bytes
  {
  }

  lemma CopiedBytes(m: seq<byte>, b: nat, disk: seq<byte>, from: nat, n: nat, skip: nat, len: nat)
    requires from + n <= |disk| && skip + len <= n && PayloadIs(m, b, disk[from..from + n])
    ensures var start := b + HEADER - HEAP_BASE + skip;
      0 <= start && start + len <= |m| && m[start..start + len] == disk[from + skip..from + skip + len]
  {
    var start := b + HEADER - HEAP_BASE;
    SliceOfSlice(m, start, n, skip, len);
    SliceOfSlice(disk, from, n, skip, len);
  }

  lemma BufferBack(m0: seq<byte>, m1: seq<byte>, m2: seq<byte>, m3: seq<byte>, m4: seq<byte>, b0: seq<Block>, n: nat,
                   a: nat, b: nat, s: seq<byte>)
    requires b == Addr(b0, FirstFit(b0, n)) && a in Live(b0)
    requires PayloadsKept(m0, m1, Live(b0)) && PayloadsKept(m1, m2, Live(Malloc(b0, n)) - {b})
    requires PayloadsKept(m2, m3, Live(Malloc(b0, n)) - {a}) && PayloadsKept(m3, m4, Live(Malloc(b0, n)) - {b})
    requires Buffer(m3, Malloc(b0, n), a, s)
    ensures Buffer(m4, Borrow(b0, n), a, s) && PayloadsKept(m0, m4, Live(b0) - {a})
  {
    hide Live, Malloc, Addr, FirstFit, PayloadsKept, PayloadIs, Borrow;
    LiveMalloc(b0, n);
    LiveBorrow(b0, n);
    var rest := Live(b0) - {a};
    KeptFewer(m0, m1, Live(b0), rest);
    PayloadsChain(m0, m1, m2, rest, Live(Malloc(b0, n)) - {b});
    PayloadsChain(m0, m2, m3, rest, Live(Malloc(b0, n)) - {a});
    PayloadsChain(m0, m3, m4, rest, Live(Malloc(b0, n)) - {b});
    StillThere(m3, m4, Live(Malloc(b0, n)) - {b}, a, s);
  }

  lemma KeptFewer(m0: seq<byte>, m1: seq<byte>, live: map<nat, nat>, fewer: map<nat, nat>)
    requires PayloadsKept(m0, m1, live) && forall a :: a in fewer ==> a in live && fewer[a] == live[a]
    ensures PayloadsKept(m0, m1, fewer)
  {
  }

  lemma BlockSectors(disk: seq<byte>, bs: nat, b: nat)
    requires BlockSize(bs) && OnDisk(disk, bs, b)
    ensures Sectors(bs) * SECTOR == bs && InSectors(disk, b * bs, bs)
  {
    var q := bs / SECTOR;
    assert bs == q * SECTOR;
    DivUnique(bs + SECTOR - 1, SECTOR, q, SECTOR - 1);
    assert b * bs == b * q * SECTOR;
    DivUnique(b * bs, SECTOR, b * q, 0);
  }

  /** `read_blk`: one block of the disk into the buffer. */
  method ReadBlk(heap: KernelHeap, disk: seq<byte>, bs: nat, a: nat, at: nat, b: nat, ghost s: seq<byte>)
    returns (ok: bool)
    requires heap.Valid() && Buffer(heap.mem[..], heap.blocks, a, s) && BlockSize(bs) && OnDisk(disk, bs, b)
    requires at + bs <= |s|
    modifies heap`blocks, heap`brk, heap.mem
    ensures ok <==> Served(old(heap.blocks), bs)
    ensures ok ==> heap.Valid() && heap.blocks == Borrow(old(heap.blocks), bs)
    ensures ok ==> Buffer(heap.mem[..], heap.blocks, a, Over(s, at, DiskBlock(disk, bs, b)))
    ensures ok ==> PayloadsKept(old(heap.mem[..]), heap.mem[..], Live(old(heap.blocks)) - {a})
  {
    hide KernelHeap.Valid, Buffer, InSectors, Sectors, Served, Borrow, Over, Live, PayloadsKept;
    BlockSectors(disk, bs, b);
    var off := b * bs;
    ok := ReadBytes(heap, disk, off, bs, a, at, s);
  }

  /** A second read of the same size always succeeds, and leaves the layout as the first did. */
  lemma ServedAgain(heap: KernelHeap, b0: seq<Block>, bs: nat)
    requires heap.Valid() && heap.blocks == Borrow(b0, bs) && NoAdjacentFree(b0) && bs > 0
    ensures Served(heap.blocks, bs) && Borrow(heap.blocks, bs) == Borrow(b0, bs) && Live(heap.blocks) == Live(b0)
  {
    hide FirstFit, Borrow, Live, Addr, NoAdjacentFree, Encoded;
    BorrowAgain(b0, bs);
    LiveBorrow(b0, bs);
  }

  /**
   * `ext2_get_block`: the buffer holds each pointer block in turn, its next pointer is read from it
   * before it is overwritten, and it ends up with the data. False stands for a panic.
   */
  method GetBlock(heap: KernelHeap, disk: seq<byte>, bs: nat, ino: Inode, a: nat, at: nat, blk: nat,
                  ghost s: seq<byte>) returns (ok: bool)
    requires heap.Valid() && Buffer(heap.mem[..], heap.blocks, a, s)
    requires HasBlock(disk, bs, ino, blk) && at + bs <= |s|
    modifies heap`blocks, heap`brk, heap.mem
    ensures ok <==> blk <= ino.blocks && Served(old(heap.blocks), bs)
    ensures ok ==> heap.Valid() && heap.blocks == Borrow(old(heap.blocks), bs)
    ensures ok ==> Buffer(heap.mem[..], heap.blocks, a, Over(s, at, FileBlock(disk, bs, ino, blk)))
    ensures ok ==> PayloadsKept(old(heap.mem[..]), heap.mem[..], Live(old(heap.blocks)) - {a})
  {
    hide Reached, PanicAt, LeadsTo, Over, Buffer, Served, Borrow, PayloadsKept, Live, Encoded, NoAdjacentFree, Addr;
    if blk > ino.blocks { return false; }
    ghost var m0, b0 := heap.mem[..], heap.blocks;
    var offsets := new int[4];
    var n := BlockOffsets(bs / 4, blk, offsets);
    RouteFound(bs, blk, n, offsets[..n]);
    ok := ReadBlk(heap, disk, bs, a, at, ino.block[offsets[0]], s);
    if !ok { return; }
    ghost var path := Route(bs, blk);
    ghost var top := ino.block[path[0]];
    ghost var b := top;
    var i := 1;
    while i < n
      invariant ok && 1 <= i <= n && offsets[..n] == path && heap.Valid() && heap.blocks == Borrow(b0, bs)
      invariant Present(disk, bs, b, path[i..])
      invariant Follow(disk, bs, b, path[i..]) == Follow(disk, bs, top, path[1..])
      invariant Buffer(heap.mem[..], heap.blocks, a, Over(s, at, DiskBlock(disk, bs, b)))
      invariant PayloadsKept(m0, heap.mem[..], Live(b0) - {a})
    {
      var o := offsets[i];
      assert path[i..][0] == o && path[i..][1..] == path[i + 1..];
      ghost var now, m1 := Over(s, at, DiskBlock(disk, bs, b)), heap.mem[..];
      OverTwice(s, at, DiskBlock(disk, bs, b), DiskBlock(disk, bs, b));
      var ptr := ReadPointer(heap, bs, a, at, o, now);
      OverTwice(s, at, DiskBlock(disk, bs, b), DiskBlock(disk, bs, ptr));
      b := ptr;
      ServedAgain(heap, b0, bs);
      ok := ReadBlk(heap, disk, bs, a, at, ptr, now);
      PayloadsChain(m0, m1, heap.mem[..], Live(b0) - {a}, Live(b0) - {a});
      i := i + 1;
    }
  }

  /** A pointer of the block in the buffer. */
  method ReadPointer(heap: KernelHeap, bs: nat, a: nat, at: nat, o: int, ghost s: seq<byte>) returns (ptr: nat)
    requires Buffer(heap.mem[..], heap.blocks, a, s) && at + bs <= |s| && 0 <= o && 4 * o + 4 <= bs
    ensures ptr == Pointer(s[at..at + bs], o)
  {
    hide Live;
    var start := a + HEADER - HEAP_BASE;
    var j := 4 * o;
    ptr := FromLE(heap.mem[start + at + j..start + at + j + 4]);
    SliceOfSlice(heap.mem[..], start, |s|, at + j, 4);
    SliceOfSlice(s, at, bs, j, 4);
  }

  lemma SliceOfSlice(s: seq<byte>, at: nat, n: nat, j: nat, w: nat)
    requires at + n <= |s| && j + w <= n
    ensures s[at..at + n][j..j + w] == s[at + j..at + j + w]
  {
    var t, a, b := s[at..at + n], s[at..at + n][j..j + w], s[at + j..at + j + w];
    forall i | 0 <= i < w ensures a[i] == b[i] {
      assert t[j + i] == s[at + (j + i)];
    }
  }

  // ---------- whole files ----------

  ghost predicate HasBlocks(disk: seq<byte>, bs: nat, ino: Inode, n: nat)
  {
    BlockSize(bs) && n <= NDIR + bs / 4 && forall k :: 0 <= k < n ==> HasBlock(disk, bs, ino, k)
  }

  /** The first n blocks of the file. */
  ghost function FileBlocks(disk: seq<byte>, bs: nat, ino: Inode, n: nat): (r: seq<byte>)
    requires HasBlocks(disk, bs, ino, n)
    ensures |r| == n * bs
  {
    if n == 0 then [] else FileBlocks(disk, bs, ino, n - 1) + FileBlock(disk, bs, ino, n - 1)
  }

  /** Block k lies at its place, so byte k * bs + i of the file is byte i of block k. */
  lemma {:induction false} BlockInPlace(disk: seq<byte>, bs: nat, ino: Inode, n: nat, k: nat)
    requires HasBlocks(disk, bs, ino, n) && k < n
    ensures k * bs + bs <= n * bs
    ensures FileBlocks(disk, bs, ino, n)[k * bs..k * bs + bs] == FileBlock(disk, bs, ino, k)
  {
    hide HasBlock, BlockSize, FileBlock;
    NextBlock(bs, k, n);
    var init, last := FileBlocks(disk, bs, ino, n - 1), FileBlock(disk, bs, ino, n - 1);
    if k < n - 1 {
      BlockInPlace(disk, bs, ino, n - 1, k);
      SliceOfInit(init, last, k * bs, bs);
    } else {
      SliceOfLast(init, last);
    }
  }

  lemma NextBlock(bs: nat, k: nat, n: nat)
    requires k < n
    ensures k * bs + bs <= n * bs
  {
    Scale(k + 1, n, bs);
  }

  lemma SliceOfLast(init: seq<byte>, last: seq<byte>)
    ensures (init + last)[|init|..|init| + |last|] == last
  {
  }

  lemma SliceOfInit(init: seq<byte>, last: seq<byte>, at: nat, n: nat)
    requires at + n <= |init|
    ensures (init + last)[at..at + n] == init[at..at + n]
  {
  }

  /** `ext2_get_blocks`, into the front of the buffer. */
  method GetBlocks(heap: KernelHeap, disk: seq<byte>, bs: nat, ino: Inode, a: nat, n: nat, ghost s: seq<byte>)
    returns (ok: bool)
    requires heap.Valid() && Buffer(heap.mem[..], heap.blocks, a, s)
    requires HasBlocks(disk, bs, ino, n) && n * bs <= |s| && n > 0
    modifies heap`blocks, heap`brk, heap.mem
    ensures ok <==> n <= ino.blocks + 1 && Served(old(heap.blocks), bs)
    ensures ok ==> heap.Valid() && heap.blocks == Borrow(old(heap.blocks), bs)
    ensures ok ==> Buffer(heap.mem[..], heap.blocks, a, Over(s, 0, FileBlocks(disk, bs, ino, n)))
    ensures ok ==> PayloadsKept(old(heap.mem[..]), heap.mem[..], Live(old(heap.blocks)) - {a})
  {
    hide HasBlock, FileBlock, Over, Buffer, Served, Borrow, PayloadsKept, Live, Encoded, NoAdjacentFree, Addr;
    ghost var m0, b0 := heap.mem[..], heap.blocks;
    var i := 0;
    OverNothing(s, 0);
    KeptStart(m0, b0, a) by { assert Encoded(m0, b0); }
    while i < n
      invariant i <= n && i <= ino.blocks + 1 && i * bs <= |s| && heap.Valid()
      invariant heap.blocks == if i == 0 then b0 else Borrow(b0, bs)
      invariant i > 0 ==> Served(b0, bs)
      invariant Buffer(heap.mem[..], heap.blocks, a, Over(s, 0, FileBlocks(disk, bs, ino, i)))
      invariant PayloadsKept(m0, heap.mem[..], Live(b0) - {a})
    {
      var at := i * bs;
      NextBlock(bs, i, n);
      ghost var m1 := heap.mem[..];
      if i > 0 { ServedAgain(heap, b0, bs); }
      ok := GetBlock(heap, disk, bs, ino, a, at, i, Over(s, 0, FileBlocks(disk, bs, ino, i)));
      if !ok { return; }
      PayloadsChain(m0, m1, heap.mem[..], Live(b0) - {a}, Live(b0) - {a});
      OverBeside(s, 0, FileBlocks(disk, bs, ino, i), FileBlock(disk, bs, ino, i));
      assert at + bs == (i + 1) * bs;
      i := i + 1;
    }
    ok := true;
  }

  lemma KeptStart(m: seq<byte>, bs: seq<Block>, a: nat)
    requires Encoded(m, bs)
    ensures PayloadsKept(m, m, Live(bs) - {a})
  {
    hide Live, Encoded, Addr;
    forall b | b in Live(bs) ensures HEAP_BASE <= b && b + HEADER + Live(bs)[b] <= HEAP_BASE + |m| {
      LiveInHeap(m, bs, b);
    }
  }

  lemma OverNothing(buf: seq<byte>, at: nat)
    requires at <= |buf|
    ensures Over(buf, at, []) == buf
  {
  }

  lemma OverBeside(buf: seq<byte>, at: nat, a: seq<byte>, b: seq<byte>)
    requires at + |a| + |b| <= |buf|
    ensures Over(Over(buf, at, a), at + |a|, b) == Over(buf, at, a + b)
  {
  }

  /** How many blocks a file takes. */
  function BlocksOf(size: nat, bs: nat): (n: nat)
    requires bs > 0
    ensures size <= n * bs
  {
    var n := (size + bs - 1) / bs;
    assert n * bs + (size + bs - 1) % bs == size + bs - 1;
    n
  }

  /** The file, and zeros up to the end of its last block. */
  ghost function FileImage(disk: seq<byte>, bs: nat, ino: Inode): (s: seq<byte>)
    requires BlockSize(bs) && HasBlocks(disk, bs, ino, BlocksOf(ino.size, bs))
    ensures |s| == BlocksOf(ino.size, bs) * bs
  {
    FileBlocks(disk, bs, ino, BlocksOf(ino.size, bs))[..ino.size] + seq(BlocksOf(ino.size, bs) * bs - ino.size, _ => 0)
  }

  /** The layouts of a read: with the inode, after the inode's sector, and with the file's buffer. */
  ghost function WithInode(blocks: seq<Block>): (r: seq<Block>)
  {
    Borrow(Malloc(blocks, 128), 512)
  }

  ghost function WithFile(blocks: seq<Block>, n: nat): (r: seq<Block>)
  {
    Malloc(WithInode(blocks), n)
  }

  /**
   * Whether the heap serves the four requests of a read: the inode, a sector to read it through, the
   * blocks, and a buffer of one block to read each of them through.
   */
  ghost predicate HeapServes(blocks: seq<Block>, n: nat, bs: nat)
  {
    && Served(blocks, 128) && Served(Malloc(blocks, 128), 512)
    && Served(WithInode(blocks), n) && Served(WithFile(blocks, n), bs)
  }

  lemma SmallFile(bs: nat, n: nat)
    requires BlockSize(bs) && n <= NDIR + bs / 4
    ensures HEADER + n * bs <= WORD_LIMIT - HEAP_SIZE
  {
    Scale(n, 0x1_0000, bs);
    Scale(bs, 0x1_0000, 0x1_0000);
  }

  /** The fields of an inode in its 128 bytes. */
  function InodeOf(bytes: seq<byte>): (ino: Inode)
    requires |bytes| == INODE_SIZE
    ensures |ino.block| == 15
  {
    var pointers := seq(15, k requires 0 <= k < 15 => FromLE(bytes[40 + 4 * k..44 + 4 * k]));
    Inode(FromLE(bytes[4..8]), FromLE(bytes[28..32]), pointers)
  }

  /** The inode at an offset of the disk, which lies in one sector. */
  predicate InodeOn(disk: seq<byte>, off: nat)
  {
    off % INODE_SIZE == 0 && off / SECTOR * SECTOR + SECTOR <= |disk|
  }

  lemma InodeSector(disk: seq<byte>, off: nat)
    requires InodeOn(disk, off)
    ensures Sectors(INODE_SIZE) * SECTOR == SECTOR && InSectors(disk, off, INODE_SIZE) && off + INODE_SIZE <= |disk|
  {
  }

  function DiskInode(disk: seq<byte>, off: nat): (ino: Inode)
    requires InodeOn(disk, off)
    ensures |ino.block| == 15
  {
    InodeSector(disk, off);
    InodeOf(disk[off..off + INODE_SIZE])
  }

  /** `kcalloc` of an inode and `ext2_get_inode`. `None` is a panic. */
  method GetInode(heap: KernelHeap, disk: seq<byte>, off: nat) returns (r: Option<nat>, ino: Inode)
    requires heap.Valid() && InodeOn(disk, off)
    modifies heap`blocks, heap`brk, heap.mem
    ensures r.Some? <==> Served(old(heap.blocks), INODE_SIZE) && Served(Malloc(old(heap.blocks), INODE_SIZE), SECTOR)
    ensures r.Some? ==> heap.Valid() && heap.blocks == WithInode(old(heap.blocks)) && ino == DiskInode(disk, off)
    ensures r.Some? ==> r.value == Addr(old(heap.blocks), FirstFit(old(heap.blocks), INODE_SIZE)) + HEADER
    ensures r.Some? ==> PayloadsKept(old(heap.mem[..]), heap.mem[..], Live(old(heap.blocks)))
  {
    hide Live, Malloc, Addr, Served, PayloadsKept, Encoded, NoAdjacentFree, FirstFit, Borrow, PayloadIs, Over, InodeOf;
    ino := Inode(0, 0, seq(15, _ => 0));
    ghost var m0, b0 := heap.mem[..], heap.blocks;
    r := heap.Kmalloc(INODE_SIZE);
    if r.None? { return; }
    ghost var m1, b1 := heap.mem[..], heap.blocks;
    var i := r.value - HEADER;
    LiveMalloc(b0, INODE_SIZE);
    ghost var t := AnyBytes(m1, b1, i, INODE_SIZE);
    var zeros := seq(INODE_SIZE, _ => 0);
    Fill(heap, i, 0, zeros, t);
    ghost var m2 := heap.mem[..];
    InodeSector(disk, off);
    OverAll(t, zeros);
    var ok := ReadBytes(heap, disk, off, INODE_SIZE, i, 0, zeros);
    if !ok { r := None; return; }
    OverAll(zeros, disk[off..off + INODE_SIZE]);
    PayloadsChain(m0, m1, m2, Live(b0), Live(b1) - {i});
    PayloadsChain(m0, m2, heap.mem[..], Live(b0), Live(b1) - {i});
    var start := i + HEADER - HEAP_BASE;
    assert PayloadIs(heap.mem[..], i, disk[off..off + INODE_SIZE]);
    InodeBytes(heap.mem[..], i, disk[off..off + INODE_SIZE]);
    ino := InodeOf(heap.mem[start..start + INODE_SIZE]);
  }

  lemma InodeBytes(m: seq<byte>, i: nat, bytes: seq<byte>)
    requires PayloadIs(m, i, bytes) && |bytes| == INODE_SIZE
    ensures var start := i + HEADER - HEAP_BASE; start + INODE_SIZE <= |m| && m[start..start + INODE_SIZE] == bytes
  {
  }

  lemma ZeroTail(all: seq<byte>, size: nat)
    requires size <= |all|
    ensures Over(all, size, seq(|all| - size, _ => 0)) == all[..size] + seq(|all| - size, _ => 0)
  {
  }

  /**
   * The blocks of a file and the zeros behind them, into a payload that is large enough; false is a
   * panic, of an exhausted heap or because i_blocks is too small.
   */
  method ReadInto(heap: KernelHeap, a: nat, disk: seq<byte>, bs: nat, ino: Inode) returns (ok: bool)
    requires heap.Valid() && BlockSize(bs) && HasBlocks(disk, bs, ino, BlocksOf(ino.size, bs)) && ino.size > 0
    requires a in Live(heap.blocks) && BlocksOf(ino.size, bs) * bs <= Live(heap.blocks)[a]
    modifies heap`blocks, heap`brk, heap.mem
    ensures ok <==> BlocksOf(ino.size, bs) <= ino.blocks + 1 && Served(old(heap.blocks), bs)
    ensures ok ==> heap.Valid() && heap.blocks == Borrow(old(heap.blocks), bs)
    ensures ok ==> PayloadIs(heap.mem[..], a, FileImage(disk, bs, ino))
    ensures ok ==> PayloadsKept(old(heap.mem[..]), heap.mem[..], Live(old(heap.blocks)) - {a})
  {
    hide HasBlock, BlocksOf, Live, Addr, PayloadsKept, Encoded, NoAdjacentFree, Over, PayloadIs, Served, Borrow;
    ghost var m0, b0 := heap.mem[..], heap.blocks;
    var nblk := BlocksOf(ino.size, bs);
    RoundUp(ino.size, bs, 0);
    var total := nblk * bs;
    ghost var t := AnyBytes(m0, b0, a, total);
    ok := GetBlocks(heap, disk, bs, ino, a, nblk, t);
    if !ok { return; }
    ghost var m1 := heap.mem[..];
    ghost var all := FileBlocks(disk, bs, ino, nblk);
    OverAll(t, all);
    ZeroTail(all, ino.size);
    Fill(heap, a, ino.size, seq(total - ino.size, _ => 0), all);
    LiveBorrow(b0, bs);
    PayloadsChain(m0, m1, heap.mem[..], Live(b0) - {a}, Live(b0) - {a});
  }

  /**
   * `ext2_read_file` of the inode at an offset of the disk: a new payload of the kernel heap holds the
   * file, then zeros up to the end of its last block, and all other payloads are as before. `None` is a
   * panic: the heap cannot serve a request, as when an empty file asks for 0 bytes, or i_blocks is too
   * small.
   */
  method ReadFile(heap: KernelHeap, disk: seq<byte>, bs: nat, off: nat) returns (r: Option<nat>)
    requires heap.Valid() && BlockSize(bs) && InodeOn(disk, off)
    requires var ino := DiskInode(disk, off); HasBlocks(disk, bs, ino, BlocksOf(ino.size, bs))
    modifies heap`blocks, heap`brk, heap.mem
    ensures var ino := DiskInode(disk, off);
      && (r.Some? <==>
            HeapServes(old(heap.blocks), BlocksOf(ino.size, bs) * bs, bs) && ino.size <= (ino.blocks + 1) * bs)
      && (r.Some? ==> r.value >= HEADER && PayloadIs(heap.mem[..], r.value - HEADER, FileImage(disk, bs, ino)))
    ensures r.Some? ==>
      && heap.Valid() && r.value - HEADER !in Live(old(heap.blocks))
      && r.value - HEADER in Live(heap.blocks) && Live(heap.blocks) - {r.value - HEADER} == Live(old(heap.blocks))
      && PayloadsKept(old(heap.mem[..]), heap.mem[..], Live(old(heap.blocks)))
  {
    hide HasBlock, BlocksOf, Live, Malloc, Free, Addr, Served, PayloadsKept, Encoded, NoAdjacentFree, FirstFit;
    hide PayloadIs, Borrow, FileImage;
    ghost var m0, b0 := heap.mem[..], heap.blocks;
    var inode, ino := GetInode(heap, disk, off);
    if inode.None? { return None; }
    var nblk := BlocksOf(ino.size, bs);
    RoundUp(ino.size, bs, ino.blocks + 1);
    SmallFile(bs, nblk);
    var n := nblk * bs;
    ghost var m1, b1 := heap.mem[..], heap.blocks;
    var buf := heap.Kmalloc(n);
    if buf.None? { return None; }
    ghost var m2, b2 := heap.mem[..], heap.blocks;
    var i, a := inode.value - HEADER, buf.value - HEADER;
    TwoPayloads(b0, n, i, a);
    PayloadsChain(m0, m1, m2, Live(b0), Live(b1));
    NotEmpty(b1, n);
    var ok := ReadInto(heap, a, disk, bs, ino);
    if !ok { return None; }
    ghost var m3, b3 := heap.mem[..], heap.blocks;
    LiveBorrow(b2, bs);
    PayloadsChain(m0, m2, m3, Live(b0), Live(b2) - {a});
    LiveFree(b3, IndexOf(b3, i));
    heap.KFree(inode.value, IndexOf(b3, i));
    PayloadsChain(m0, m3, heap.mem[..], Live(b0), Live(b3) - {i});
    StillThere(m3, heap.mem[..], Live(b3) - {i}, a, FileImage(disk, bs, ino));
    r := buf;
  }

  lemma NotEmpty(bs: seq<Block>, n: nat)
    requires Served(bs, n)
    ensures n > 0
  {
  }

  lemma TwoPayloads(b0: seq<Block>, n: nat, i: nat, a: nat)
    requires i == Addr(b0, FirstFit(b0, INODE_SIZE)) && a == Addr(WithInode(b0), FirstFit(WithInode(b0), n))
    ensures var b1, b2 := WithInode(b0), WithFile(b0, n);
      && i in Live(b1) && i in Live(b2) && a in Live(b2) && a != i && i !in Live(b0) && a !in Live(b0)
      && n <= Live(b2)[a] && Live(b2) - {i} - {a} == Live(b0)
      && (forall x :: x in Live(b0) ==>
            x in Live(b1) && x in Live(b2) && Live(b1)[x] == Live(b0)[x] && Live(b2)[x] == Live(b0)[x])
      && (forall x :: x in Live(b1) ==> x in Live(b2) && Live(b2)[x] == Live(b1)[x])
  {
    hide Live, Malloc, Addr, FirstFit, Borrow;
    LiveMalloc(b0, INODE_SIZE);
    LiveBorrow(Malloc(b0, INODE_SIZE), SECTOR);
    LiveMalloc(WithInode(b0), n);
  }

  lemma RoundUp(size: nat, bs: nat, limit: nat)
    requires bs > 0
    ensures var n := BlocksOf(size, bs);
      size <= n * bs < size + bs && n * bs % bs == 0 && (n <= limit <==> size <= limit * bs) && (n == 0 <==> size == 0)
  {
    var n := (size + bs - 1) / bs;
    var rem := (size + bs - 1) % bs;
    assert n * bs + rem == size + bs - 1;
    DivUnique(n * bs, bs, n, 0);
    if n <= limit { Scale(n, limit, bs); } else { Scale(limit + 1, n, bs); }
  }

  // ---------- the bytes on the disk ----------

  /** Words of four bytes, one after the other. */
  function Words(ws: seq<nat>): (bs: seq<byte>)
    ensures |bs| == 4 * |ws|
  {
    if ws == [] then [] else ToLE(ws[0], 4) + Words(ws[1..])
  }

  /** The fields of an inode that reading does not use. */
  datatype Rest = Rest(
    mode: nat, uid: nat, atime: nat, ctime: nat, mtime: nat, dtime: nat, gid: nat, links: nat, flags: nat, osd1: nat,
    generation: nat, fileAcl: nat, dirAcl: nat, faddr: nat, osd2: nat)

  /** `struct ext2_ino`, packed, field by field. */
  function EncodeInode(ino: Inode, r: Rest): (bytes: seq<byte>)
    requires |ino.block| == 15
    ensures |bytes| == 128
  {
    (ToLE(r.mode, 2) + ToLE(r.uid, 2)) + ToLE(ino.size, 4)
    + (ToLE(r.atime, 4) + ToLE(r.ctime, 4) + ToLE(r.mtime, 4) + ToLE(r.dtime, 4) + ToLE(r.gid, 2) + ToLE(r.links, 2))
    + ToLE(ino.blocks, 4) + (ToLE(r.flags, 4) + ToLE(r.osd1, 4)) + Words(ino.block)
    + (ToLE(r.generation, 4) + ToLE(r.fileAcl, 4) + ToLE(r.dirAcl, 4) + ToLE(r.faddr, 4) + ToLE(r.osd2, 12))
  }

  predicate Wide(ino: Inode)
  {
    ino.size < UINT_LIMIT && ino.blocks < UINT_LIMIT && |ino.block| == 15 &&
    forall k :: 0 <= k < 15 ==> ino.block[k] < UINT_LIMIT
  }

  lemma {:induction false} WordAt(ws: seq<nat>, i: nat)
    requires i < |ws|
    ensures Words(ws)[4 * i..4 * i + 4] == ToLE(ws[i], 4)
  {
    var first, rest := ToLE(ws[0], 4), Words(ws[1..]);
    if i == 0 {
      assert (first + rest)[..4] == first;
    } else {
      WordAt(ws[1..], i - 1);
      assert (first + rest)[4 * i..4 * i + 4] == rest[4 * (i - 1)..4 * (i - 1) + 4];
    }
  }

  /** Entry i of a pointer block is the i-th pointer written. */
  lemma PointerOf(ws: seq<nat>, i: nat)
    requires i < |ws| && ws[i] < UINT_LIMIT
    ensures Pointer(Words(ws), i) == ws[i]
  {
    WordAt(ws, i);
    WordWidth();
    LittleEndianRoundTrip(ws[i], 4);
  }

  lemma PartOf(a: seq<byte>, b: seq<byte>, c: seq<byte>)
    ensures (a + b + c)[|a|..|a| + |b|] == b
  {
  }

  /** Decoding what was encoded gives the size, the number of blocks and all fifteen pointers. */
  lemma InodeRoundTrip(ino: Inode, r: Rest)
    requires Wide(ino)
    ensures InodeOf(EncodeInode(ino, r)) == ino
  {
    hide ToLE, FromLE, Words;
    WordWidth();
    var a := ToLE(r.mode, 2) + ToLE(r.uid, 2);
    var b := ToLE(r.atime, 4) + ToLE(r.ctime, 4) + ToLE(r.mtime, 4) + ToLE(r.dtime, 4) + ToLE(r.gid, 2) +
      ToLE(r.links, 2);
    var c := ToLE(r.flags, 4) + ToLE(r.osd1, 4);
    var d := ToLE(r.generation, 4) + ToLE(r.fileAcl, 4) + ToLE(r.dirAcl, 4) + ToLE(r.faddr, 4) + ToLE(r.osd2, 12);
    var s, n, w := ToLE(ino.size, 4), ToLE(ino.blocks, 4), Words(ino.block);
    var all := EncodeInode(ino, r);
    assert all == a + s + (b + n + c + w + d);
    PartOf(a, s, b + n + c + w + d);
    assert all == (a + s + b) + n + (c + w + d);
    PartOf(a + s + b, n, c + w + d);
    assert all == (a + s + b + n + c) + w + d;
    PartOf(a + s + b + n + c, w, d);
    LittleEndianRoundTrip(ino.size, 4);
    LittleEndianRoundTrip(ino.blocks, 4);
    forall k | 0 <= k < 15 ensures InodeOf(all).block[k] == ino.block[k] {
      WordAt(ino.block, k);
      SliceOfSlice(all, 40, 60, 4 * k, 4);
      LittleEndianRoundTrip(ino.block[k], 4);
    }
  }

  /** The first twelve blocks are those that the inode names. */
  lemma DirectBlock(disk: seq<byte>, bs: nat, ino: Inode, k: nat)
    requires HasBlock(disk, bs, ino, k) && k < 12
    ensures OnDisk(disk, bs, ino.block[k]) && FileBlock(disk, bs, ino, k) == DiskBlock(disk, bs, ino.block[k])
  {
    hide Reached;
    var path := [k as int];
    assert path[1..] == [];
    PathUnique(bs / 4, path, Route(bs, k));
  }

  /** The next ones are those that the block of pointers names. */
  lemma SingleBlock(disk: seq<byte>, bs: nat, ino: Inode, k: nat, ws: seq<nat>)
    requires HasBlock(disk, bs, ino, k) && 12 <= k < 12 + bs / 4
    requires OnDisk(disk, bs, ino.block[12]) && DiskBlock(disk, bs, ino.block[12]) == Words(ws)
    requires ws[k - 12] < UINT_LIMIT
    ensures OnDisk(disk, bs, ws[k - 12]) && FileBlock(disk, bs, ino, k) == DiskBlock(disk, bs, ws[k - 12])
  {
    hide Reached, Words, Present, Follow, LeadsTo, DiskBlock;
    assert Route(bs, k) == [12, k - 12] by { SingleRoute(bs, k); }
    assert Route(bs, k)[1..] == [k - 12];
    OnePointer(disk, bs, ino.block[12], k - 12, ws);
  }

  lemma SingleRoute(bs: nat, k: nat)
    requires BlockSize(bs) && Reached(bs / 4, k) && 12 <= k < 12 + bs / 4
    ensures Route(bs, k) == [12, k - 12]
  {
    hide Reached;
    SinglePath(bs / 4, k);
    PathUnique(bs / 4, [12, k - 12], Route(bs, k));
  }

  lemma OnePointer(disk: seq<byte>, bs: nat, b: nat, o: nat, ws: seq<nat>)
    requires Present(disk, bs, b, [o]) && OnDisk(disk, bs, b) && DiskBlock(disk, bs, b) == Words(ws)
    requires o < |ws| && ws[o] < UINT_LIMIT
    ensures OnDisk(disk, bs, ws[o]) && Follow(disk, bs, b, [o]) == ws[o]
  {
    hide Words, DiskBlock, Pointer;
    PointerOf(ws, o);
    assert [o][1..] == [];
  }

  /** Byte by byte: the file as its blocks hold it, then zeros up to a whole number of blocks. */
  ghost predicate FileBytes(disk: seq<byte>, bs: nat, ino: Inode, s: seq<byte>)
    requires bs > 0
  {
    && |s| == (ino.size + bs - 1) / bs * bs
    && (forall j: nat :: j < ino.size && j < |s| ==>
          HasBlock(disk, bs, ino, j / bs) && s[j] == FileBlock(disk, bs, ino, j / bs)[j % bs])
    && (forall j: nat :: ino.size <= j < |s| ==> s[j] == 0)
  }

  lemma ImageByte(disk: seq<byte>, bs: nat, ino: Inode, j: nat)
    requires BlockSize(bs) && HasBlocks(disk, bs, ino, BlocksOf(ino.size, bs)) && j < ino.size
    ensures HasBlock(disk, bs, ino, j / bs)
    ensures FileImage(disk, bs, ino)[j] == FileBlock(disk, bs, ino, j / bs)[j % bs]
  {
    hide HasBlock, FileBlock, FileBlocks;
    var n, k := BlocksOf(ino.size, bs), j / bs;
    assert j == k * bs + j % bs;
    if k >= n { Scale(n, k, bs); }
    BlockInPlace(disk, bs, ino, n, k);
    var all := FileBlocks(disk, bs, ino, n);
    assert all[k * bs..k * bs + bs][j % bs] == all[j];
  }

  lemma ImageZero(disk: seq<byte>, bs: nat, ino: Inode, j: nat)
    requires BlockSize(bs) && HasBlocks(disk, bs, ino, BlocksOf(ino.size, bs))
    requires ino.size <= j < BlocksOf(ino.size, bs) * bs
    ensures FileImage(disk, bs, ino)[j] == 0
  {
    hide HasBlock, FileBlocks, BlocksOf;
  }

  lemma ImageBytes(disk: seq<byte>, bs: nat, ino: Inode)
    requires BlockSize(bs) && HasBlocks(disk, bs, ino, BlocksOf(ino.size, bs))
    ensures FileBytes(disk, bs, ino, FileImage(disk, bs, ino))
  {
    hide HasBlock, FileBlock, HasBlocks, FileImage, BlocksOf;
    var s := FileImage(disk, bs, ino);
    BlocksAre(ino.size, bs);
    forall j: nat | j < ino.size && j < |s|
      ensures HasBlock(disk, bs, ino, j / bs) && s[j] == FileBlock(disk, bs, ino, j / bs)[j % bs]
    {
      ImageByte(disk, bs, ino, j);
    }
    forall j: nat | ino.size <= j < |s| ensures s[j] == 0 { ImageZero(disk, bs, ino, j); }
  }

  /** A file is read by the fields that were written for it. */
  method ReadEncoded(heap: KernelHeap, disk: seq<byte>, bs: nat, off: nat, ghost ino: Inode, ghost rest: Rest)
    returns (r: Option<nat>)
    requires heap.Valid() && BlockSize(bs) && InodeOn(disk, off) && Wide(ino)
    requires off + 128 <= |disk| && disk[off..off + 128] == EncodeInode(ino, rest)
    requires HasBlocks(disk, bs, ino, BlocksOf(ino.size, bs))
    modifies heap`blocks, heap`brk, heap.mem
    ensures r.Some? <==>
      HeapServes(old(heap.blocks), (ino.size + bs - 1) / bs * bs, bs) && ino.size <= (ino.blocks + 1) * bs
    ensures r.Some? ==> r.value >= HEADER
    ensures r.Some? ==>
      exists s: seq<byte> :: PayloadIs(heap.mem[..], r.value - HEADER, s) && FileBytes(disk, bs, ino, s)
  {
    hide HasBlocks, BlocksOf, Live, PayloadIs, HeapServes, FileImage, InodeOf, EncodeInode, Wide, Encoded, FileBytes;
    hide NoAdjacentFree, Addr;
    InodeRoundTrip(ino, rest);
    assert DiskInode(disk, off) == ino by { InodeSector(disk, off); }
    ImageBytes(disk, bs, ino);
    assert BlocksOf(ino.size, bs) == (ino.size + bs - 1) / bs by { BlocksAre(ino.size, bs); }
    r := ReadFile(heap, disk, bs, off);
    if r.Some? { assert PayloadIs(heap.mem[..], r.value - HEADER, FileImage(disk, bs, ino)); }
  }

  lemma BlocksAre(size: nat, bs: nat)
    requires bs > 0
    ensures BlocksOf(size, bs) == (size + bs - 1) / bs
  {
  }
}
