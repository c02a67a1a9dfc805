/** What copying a buffer into an address space must achieve (src/mm/vmm.c, lines 335-358). */
module Fill {
  import opened Bytes
  import opened PageTables
  import opened Views
  import opened Fork

  /** The part of the first len bytes of a buffer that falls on its i-th page. */
  function Chunk(src: seq<byte>, len: nat, i: nat): (c: seq<byte>)
    requires len <= |src|
    ensures |c| <= PAGE_SIZE
  {
    if len <= i * PAGE_SIZE then []
    else if len <= (i + 1) * PAGE_SIZE then src[i * PAGE_SIZE..len]
    else src[i * PAGE_SIZE..(i + 1) * PAGE_SIZE]
  }

  /** A frame with its first bytes replaced by a chunk. */
  function Patched(f: Frame, c: seq<byte>): Frame
    requires |c| <= PAGE_SIZE
  {
    c + f[|c|..]
  }

  /** The frame of page g has its first bytes replaced by a chunk. */
  ghost predicate FilledPage(v: View, m1: seq<Frame>, g: Page, c: seq<byte>)
    requires g in v.flat && |c| <= PAGE_SIZE
  {
    var f := FrameOf(v.flat[g]);
    f < |m1| && f < |v.mem| && m1[f] == Patched(v.mem[f], c)
  }

  /** The first i pages of a range of space m hold their part of the buffer; nothing else changed. */
  ghost predicate FilledTo(v: View, m1: seq<Frame>, m: nat, first: nat, pages: nat, src: seq<byte>, len: nat, i: nat)
  {
    && |m1| == |v.mem| && len <= |src|
    && (forall q: nat :: first <= q < first + i && q < first + pages && Page(m, q) in v.flat ==>
          FilledPage(v, m1, Page(m, q), Chunk(src, len, q - first)))
    && (forall f :: 0 <= f < |m1| && !(f in v.home && v.home[f].sp == m && first <= v.home[f].v < first + i) ==>
          m1[f] == v.mem[f])
  }

  lemma FillNothing(v: View, m: nat, first: nat, pages: nat, src: seq<byte>, len: nat)
    requires len <= |src|
    ensures FilledTo(v, v.mem, m, first, pages, src, len, 0)
  {
    hide FrameOf, Chunk;
  }

  lemma FilledSize(v: View, m1: seq<Frame>, m: nat, first: nat, pages: nat, src: seq<byte>, len: nat, i: nat)
    requires FilledTo(v, m1, m, first, pages, src, len, i)
    ensures |m1| == |v.mem|
  {
  }

  lemma AllFilled(v: View, m1: seq<Frame>, m: nat, first: nat, pages: nat, src: seq<byte>, len: nat, i: nat)
    requires FilledTo(v, m1, m, first, pages, src, len, i) && i == pages
    ensures FilledTo(v, m1, m, first, pages, src, len, pages)
  {
  }

  lemma FillStep(v: View, m1: seq<Frame>, m2: seq<Frame>, m: nat, first: nat, pages: nat, src: seq<byte>, len: nat,
                 i: nat)
    requires Core(v) && (forall f :: f in v.client ==> f < |v.mem|) && i < pages
    requires forall q: nat :: first <= q < first + pages ==> RegularAt(v, m, q)
    requires FilledTo(v, m1, m, first, pages, src, len, i) && RegularAt(v, m, first + i)
    requires var f := FrameOf(v.flat[Page(m, first + i)]);
      f < |m1| && m2 == m1[f := Patched(m1[f], Chunk(src, len, i))]
    ensures FilledTo(v, m2, m, first, pages, src, len, i + 1)
  {
    hide FrameOf, Core, Chunk, Patched;
    RegularFrame(v, m, first + i);
    var f := FrameOf(v.flat[Page(m, first + i)]);
    assert m1[f] == v.mem[f];
    forall q: nat | first <= q < first + (i + 1) && q < first + pages && Page(m, q) in v.flat
      ensures FilledPage(v, m2, Page(m, q), Chunk(src, len, q - first))
    {
      assert RegularAt(v, m, q);
      RegularFrame(v, m, q);
      if q < first + i { assert FilledPage(v, m1, Page(m, q), Chunk(src, len, q - first)); }
    }
    forall g | 0 <= g < |m2| && !(g in v.home && v.home[g].sp == m && first <= v.home[g].v < first + (i + 1))
      ensures m2[g] == v.mem[g]
    {
      assert g != f && m2[g] == m1[g];
    }
  }

  /** Pages past the end of the buffer are filled by doing nothing. */
  lemma RestIsPast(v: View, m1: seq<Frame>, m: nat, first: nat, pages: nat, src: seq<byte>, len: nat, i: nat)
    requires Core(v) && (forall f :: f in v.client ==> f < |v.mem|) && i < pages && len <= i * PAGE_SIZE
    requires forall q: nat :: first <= q < first + pages ==> RegularAt(v, m, q)
    requires FilledTo(v, m1, m, first, pages, src, len, i)
    ensures FilledTo(v, m1, m, first, pages, src, len, pages)
  {
    hide FrameOf, Core, Patched;
    forall q: nat | first <= q < first + pages && Page(m, q) in v.flat
      ensures FilledPage(v, m1, Page(m, q), Chunk(src, len, q - first))
    {
      assert RegularAt(v, m, q);
      RegularFrame(v, m, q);
      if q >= first + i {
        var g := FrameOf(v.flat[Page(m, q)]);
        EmptyPatch(v.mem[g]);
        assert Chunk(src, len, q - first) == [];
        assert m1[g] == v.mem[g];
      } else {
        assert FilledPage(v, m1, Page(m, q), Chunk(src, len, q - first));
      }
    }
  }

  lemma EmptyPatch(f: Frame)
    ensures Patched(f, []) == f
  {
  }

  /** Byte j of the range after the copy: the buffer's, or past its end what was there. */
  lemma FilledByte(v: View, m1: seq<Frame>, m: nat, first: nat, pages: nat, src: seq<byte>, len: nat, j: nat)
    requires FilledTo(v, m1, m, first, pages, src, len, pages) && j < pages * PAGE_SIZE
    requires Page(m, first + j / PAGE_SIZE) in v.flat
    ensures var f := FrameOf(v.flat[Page(m, first + j / PAGE_SIZE)]);
      f < |m1| && m1[f][j % PAGE_SIZE] == if j < len then src[j] else v.mem[f][j % PAGE_SIZE]
  {
    hide FrameOf;
    var k := j / PAGE_SIZE;
    assert k < pages;
    var f := FrameOf(v.flat[Page(m, first + k)]);
    assert FilledPage(v, m1, Page(m, first + k), Chunk(src, len, first + k - first));
    PatchedByte(v.mem[f], src, len, k, j % PAGE_SIZE);
    assert j == k * PAGE_SIZE + j % PAGE_SIZE;
  }

  lemma PatchedByte(f: Frame, src: seq<byte>, len: nat, k: nat, o: nat)
    requires len <= |src| && o < PAGE_SIZE
    ensures Patched(f, Chunk(src, len, k))[o] == if k * PAGE_SIZE + o < len then src[k * PAGE_SIZE + o] else f[o]
  {
  }
}
