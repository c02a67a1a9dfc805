/**
 * Four-level page tables (src/mm/vmm.c, lines 10-184): a radix tree whose nodes are page frames
 * taken from the frame allocator, shared by any number of address spaces.
 */
module PageTables {
  import opened Bytes

  // ---------- virtual page numbers and table indices ----------

  /** Number of virtual pages that four 9-bit indices can tell apart. */
  const PAGES: nat := 0x10_0000_0000

  function P4Ndx(virt: nat): nat { virt / 0x80_0000_0000 % 512 }
  function P3Ndx(virt: nat): nat { virt / 0x4000_0000 % 512 }
  function P2Ndx(virt: nat): nat { virt / 0x20_0000 % 512 }
  function P1Ndx(virt: nat): nat { virt / 0x1000 % 512 }

  /** The page of an address: the bits above the 48th play no part in the walk. */
  function PageNo(virt: nat): (v: nat)
    ensures v < PAGES
  {
    virt / PAGE_SIZE % PAGES
  }

  /** A place in the tree: the root, or an entry of the table at a place. */
  datatype Path = Root | Sub(up: Path, ndx: nat)

  function Depth(p: Path): nat
  {
    match p case Root => 0 case Sub(up, _) => 1 + Depth(up)
  }

  predicate PathOk(p: Path)
  {
    match p case Root => true case Sub(up, i) => i < 512 && PathOk(up)
  }

  /** The place of the leaf entry of a page. */
  function PagePath(v: nat): Path
  {
    Sub(Sub(Sub(Sub(Root, v / 0x800_0000 % 512), v / 0x4_0000 % 512), v / 512 % 512), v % 512)
  }

  /** The page number that a path of indices spells. */
  function PageOf(p: Path): nat
  {
    match p case Root => 0 case Sub(up, i) => 512 * PageOf(up) + i
  }

  lemma PageOfPagePath(v: nat)
    requires v < PAGES
    ensures PageOf(PagePath(v)) == v && Depth(PagePath(v)) == 4 && PathOk(PagePath(v))
  {
    var a := v / 512;
    var b := a / 512;
    var c := b / 512;
    assert v / 0x4_0000 == b && v / 0x800_0000 == c && c < 512;
    var d1 := Sub(Root, c);
    var d2 := Sub(d1, b % 512);
    var d3 := Sub(d2, a % 512);
    assert PagePath(v) == Sub(d3, v % 512);
    assert PageOf(d1) == c && Depth(d1) == 1 && PathOk(d1);
    assert PageOf(d2) == b && Depth(d2) == 2 && PathOk(d2);
    assert PageOf(d3) == a && Depth(d3) == 3 && PathOk(d3);
  }

  /** Every well-formed path of four indices is the path of a page. */
  lemma PageAt(p: Path) returns (v: nat)
    requires PathOk(p) && Depth(p) == 4
    ensures v < PAGES && PagePath(v) == p
  {
    var p3 := p.up;
    var p2 := p3.up;
    assert PathOk(p3) && Depth(p2) == 2 && PathOk(p2);
    var p1 := p2.up;
    assert Depth(p1) == 1 && p1.Sub? && PathOk(p1) && Depth(p1.up) == 0 && p1.up == Root;
    v := 512 * (512 * (512 * p1.ndx + p2.ndx) + p3.ndx) + p.ndx;
    SpelledOut(p1.ndx, p2.ndx, p3.ndx, p.ndx);
  }

  lemma SpelledOut(i4: nat, i3: nat, i2: nat, i1: nat)
    requires i4 < 512 && i3 < 512 && i2 < 512 && i1 < 512
    ensures var v := 512 * (512 * (512 * i4 + i3) + i2) + i1;
      v < PAGES && PagePath(v) == Sub(Sub(Sub(Sub(Root, i4), i3), i2), i1)
  {
    var w2 := 512 * i4 + i3;
    var w3 := 512 * w2 + i2;
    var v := 512 * w3 + i1;
    Digits(i4, i3);
    Digits(w2, i2);
    Digits(w3, i1);
    DivTwice(v, 512, 512);
    DivTwice(v, 512, 0x4_0000);
    DivTwice(w3, 512, 512);
  }

  lemma Digits(hi: nat, lo: nat)
    requires lo < 512
    ensures (512 * hi + lo) / 512 == hi && (512 * hi + lo) % 512 == lo
  {
  }

  /** The index macros spell the path of the page of the address. */
  lemma IndicesSpellPage(virt: nat)
    ensures PagePath(PageNo(virt)) ==
      Sub(Sub(Sub(Sub(Root, P4Ndx(virt)), P3Ndx(virt)), P2Ndx(virt)), P1Ndx(virt))
  {
    var w := virt / 4096;
    DivTwice(virt, 4096, 512);
    DivTwice(virt, 4096, 0x4_0000);
    DivTwice(virt, 4096, 0x800_0000);
    DigitOfRemainder(w, 1, 0x800_0000);
    DigitOfRemainder(w, 512, 0x4_0000);
    DigitOfRemainder(w, 0x4_0000, 512);
    DigitOfRemainder(w, 0x800_0000, 1);
  }

  lemma PagesApart(v: nat, w: nat)
    requires v < PAGES && w < PAGES && PagePath(v) == PagePath(w)
    ensures v == w
  {
    PageOfPagePath(v);
    PageOfPagePath(w);
  }

  /** Place p is place q or lies above it. */
  ghost predicate Above(p: Path, q: Path)
  {
    p == q || (q.Sub? && Above(p, q.up))
  }

  lemma {:induction false} RootAbove(q: Path)
    ensures Above(Root, q)
  {
    if q.Sub? { RootAbove(q.up); }
  }

  // ---------- entries in memory ----------

  /** Frame number that an entry points to: the entry with its low twelve bits masked off. */
  function FrameOf(e: nat): nat { e / PAGE_SIZE }

  /** `e & ~PAGE_MASK`. */
  function Masked(e: nat): (r: nat)
    ensures r % PAGE_SIZE == 0 && r <= e < r + PAGE_SIZE
  {
    e / PAGE_SIZE * PAGE_SIZE
  }

  /** Entry i of the table at a physical address; memory outside RAM reads as zero. */
  function Load(m: seq<Frame>, table: nat, i: nat): nat
    requires i < 512
  {
    if FrameOf(table) < |m| then Word(m[FrameOf(table)], i) else 0
  }

  function P4Entry(m: seq<Frame>, p4: nat, i: nat): nat
    requires i < 512
  {
    Load(m, p4, i)
  }

  function P3Entry(m: seq<Frame>, p4: nat, i4: nat, i: nat): nat
    requires i4 < 512 && i < 512
  {
    Load(m, Masked(P4Entry(m, p4, i4)), i)
  }

  function P2Entry(m: seq<Frame>, p4: nat, i4: nat, i3: nat, i: nat): nat
    requires i4 < 512 && i3 < 512 && i < 512
  {
    Load(m, Masked(P3Entry(m, p4, i4, i3)), i)
  }

  function P1Entry(m: seq<Frame>, p4: nat, i4: nat, i3: nat, i2: nat, i: nat): nat
    requires i4 < 512 && i3 < 512 && i2 < 512 && i < 512
  {
    Load(m, Masked(P2Entry(m, p4, i4, i3, i2)), i)
  }

  /** The translation that the processor makes of a page: 0 as soon as a level is absent. */
  function Walk(m: seq<Frame>, p4: nat, v: nat): nat
  {
    WalkPath(m, p4, PagePath(v))
  }

  function WalkPath(m: seq<Frame>, p4: nat, p: Path): nat
  {
    match p
    case Root => p4
    case Sub(up, i) =>
      var table := WalkPath(m, p4, up);
      if table == 0 || i >= 512 then 0 else Load(m, table, i)
  }

  // ---------- the tree ----------

  /** A place in the tree of one address space. */
  datatype Node = Node(sp: nat, path: Path)

  function Child(n: Node, i: nat): Node { Node(n.sp, Sub(n.path, i)) }

  /** A page of one address space. */
  datatype Page = Page(sp: nat, v: nat)

  function Leaf(g: Page): Node { Node(g.sp, PagePath(g.v)) }

  function Slot(slots: map<Node, nat>, n: Node): nat
  {
    if n in slots then slots[n] else 0
  }

  /** Entries are nonzero 64-bit words at well-formed places, each below a present table. */
  ghost predicate SlotsOk(p4: map<nat, nat>, slots: map<Node, nat>)
  {
    && (forall n :: n in slots ==>
          n.sp in p4 && PathOk(n.path) && Depth(n.path) <= 4 && 0 < slots[n] < WORD_LIMIT)
    && (forall n :: n in slots && n.path.Sub? ==> Node(n.sp, n.path.up) in slots)
  }

  /** The root entry of a space is the physical address in its `p4` field. */
  ghost predicate RootsOk(p4: map<nat, nat>, slots: map<Node, nat>)
  {
    forall s :: s in p4 ==> p4[s] == Slot(slots, Node(s, Root)) && p4[s] % PAGE_SIZE == 0
  }

  /** Every non-leaf entry names a table frame, and every table frame serves exactly one place. */
  ghost predicate TablesOk(slots: map<Node, nat>, tables: map<nat, Node>)
  {
    && (forall n :: n in slots && Depth(n.path) < 4 ==>
          FrameOf(slots[n]) in tables && tables[FrameOf(slots[n])] == n)
    && (forall f :: f in tables ==>
          tables[f] in slots && Depth(tables[f].path) < 4 && FrameOf(slots[tables[f]]) == f)
  }

  /** The words of every table frame are the entries of its place. */
  ghost predicate Mirrors(m: seq<Frame>, slots: map<Node, nat>, tables: map<nat, Node>)
  {
    && (forall f :: f in tables ==> f < |m|)
    && (forall f, i: nat :: f in tables && i < 512 ==> Word(m[f], i) == Slot(slots, Child(tables[f], i)))
  }

  /** The tree that `slots` and `tables` describe is the one that memory holds. */
  ghost predicate Consistent(m: seq<Frame>, p4: map<nat, nat>, slots: map<Node, nat>, tables: map<nat, Node>)
  {
    SlotsOk(p4, slots) && RootsOk(p4, slots) && TablesOk(slots, tables) && Mirrors(m, slots, tables)
  }

  ghost predicate HasChild(slots: map<Node, nat>, n: Node)
  {
    exists i: nat :: i < 512 && Child(n, i) in slots
  }

  /** Every table, except possibly the one at a place under construction, has a nonzero entry. */
  ghost predicate DenseBut(slots: map<Node, nat>, loose: Node)
  {
    forall n :: n in slots && Depth(n.path) < 4 && n != loose ==> HasChild(slots, n)
  }

  ghost predicate Dense(slots: map<Node, nat>)
  {
    forall n :: n in slots && Depth(n.path) < 4 ==> HasChild(slots, n)
  }

  /** The flat map from pages to entries is the leaf level of the tree. */
  ghost predicate IsFlat(slots: map<Node, nat>, flat: map<Page, nat>)
  {
    && (forall g :: g in flat ==> g.v < PAGES && Leaf(g) in slots && slots[Leaf(g)] == flat[g])
    && (forall g: Page :: g.v < PAGES && Leaf(g) in slots ==> g in flat)
  }

  /** The four-level walk of every page number gives the entry of the flat map. */
  lemma WalkIsFlat(m: seq<Frame>, p4: map<nat, nat>, slots: map<Node, nat>, tables: map<nat, Node>,
                   flat: map<Page, nat>, s: nat, v: nat)
    requires Consistent(m, p4, slots, tables) && IsFlat(slots, flat) && s in p4 && v < PAGES
    ensures Walk(m, p4[s], v) == if Page(s, v) in flat then flat[Page(s, v)] else 0
  {
    PageOfPagePath(v);
    WalkIsSlot(m, p4, slots, tables, s, PagePath(v));
    assert Leaf(Page(s, v)) == Node(s, PagePath(v));
  }

  lemma {:induction false} WalkIsSlot(m: seq<Frame>, p4: map<nat, nat>, slots: map<Node, nat>,
                                      tables: map<nat, Node>, s: nat, p: Path)
    requires Consistent(m, p4, slots, tables) && s in p4 && PathOk(p) && Depth(p) <= 4
    ensures WalkPath(m, p4[s], p) == Slot(slots, Node(s, p))
  {
    if p.Sub? {
      WalkIsSlot(m, p4, slots, tables, s, p.up);
      var n := Node(s, p.up);
      assert Child(n, p.ndx) == Node(s, p);
      if n in slots {
        var f := FrameOf(slots[n]);
        assert f in tables && tables[f] == n;
        assert Word(m[f], p.ndx) == Slot(slots, Child(tables[f], p.ndx));
      } else {
        assert Node(s, p) !in slots;
      }
    }
  }

  /** In numbers: nine bits of the address from each of bits 39, 30, 21 and 12 up choose the entries. */
  lemma FourLevels(m: seq<Frame>, p4: nat, virt: nat)
    ensures var e4 := if p4 == 0 then 0 else Load(m, p4, virt / 0x80_0000_0000 % 512);
      var e3 := if e4 == 0 then 0 else Load(m, e4, virt / 0x4000_0000 % 512);
      var e2 := if e3 == 0 then 0 else Load(m, e3, virt / 0x20_0000 % 512);
      Walk(m, p4, PageNo(virt)) == if e2 == 0 then 0 else Load(m, e2, virt / 0x1000 % 512)
  {
    hide PagePath, PageNo, Load;
    IndicesSpellPage(virt);
    var r := Root;
    var d1 := Sub(r, P4Ndx(virt));
    var d2 := Sub(d1, P3Ndx(virt));
    var d3 := Sub(d2, P2Ndx(virt));
    assert WalkPath(m, p4, r) == p4;
    assert WalkPath(m, p4, d1) == if p4 == 0 then 0 else Load(m, p4, P4Ndx(virt));
    assert WalkPath(m, p4, d3) ==
      if WalkPath(m, p4, d2) == 0 then 0 else Load(m, WalkPath(m, p4, d2), P2Ndx(virt));
  }

  /** Masking an entry does not change which table it names. */
  lemma MaskedFrame(e: nat)
    ensures FrameOf(Masked(e)) == FrameOf(e)
  {
  }

  /** The unchecked getters agree with the walk as long as the tables above are present. */
  lemma GettersFollowWalk(m: seq<Frame>, p4: map<nat, nat>, slots: map<Node, nat>, tables: map<nat, Node>,
                          s: nat, i4: nat, i3: nat, i2: nat, i1: nat)
    requires Consistent(m, p4, slots, tables) && s in p4 && i4 < 512 && i3 < 512 && i2 < 512 && i1 < 512
    ensures var n4 := Node(s, Root); var n3 := Child(n4, i4); var n2 := Child(n3, i3); var n1 := Child(n2, i2);
      && (n4 in slots ==> P4Entry(m, p4[s], i4) == Slot(slots, n3))
      && (n3 in slots ==> P3Entry(m, p4[s], i4, i3) == Slot(slots, n2))
      && (n2 in slots ==> P2Entry(m, p4[s], i4, i3, i2) == Slot(slots, n1))
      && (n1 in slots ==> P1Entry(m, p4[s], i4, i3, i2, i1) == Slot(slots, Child(n1, i1)))
  {
    var n4 := Node(s, Root);
    var n3 := Child(n4, i4);
    var n2 := Child(n3, i3);
    var n1 := Child(n2, i2);
    assert Depth(n3.path) == 1 && Depth(n2.path) == 2 && Depth(n1.path) == 3;
    if n4 in slots { LoadIsSlot(m, p4, slots, tables, n4, i4); }
    if n3 in slots {
      LoadIsSlot(m, p4, slots, tables, n3, i3);
      MaskedFrame(slots[n3]);
    }
    if n2 in slots {
      LoadIsSlot(m, p4, slots, tables, n2, i2);
      MaskedFrame(slots[n2]);
    }
    if n1 in slots {
      LoadIsSlot(m, p4, slots, tables, n1, i1);
      MaskedFrame(slots[n1]);
    }
  }

  lemma LoadIsSlot(m: seq<Frame>, p4: map<nat, nat>, slots: map<Node, nat>, tables: map<nat, Node>, n: Node, i: nat)
    requires Consistent(m, p4, slots, tables) && n in slots && Depth(n.path) < 4 && i < 512
    ensures Load(m, slots[n], i) == Slot(slots, Child(n, i))
    ensures Load(m, Masked(slots[n]), i) == Slot(slots, Child(n, i))
    ensures n.path.Sub? ==> Node(n.sp, n.path.up) in slots && Child(Node(n.sp, n.path.up), n.path.ndx) == n
  {
    var f := FrameOf(slots[n]);
    assert f in tables && tables[f] == n;
    assert Word(m[f], i) == Slot(slots, Child(tables[f], i));
    MaskedFrame(slots[n]);
  }

  /** The trees of the other spaces are the same, entry by entry. */
  ghost predicate OnlySpace(s0: map<Node, nat>, s1: map<Node, nat>, sp: nat)
  {
    forall k :: (k in s0 || k in s1) && k.sp != sp ==> k in s0 && k in s1 && s1[k] == s0[k]
  }

  // ---------- one entry changes ----------

  /** Memory m1 is m with entry i of table frame pf set to e; other table frames are untouched. */
  ghost predicate EntryStored(m: seq<Frame>, m1: seq<Frame>, tables: map<nat, Node>, pf: nat, i: nat, e: nat)
  {
    && |m1| == |m| && pf < |m|
    && (forall g :: g in tables && g != pf && g < |m| ==> m1[g] == m[g])
    && (forall j: nat :: j < 512 ==> Word(m1[pf], j) == if j == i then e else Word(m[pf], j))
  }

  lemma ChildFacts(n: Node, i: nat)
    ensures Depth(Child(n, i).path) == Depth(n.path) + 1
    ensures PathOk(Child(n, i).path) <==> PathOk(n.path) && i < 512
  {
  }

  /** A nonzero entry appears (or a leaf entry is overwritten). A new table starts out empty. */
  lemma PutSlot(m: seq<Frame>, m1: seq<Frame>, p4: map<nat, nat>, slots: map<Node, nat>, tables: map<nat, Node>,
                n: Node, i: nat, e: nat)
    requires Consistent(m, p4, slots, tables) && n in slots && Depth(n.path) < 4 && i < 512
    requires 0 < e < WORD_LIMIT && EntryStored(m, m1, tables, FrameOf(slots[n]), i, e)
    requires Depth(n.path) < 3 ==>
      Child(n, i) !in slots && FrameOf(e) < |m| && FrameOf(e) !in tables &&
      forall j: nat :: j < 512 ==> Word(m1[FrameOf(e)], j) == 0
    ensures Consistent(m1, p4, slots[Child(n, i) := e],
                       if Depth(n.path) < 3 then tables[FrameOf(e) := Child(n, i)] else tables)
  {
    var c := Child(n, i);
    ChildFacts(n, i);
    var slots1 := slots[c := e];
    var tables1 := if Depth(n.path) < 3 then tables[FrameOf(e) := c] else tables;
    PutMirror(m, m1, slots, tables, n, i, FrameOf(slots[n]), FrameOf(e), e) by {
      assert c !in slots ==> forall j: nat :: Child(c, j) !in slots by {
        assert forall j: nat :: Child(c, j).path.up == c.path;
      }
    }
    hide Mirrors, EntryStored;
    PutSlots(p4, slots, n, i, e);
    PutTables(p4, slots, tables, n, i, e);
  }

  lemma PutSlots(p4: map<nat, nat>, slots: map<Node, nat>, n: Node, i: nat, e: nat)
    requires SlotsOk(p4, slots) && RootsOk(p4, slots) && n in slots && Depth(n.path) < 4 && i < 512
    requires 0 < e < WORD_LIMIT
    ensures SlotsOk(p4, slots[Child(n, i) := e]) && RootsOk(p4, slots[Child(n, i) := e])
  {
    ChildFacts(n, i);
  }

  lemma PutTables(p4: map<nat, nat>, slots: map<Node, nat>, tables: map<nat, Node>, n: Node, i: nat, e: nat)
    requires SlotsOk(p4, slots) && TablesOk(slots, tables) && n in slots && Depth(n.path) < 4
    requires Depth(n.path) < 3 ==> Child(n, i) !in slots && FrameOf(e) !in tables
    ensures TablesOk(slots[Child(n, i) := e],
                     if Depth(n.path) < 3 then tables[FrameOf(e) := Child(n, i)] else tables)
  {
    hide FrameOf;
    ChildFacts(n, i);
    var c := Child(n, i);
    assert Depth(n.path) == 3 ==> forall f :: f in tables ==> tables[f] != c;
  }

  lemma PutMirror(m: seq<Frame>, m1: seq<Frame>, slots: map<Node, nat>, tables: map<nat, Node>,
                  n: Node, i: nat, pf: nat, nf: nat, e: nat)
    requires Mirrors(m, slots, tables) && i < 512
    requires pf in tables && tables[pf] == n && forall f :: f in tables && f != pf ==> tables[f] != n
    requires EntryStored(m, m1, tables, pf, i, e)
    requires Depth(n.path) < 3 ==> nf < |m| && nf !in tables
    requires Depth(n.path) < 3 ==> forall j: nat :: j < 512 ==> Word(m1[nf], j) == 0
    requires Depth(n.path) < 3 ==> forall j: nat :: Child(Child(n, i), j) !in slots
    ensures Mirrors(m1, slots[Child(n, i) := e],
                    if Depth(n.path) < 3 then tables[nf := Child(n, i)] else tables)
  {
    var c := Child(n, i);
    var slots1 := slots[c := e];
    var tables1 := if Depth(n.path) < 3 then tables[nf := c] else tables;
    forall f, j: nat | f in tables1 && j < 512
      ensures Word(m1[f], j) == Slot(slots1, Child(tables1[f], j))
    {
      if f in tables {
        assert Word(m[f], j) == Slot(slots, Child(tables[f], j));
      }
    }
  }

  /** The root table of a space is created. */
  lemma PutRoot(m: seq<Frame>, m1: seq<Frame>, p4: map<nat, nat>, slots: map<Node, nat>, tables: map<nat, Node>,
                s: nat, e: nat)
    requires Consistent(m, p4, slots, tables) && s in p4 && p4[s] == 0
    requires 0 < e < WORD_LIMIT && e % PAGE_SIZE == 0 && FrameOf(e) < |m| && FrameOf(e) !in tables
    requires |m1| == |m| && forall g :: g in tables && g < |m| ==> m1[g] == m[g]
    requires forall j: nat :: j < 512 ==> Word(m1[FrameOf(e)], j) == 0
    ensures Consistent(m1, p4[s := e], slots[Node(s, Root) := e], tables[FrameOf(e) := Node(s, Root)])
    ensures Node(s, Root) !in slots
  {
    var r := Node(s, Root);
    assert r !in slots;
    PutRootStructure(p4, slots, s, e);
    var slots1, tables1 := slots[r := e], tables[FrameOf(e) := r];
    assert TablesOk(slots1, tables1);
    assert Mirrors(m1, slots1, tables1) by {
      forall f, j: nat | f in tables1 && j < 512
        ensures Word(m1[f], j) == Slot(slots1, Child(tables1[f], j))
      {
        if f in tables {
          assert Word(m[f], j) == Slot(slots, Child(tables[f], j));
        } else {
          assert Child(r, j).path.up == r.path;
          assert Child(r, j) !in slots;
        }
      }
    }
  }

  lemma PutRootStructure(p4: map<nat, nat>, slots: map<Node, nat>, s: nat, e: nat)
    requires SlotsOk(p4, slots) && RootsOk(p4, slots) && s in p4
    requires 0 < e < WORD_LIMIT && e % PAGE_SIZE == 0
    ensures SlotsOk(p4[s := e], slots[Node(s, Root) := e]) && RootsOk(p4[s := e], slots[Node(s, Root) := e])
  {
  }

  /** An entry goes back to zero; if it named a table, that table was empty. */
  lemma DropSlot(m: seq<Frame>, m1: seq<Frame>, p4: map<nat, nat>, slots: map<Node, nat>, tables: map<nat, Node>,
                 n: Node, i: nat)
    requires Consistent(m, p4, slots, tables) && n in slots && Depth(n.path) < 4 && i < 512
    requires Child(n, i) in slots && EntryStored(m, m1, tables, FrameOf(slots[n]), i, 0)
    requires Depth(n.path) < 3 ==> !HasChild(slots, Child(n, i))
    ensures Consistent(m1, p4, slots - {Child(n, i)},
                       if Depth(n.path) < 3 then tables - {FrameOf(slots[Child(n, i)])} else tables)
  {
    var c := Child(n, i);
    ChildFacts(n, i);
    var tables1 := if Depth(n.path) < 3 then tables - {FrameOf(slots[c])} else tables;
    DropMirror(m, m1, slots, tables, n, i, FrameOf(slots[n]), tables1);
    DropStructure(p4, slots, c);
    DropTables(slots, tables, c);
  }

  lemma DropMirror(m: seq<Frame>, m1: seq<Frame>, slots: map<Node, nat>, tables: map<nat, Node>,
                   n: Node, i: nat, pf: nat, tables1: map<nat, Node>)
    requires Mirrors(m, slots, tables) && i < 512
    requires pf in tables && tables[pf] == n && forall f :: f in tables && f != pf ==> tables[f] != n
    requires EntryStored(m, m1, tables, pf, i, 0)
    requires tables1.Keys <= tables.Keys && forall f :: f in tables1 ==> tables1[f] == tables[f]
    ensures Mirrors(m1, slots - {Child(n, i)}, tables1)
  {
    var slots1 := slots - {Child(n, i)};
    forall f, j: nat | f in tables1 && j < 512
      ensures Word(m1[f], j) == Slot(slots1, Child(tables1[f], j))
    {
      assert Word(m[f], j) == Slot(slots, Child(tables[f], j));
    }
  }

  lemma DropStructure(p4: map<nat, nat>, slots: map<Node, nat>, c: Node)
    requires SlotsOk(p4, slots) && RootsOk(p4, slots) && c in slots && c.path.Sub?
    requires Depth(c.path) < 4 ==> !HasChild(slots, c)
    ensures SlotsOk(p4, slots - {c}) && RootsOk(p4, slots - {c})
  {
    NoChildren(p4, slots, c);
  }

  lemma NoChildren(p4: map<nat, nat>, slots: map<Node, nat>, c: Node)
    requires SlotsOk(p4, slots) && c in slots
    requires Depth(c.path) < 4 ==> !HasChild(slots, c)
    ensures forall k :: k in slots && k.path.Sub? ==> Node(k.sp, k.path.up) != c
  {
    forall k | k in slots && k.path.Sub?
      ensures Node(k.sp, k.path.up) != c
    {
      var i := k.path.ndx;
      ChildFacts(c, i);
      assert Node(k.sp, k.path.up) == c ==> k == Child(c, i);
    }
  }

  lemma DropTables(slots: map<Node, nat>, tables: map<nat, Node>, c: Node)
    requires TablesOk(slots, tables) && c in slots
    ensures TablesOk(slots - {c}, if Depth(c.path) < 4 then tables - {FrameOf(slots[c])} else tables)
  {
  }

  /** The empty root table of a space goes away. */
  lemma DropRoot(m: seq<Frame>, m1: seq<Frame>, p4: map<nat, nat>, slots: map<Node, nat>, tables: map<nat, Node>,
                 s: nat)
    requires Consistent(m, p4, slots, tables) && s in p4 && Node(s, Root) in slots
    requires !HasChild(slots, Node(s, Root))
    requires |m1| == |m| && forall g :: g in tables && g < |m| ==> m1[g] == m[g]
    ensures Consistent(m1, p4[s := 0], slots - {Node(s, Root)}, tables - {FrameOf(slots[Node(s, Root)])})
  {
    var r := Node(s, Root);
    NoChildren(p4, slots, r);
    DropTables(slots, tables, r);
    DropRootStructure(p4, slots, s);
    var slots1, tables1 := slots - {r}, tables - {FrameOf(slots[r])};
    assert Mirrors(m1, slots1, tables1) by {
      forall f, j: nat | f in tables1 && j < 512
        ensures Word(m1[f], j) == Slot(slots1, Child(tables1[f], j))
      {
        assert Word(m[f], j) == Slot(slots, Child(tables[f], j));
      }
    }
  }

  lemma DropRootStructure(p4: map<nat, nat>, slots: map<Node, nat>, s: nat)
    requires SlotsOk(p4, slots) && RootsOk(p4, slots) && s in p4
    requires forall k :: k in slots && k.path.Sub? ==> Node(k.sp, k.path.up) != Node(s, Root)
    ensures SlotsOk(p4[s := 0], slots - {Node(s, Root)}) && RootsOk(p4[s := 0], slots - {Node(s, Root)})
  {
  }

  // ---------- rights ----------

  /** The bits of an entry that make it present, allow stores, and allow access by programs. */
  const PRESENT: nat := 0
  const WRITE: nat := 1
  const USER: nat := 2

  /** The low twelve bits of an entry. */
  predicate Carries(e: nat, flags: nat)
  {
    e % PAGE_SIZE == flags
  }

  /** The tables of s0 are all there in s1, in the same frames. */
  ghost predicate KeepsTables(s0: map<Node, nat>, s1: map<Node, nat>)
  {
    forall k :: k in s0 && Depth(k.path) < 4 ==> k in s1 && s1[k] == s0[k]
  }

  /** The entries that name the new tables carry the given flags. */
  ghost predicate TablesTake(s0: map<Node, nat>, s1: map<Node, nat>, flags: nat)
  {
    forall k :: k in s1 && k !in s0 && k.path.Sub? && Depth(k.path) < 4 ==> Carries(s1[k], flags)
  }

  /** No table is lost, and the entries that name new ones carry the given flags. */
  ghost predicate Taken(s0: map<Node, nat>, s1: map<Node, nat>, flags: nat)
  {
    KeepsTables(s0, s1) && TablesTake(s0, s1, flags)
  }

  /** The place of the lowest table above a page. */
  function LowestTable(v: nat): (p: Path)
  {
    PagePath(v).up
  }

  lemma LowestIsTable(v: nat)
    requires v < PAGES
    ensures Depth(LowestTable(v)) == 3
  {
    PageOfPagePath(v);
  }

  /** The right as the walk finds it: in every entry from the root table down to the page. */
  predicate Allowed(m: seq<Frame>, p4: nat, p: Path, b: nat)
  {
    match p
    case Root => true
    case Sub(up, _) => Allowed(m, p4, up, b) && Bit(WalkPath(m, p4, p), b)
  }

  /** The entries at a place and above it, in one space, carry the right. */
  ghost predicate Carried(slots: map<Node, nat>, s: nat, p: Path, b: nat)
  {
    forall q :: Above(q, p) && q.Sub? && Node(s, q) in slots ==> Bit(slots[Node(s, q)], b)
  }

  lemma {:induction false} AboveStep(q: Path, p: Path)
    requires p.Sub?
    ensures Above(q, p) <==> q == p || Above(q, p.up)
  {
  }

  /** The walk through memory finds the rights of the entries. */
  lemma {:induction false} AllowedIsCarried(m: seq<Frame>, p4: map<nat, nat>, slots: map<Node, nat>,
                                            tables: map<nat, Node>, s: nat, p: Path, b: nat)
    requires Consistent(m, p4, slots, tables) && s in p4 && PathOk(p) && Depth(p) <= 4 && Node(s, p) in slots
    ensures Allowed(m, p4[s], p, b) <==> Carried(slots, s, p, b)
  {
    hide Mirrors, TablesOk, Bit, WalkPath;
    if p.Sub? {
      assert Node(s, p.up) in slots by { assert Node(s, p).path.up == p.up; }
      AllowedIsCarried(m, p4, slots, tables, s, p.up, b);
      WalkIsSlot(m, p4, slots, tables, s, p);
      forall q ensures Above(q, p) <==> q == p || Above(q, p.up) { AboveStep(q, p); }
      assert Carried(slots, s, p, b) <==> Carried(slots, s, p.up, b) && Bit(slots[Node(s, p)], b);
    }
  }

  lemma FlagOf(e: nat, flags: nat, b: nat)
    requires Carries(e, flags) && b <= USER
    ensures Bit(e, b) <==> Bit(flags, b)
  {
    hide Bit;
    ThreeBits(e);
    ThreeBits(flags);
    var q := e / PAGE_SIZE;
    assert e == q * PAGE_SIZE + flags;
    LowDigit(e, q * 2048, flags, 1);
    LowDigit(e, q * 1024, flags, 2);
    LowDigit(e, q * 512, flags, 4);
  }

  lemma LowDigit(e: nat, q: nat, flags: nat, d: nat)
    requires d > 0 && e == q * (2 * d) + flags
    ensures e / d % 2 == flags / d % 2
  {
    var f := flags / d;
    DivUnique(e, d, 2 * q + f, flags % d);
    DivUnique(2 * q + f, 2, q + f / 2, f % 2);
  }

  lemma ThreeBits(n: nat)
    ensures Bit(n, 0) == (n % 2 == 1) && Bit(n, WRITE) == (n / 2 % 2 == 1) && Bit(n, USER) == (n / 4 % 2 == 1)
  {
    assert Bit(n, 1) == Bit(n / 2, 0);
    assert Bit(n, 2) == Bit(n / 2, 1) && Bit(n / 2, 1) == Bit(n / 2 / 2, 0) && n / 2 / 2 == n / 4;
  }

  lemma {:induction false} AboveDepth(q: Path, p: Path)
    requires Above(q, p)
    ensures Depth(q) <= Depth(p)
  {
    if q != p { AboveDepth(q, p.up); }
  }

  lemma CarriedStep(slots: map<Node, nat>, s: nat, p: Path, b: nat)
    requires p.Sub? && Node(s, p) in slots
    ensures Carried(slots, s, p, b) <==> Carried(slots, s, p.up, b) && Bit(slots[Node(s, p)], b)
  {
    hide Bit;
    forall q ensures Above(q, p) <==> q == p || Above(q, p.up) { AboveStep(q, p); }
  }

  /** All tables of a space are entered with the right. */
  ghost predicate Lit(slots: map<Node, nat>, s: nat, b: nat)
  {
    forall n :: n in slots && n.sp == s && n.path.Sub? && Depth(n.path) < 4 ==> Bit(slots[n], b)
  }

  /** The entries that name tables are present. */
  ghost predicate TablesPresent(slots: map<Node, nat>)
  {
    forall n :: n in slots && n.path.Sub? && Depth(n.path) < 4 ==> Bit(slots[n], PRESENT)
  }

  lemma StillPresent(s0: map<Node, nat>, s1: map<Node, nat>, flags: nat)
    requires TablesPresent(s0) && Taken(s0, s1, flags) && Bit(flags, PRESENT)
    ensures TablesPresent(s1)
  {
    hide Bit, Carries, Depth;
    forall n | n in s1 && n.path.Sub? && Depth(n.path) < 4 ensures Bit(s1[n], PRESENT) {
      if n !in s0 { FlagOf(s1[n], flags, PRESENT); }
    }
  }

  /** Tables made with a flag leave it so. */
  lemma StillLit(s0: map<Node, nat>, s1: map<Node, nat>, s: nat, flags: nat, b: nat)
    requires Lit(s0, s, b) && Taken(s0, s1, flags) && Bit(flags, b) && b <= USER
    ensures Lit(s1, s, b)
  {
    hide Bit, Carries, Depth;
    forall n | n in s1 && n.sp == s && n.path.Sub? && Depth(n.path) < 4 ensures Bit(s1[n], b) {
      if n !in s0 { FlagOf(s1[n], flags, b); }
    }
  }

  lemma TakenKeeps(s0: map<Node, nat>, s1: map<Node, nat>, flags: nat)
    requires Taken(s0, s1, flags)
    ensures KeepsTables(s0, s1)
  {
  }

  lemma TakenNothing(slots: map<Node, nat>, flags: nat)
    ensures Taken(slots, slots, flags)
  {
  }

  lemma TakenTwice(s0: map<Node, nat>, s1: map<Node, nat>, s2: map<Node, nat>, flags: nat)
    requires Taken(s0, s1, flags) && Taken(s1, s2, flags)
    ensures Taken(s0, s2, flags)
  {
    hide Carries, Depth;
  }

  /** Where all tables have the right, those above a page have it. */
  lemma LitCarried(slots: map<Node, nat>, s: nat, p: Path, b: nat)
    requires Lit(slots, s, b) && Depth(p) < 4
    ensures Carried(slots, s, p, b)
  {
    hide Bit;
    forall q | Above(q, p) && q.Sub? && Node(s, q) in slots ensures Bit(slots[Node(s, q)], b) { AboveDepth(q, p); }
  }
}
