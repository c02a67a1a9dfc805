/** Whole runs of the kernel heap (src/mm/kmalloc.c): any sequence of allocations and frees. */
module HeapRuns {
  import opened Bytes
  import opened Layout
  import opened Heap

  /**
   * A call of `kmalloc`, of `free` with the payload behind header address a, or a store by the owner
   * of such a payload.
   */
  datatype HeapOp = Get(size: nat) | Give(a: nat) | Put(a: nat, k: nat, b: byte)

  ghost function After(bs: seq<Block>, op: HeapOp): (cs: seq<Block>)
  {
    match op
    case Get(size) => Malloc(bs, size)
    case Give(a) => if a in Live(bs) then Free(bs, IndexOf(bs, a)) else bs
    case Put(_, _, _) => bs
  }

  ghost function AfterAll(bs: seq<Block>, ops: seq<HeapOp>): (cs: seq<Block>)
  {
    if ops == [] then bs else After(AfterAll(bs, ops[..|ops| - 1]), ops[|ops| - 1])
  }

  /** Only live payloads are freed or written, inside their size, and no allocation panics. */
  ghost predicate Allowed(bs: seq<Block>, op: HeapOp)
  {
    match op
    case Get(size) => Served(bs, size) && HEADER + size <= WORD_LIMIT - HEAP_SIZE
    case Give(a) => a in Live(bs)
    case Put(a, k, _) => a in Live(bs) && k < Live(bs)[a]
  }

  ghost predicate AllowedRun(bs: seq<Block>, ops: seq<HeapOp>)
  {
    forall k :: 0 <= k < |ops| ==> Allowed(AfterAll(bs, ops[..k]), ops[k])
  }

  /** What the payload at a holds after the stores of a run: only its owner's count. */
  ghost function Poured(s: seq<byte>, ops: seq<HeapOp>, a: nat): (t: seq<byte>)
    ensures |t| == |s|
  {
    if ops == [] then s
    else
      var t := Poured(s, ops[..|ops| - 1], a);
      match ops[|ops| - 1]
      case Put(x, k, b) => if x == a && k < |t| then t[k := b] else t
      case _ => t
  }

  /** A payload that is not freed stays live, at its address and with its size. */
  lemma StaysLive(bs: seq<Block>, op: HeapOp, a: nat)
    requires Allowed(bs, op) && a in Live(bs) && op != Give(a)
    ensures a in Live(After(bs, op)) && Live(After(bs, op))[a] == Live(bs)[a]
  {
    hide Live, Malloc, Free, Addr, Served;
    match op
    case Get(size) => LiveMalloc(bs, size);
    case Give(b) => LiveFree(bs, IndexOf(bs, b));
    case Put(_, _, _) =>
  }

  /** The payload at a, live with size n, holds s. */
  ghost predicate Holds(m: seq<byte>, bs: seq<Block>, a: nat, s: seq<byte>)
  {
    && a in Live(bs) && Live(bs)[a] == |s| && HEAP_BASE <= a && a + HEADER + |s| <= HEAP_BASE + |m|
    && Payload(m, a, |s|) == s
  }

  lemma StillHolds(m0: seq<byte>, m1: seq<byte>, bs: seq<Block>, op: HeapOp, live: map<nat, nat>, a: nat, s: seq<byte>)
    requires Holds(m0, bs, a, s) && Allowed(bs, op) && op != Give(a)
    requires a in live && live[a] == |s| && PayloadsKept(m0, m1, live)
    ensures Holds(m1, After(bs, op), a, s)
  {
    hide Live, After, Allowed;
    StaysLive(bs, op, a);
  }

  /** One operation on the heap, and what every payload that it does not free holds then. */
  method Apply(heap: KernelHeap, op: HeapOp)
    requires heap.Valid() && Allowed(heap.blocks, op)
    modifies heap`blocks, heap`brk, heap.mem
    ensures heap.Valid() && heap.blocks == After(old(heap.blocks), op)
    ensures forall a, s :: Holds(old(heap.mem[..]), old(heap.blocks), a, s) && op != Give(a) ==>
      Holds(heap.mem[..], heap.blocks, a, Poured(s, [op], a))
  {
    hide Live, Malloc, Free, Addr, Served, PayloadsKept, Encoded, NoAdjacentFree, Holds;
    ghost var m0, bs := heap.mem[..], heap.blocks;
    match op {
      case Get(size) =>
        var _ := heap.Kmalloc(size);
        forall a, s | Holds(m0, bs, a, s) ensures Holds(heap.mem[..], heap.blocks, a, Poured(s, [op], a)) {
          PouredOne(s, op, a);
          HoldsIsLive(m0, bs, a, s);
          StillHolds(m0, heap.mem[..], bs, op, Live(bs), a, s);
        }
      case Give(b) =>
        heap.KFree(b + HEADER, IndexOf(bs, b));
        forall a, s | Holds(m0, bs, a, s) && a != b ensures Holds(heap.mem[..], heap.blocks, a, Poured(s, [op], a)) {
          PouredOne(s, op, a);
          HoldsIsLive(m0, bs, a, s);
          StillHolds(m0, heap.mem[..], bs, op, Live(bs) - {b}, a, s);
        }
      case Put(b, k, v) =>
        heap.Store(b, k, v);
        forall a, s | Holds(m0, bs, a, s) ensures Holds(heap.mem[..], heap.blocks, a, Poured(s, [op], a)) {
          PouredOne(s, op, a);
          HoldsIsLive(m0, bs, a, s);
          if a == b {
            StoredHolds(m0, heap.mem[..], bs, a, s, k, v);
          } else {
            StillHolds(m0, heap.mem[..], bs, op, Live(bs) - {b}, a, s);
          }
        }
    }
  }

  lemma PouredOne(s: seq<byte>, op: HeapOp, a: nat)
    ensures Poured(s, [op], a) == match op case Put(x, k, b) => if x == a && k < |s| then s[k := b] else s case _ => s
  {
    assert [op][..0] == [];
    assert Poured(s, [], a) == s;
  }

  lemma HoldsIsLive(m: seq<byte>, bs: seq<Block>, a: nat, s: seq<byte>)
    requires Holds(m, bs, a, s)
    ensures a in Live(bs) && Live(bs)[a] == |s|
  {
  }

  lemma StoredHolds(m0: seq<byte>, m1: seq<byte>, bs: seq<Block>, a: nat, s: seq<byte>, k: nat, b: byte)
    requires Holds(m0, bs, a, s) && k < |s| && m1 == m0[a + HEADER + k - HEAP_BASE := b]
    ensures Holds(m1, bs, a, s[k := b])
  {
    hide Live;
  }

  /**
   * Any run of allocations, frees and stores follows the layout, which stays tiled and coalesced, and
   * a payload that is not freed keeps its address and size and holds its owner's stores and no others.
   */
  method RunHeap(heap: KernelHeap, ops: seq<HeapOp>)
    requires heap.Valid() && AllowedRun(heap.blocks, ops)
    modifies heap`blocks, heap`brk, heap.mem
    ensures heap.Valid() && heap.blocks == AfterAll(old(heap.blocks), ops)
    ensures forall a, s :: Holds(old(heap.mem[..]), old(heap.blocks), a, s) && Give(a) !in ops ==>
      Holds(heap.mem[..], heap.blocks, a, Poured(s, ops, a))
  {
    hide Holds, KernelHeap.Valid, After, Allowed;
    ghost var bs, m0 := heap.blocks, heap.mem[..];
    for k := 0 to |ops|
      invariant heap.Valid() && heap.blocks == AfterAll(bs, ops[..k])
      invariant forall a, s :: Holds(m0, bs, a, s) && Give(a) !in ops[..k] ==>
        Holds(heap.mem[..], heap.blocks, a, Poured(s, ops[..k], a))
    {
      ghost var m1, b1 := heap.mem[..], heap.blocks;
      assert ops[..k + 1][..k] == ops[..k] && ops[..k + 1][k] == ops[k];
      assert Allowed(AfterAll(bs, ops[..k]), ops[k]);
      Apply(heap, ops[k]);
      forall a, s | Holds(m0, bs, a, s) && Give(a) !in ops[..k + 1]
        ensures Holds(heap.mem[..], heap.blocks, a, Poured(s, ops[..k + 1], a))
      {
        assert Holds(m1, b1, a, Poured(s, ops[..k], a));
        PouredOne(Poured(s, ops[..k], a), ops[k], a);
      }
    }
    assert ops[..|ops|] == ops;
  }

  /** No run leaves an empty block. */
  lemma {:induction false} NeverEmpty(bs: seq<Block>, ops: seq<HeapOp>)
    requires NoEmpty(bs) && AllowedRun(bs, ops)
    ensures NoEmpty(AfterAll(bs, ops))
  {
    hide NoEmpty, Malloc, Free, Live, Served;
    if ops != [] {
      var n := |ops| - 1;
      var init := ops[..n];
      forall k | 0 <= k < n ensures Allowed(AfterAll(bs, init[..k]), init[k]) {
        assert init[..k] == ops[..k];
        assert Allowed(AfterAll(bs, ops[..k]), ops[k]);
      }
      NeverEmpty(bs, init);
      assert Allowed(AfterAll(bs, ops[..n]), ops[n]);
      match ops[n]
      case Get(size) => MallocNoEmpty(AfterAll(bs, init), size) by { SomeSize(AfterAll(bs, init), size); }
      case Give(a) => FreeNoEmpty(AfterAll(bs, init), IndexOf(AfterAll(bs, init), a));
      case Put(_, _, _) =>
    }
  }

  lemma SomeSize(bs: seq<Block>, size: nat)
    requires Served(bs, size)
    ensures size > 0
  {
  }

  /** Every live payload holds its bytes, so the run theorem speaks about all of them. */
  lemma LiveHolds(m: seq<byte>, bs: seq<Block>, a: nat)
    requires Encoded(m, bs) && a in Live(bs)
    ensures HEAP_BASE <= a && a + HEADER + Live(bs)[a] <= HEAP_BASE + |m|
    ensures Holds(m, bs, a, Payload(m, a, Live(bs)[a]))
  {
    LiveInHeap(m, bs, a);
  }
}
