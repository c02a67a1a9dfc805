/** Physical memory as bytes: page frames, the bits of a byte, and little-endian words. */
module Bytes {

  type byte = b: int | 0 <= b < 256

  datatype Option<T> = None | Some(value: T)

  const PAGE_SIZE: nat := 4096

  /** One 4096-byte page frame of physical memory. */
  type Frame = f: seq<byte> | |f| == PAGE_SIZE witness seq(PAGE_SIZE, _ => 0)

  function ZeroFrame(): (f: Frame)
    ensures forall i :: 0 <= i < PAGE_SIZE ==> f[i] == 0
  {
    seq(PAGE_SIZE, _ => 0)
  }

  // ---------- bits of a byte ----------

  ghost function Exp2(n: nat): (r: nat)
    ensures r > 0
  {
    if n == 0 then 1 else 2 * Exp2(n - 1)
  }

  lemma Exp2Values()
    ensures Exp2(8) == 256 && Exp2(12) == 4096
  {
    assert Exp2(3) == 8;
    assert Exp2(6) == 64;
    assert Exp2(9) == 512;
  }

  /** `n & (1 << j)` read as a truth value. */
  predicate Bit(n: nat, j: nat)
  {
    if j == 0 then n % 2 == 1 else Bit(n / 2, j - 1)
  }

  /** `n | (1 << j)`: sets bit j and no other, and stays within any width that holds both. */
  function WithBit(n: nat, j: nat): (r: nat)
    ensures Bit(r, j)
    ensures forall k: nat :: k != j ==> Bit(r, k) == Bit(n, k)
    ensures forall w: nat :: j < w && n < Exp2(w) ==> r < Exp2(w)
  {
    if j == 0 then n / 2 * 2 + 1 else 2 * WithBit(n / 2, j - 1) + n % 2
  }

  /** `n & ~(1 << j)`: clears bit j and no other. */
  function WithoutBit(n: nat, j: nat): (r: nat)
    ensures !Bit(r, j)
    ensures forall k: nat :: k != j ==> Bit(r, k) == Bit(n, k)
    ensures r <= n
  {
    if j == 0 then n / 2 * 2 else 2 * WithoutBit(n / 2, j - 1) + n % 2
  }

  function SetBit(b: byte, j: nat): (r: byte)
    requires j < 8
    ensures Bit(r, j)
    ensures forall k: nat :: k != j ==> Bit(r, k) == Bit(b, k)
  {
    Exp2Values();
    WithBit(b, j)
  }

  function ClearBit(b: byte, j: nat): (r: byte)
    requires j < 8
    ensures !Bit(r, j)
    ensures forall k: nat :: k != j ==> Bit(r, k) == Bit(b, k)
  {
    WithoutBit(b, j)
  }

  // ---------- bitwise or of unsigned words ----------

  /** `a | b`, bit by bit. */
  function BitOr(a: nat, b: nat): (r: nat)
    ensures r >= a && r >= b
    ensures r <= a + b
  {
    if a == 0 then b
    else if b == 0 then a
    else 2 * BitOr(a / 2, b / 2) + (if a % 2 == 1 || b % 2 == 1 then 1 else 0)
  }

  lemma BitOrHalf(a: nat, b: nat)
    ensures BitOr(a, b) / 2 == BitOr(a / 2, b / 2)
    ensures BitOr(a, b) % 2 == (if a % 2 == 1 || b % 2 == 1 then 1 else 0)
  {
  }

  /** Or-ing flags into the low twelve bits leaves the frame address alone. */
  lemma {:induction false} BitOrKeepsFrame(a: nat, flags: nat)
    requires flags < PAGE_SIZE
    ensures BitOr(a, flags) / PAGE_SIZE == a / PAGE_SIZE
    ensures a % PAGE_SIZE == 0 ==> BitOr(a, flags) == a + flags
  {
    Exp2Values();
    BitOrHalves(a, flags, 12);
    if a % PAGE_SIZE == 0 {
      BitOrDisjoint(a, flags, 12);
    }
  }

  lemma {:induction false} BitOrHalves(a: nat, b: nat, n: nat)
    requires b < Exp2(n)
    ensures BitOr(a, b) / Exp2(n) == a / Exp2(n)
  {
    if n > 0 {
      BitOrHalf(a, b);
      BitOrHalves(a / 2, b / 2, n - 1);
      DivDiv(BitOr(a, b), Exp2(n - 1));
      DivDiv(a, Exp2(n - 1));
    }
  }

  lemma DivDiv(x: nat, m: nat)
    requires m > 0
    ensures x / (2 * m) == (x / 2) / m
  {
    var q := (x / 2) / m;
    var r := (x / 2) % m;
    assert x == 2 * (q * m + r) + x % 2;
    assert x == q * (2 * m) + (2 * r + x % 2);
    DivUnique(x, 2 * m, q, 2 * r + x % 2);
  }

  lemma DivUnique(x: int, d: int, q: int, r: int)
    requires d > 0 && 0 <= r < d && x == q * d + r
    ensures x / d == q && x % d == r
  {
    var q', r' := x / d, x % d;
    assert x == q' * d + r';
    assert (q - q') * d == r' - r;
    assert q - q' >= 1 ==> (q - q') * d >= d;
    assert q - q' <= -1 ==> (q - q') * d <= -d;
  }

  lemma DivTwice(x: nat, a: nat, b: nat)
    requires a > 0 && b > 0
    ensures a * b > 0 && x / (a * b) == x / a / b
  {
    var q, r := x / a / b, x / a % b;
    var t := x % a;
    assert x == (q * b + r) * a + t;
    assert x == q * (a * b) + (r * a + t);
    assert r * a + t <= (b - 1) * a + t < b * a;
    DivUnique(x, a * b, q, r * a + t);
  }

  /** Reducing a number modulo a multiple of d * 512 does not change its base-512 digit at d. */
  lemma DigitOfRemainder(w: nat, d: nat, k: nat)
    requires d > 0 && k > 0
    ensures d * 512 * k > 0
    ensures (w % (d * 512 * k)) / d % 512 == w / d % 512
  {
    var n := d * 512 * k;
    assert n > 0;
    var v, q := w % n, w / n;
    assert w == q * n + v;
    assert q * n == (q * 512 * k) * d;
    DivUnique(w, d, q * 512 * k + v / d, v % d);
    var e := v / d;
    assert q * 512 * k == (q * k) * 512;
    DivUnique(q * 512 * k + e, 512, q * k + e / 512, e % 512);
  }

  lemma {:induction false} BitOrDisjoint(a: nat, b: nat, n: nat)
    requires b < Exp2(n) && a % Exp2(n) == 0
    ensures BitOr(a, b) == a + b
  {
    if n > 0 && a > 0 && b > 0 {
      var m := Exp2(n - 1);
      var q := a / Exp2(n);
      assert a == q * (2 * m) == 2 * (q * m);
      assert a / 2 == q * m;
      DivUnique(a / 2, m, q, 0);
      BitOrDisjoint(a / 2, b / 2, n - 1);
    }
  }

  /** Or-ing in low bits that are there already changes nothing. */
  lemma {:induction false} BitOrAgain(q: nat, b: nat, n: nat)
    requires b < Exp2(n)
    ensures BitOr(q * Exp2(n) + b, b) == q * Exp2(n) + b
  {
    if n > 0 {
      var m := Exp2(n - 1);
      var a := q * Exp2(n) + b;
      assert q * Exp2(n) == q * (2 * m) == 2 * (q * m);
      assert a / 2 == q * m + b / 2 && a % 2 == b % 2;
      BitOrAgain(q, b / 2, n - 1);
      BitOrHalf(a, b);
    } else {
      assert b == 0;
    }
  }

  // ---------- little-endian words ----------

  ghost function Exp256(n: nat): (r: nat)
    ensures r > 0
  {
    if n == 0 then 1 else 256 * Exp256(n - 1)
  }

  const WORD_LIMIT: nat := 0x1_0000_0000_0000_0000
  const UINT_LIMIT: nat := 0x1_0000_0000

  function FromLE(bs: seq<byte>): (v: nat)
    ensures v < Exp256(|bs|)
  {
    if |bs| == 0 then 0 else bs[0] + 256 * FromLE(bs[1..])
  }

  function ToLE(v: nat, n: nat): (bs: seq<byte>)
    ensures |bs| == n
  {
    if n == 0 then [] else [v % 256] + ToLE(v / 256, n - 1)
  }

  /** Storing an integer and loading it back gives it modulo the width of the store. */
  lemma {:induction false} LittleEndianRoundTrip(v: nat, n: nat)
    requires v < Exp256(n)
    ensures FromLE(ToLE(v, n)) == v
  {
    if n > 0 {
      LittleEndianRoundTrip(v / 256, n - 1);
      assert ToLE(v, n)[1..] == ToLE(v / 256, n - 1);
    }
  }

  lemma {:induction false} ZeroBytes(bs: seq<byte>)
    requires forall i :: 0 <= i < |bs| ==> bs[i] == 0
    ensures FromLE(bs) == 0
  {
    if |bs| > 0 { ZeroBytes(bs[1..]); }
  }

  lemma WordWidth()
    ensures Exp256(8) == WORD_LIMIT
    ensures Exp256(4) == 0x1_0000_0000
  {
    assert Exp256(2) == 65536;
    assert Exp256(4) == 0x1_0000_0000;
    assert Exp256(6) == 0x1_0000_0000_0000;
  }

  /** The i-th 64-bit word of a frame. */
  function Word(f: Frame, i: nat): nat
    requires i < 512
  {
    FromLE(f[8 * i..8 * i + 8])
  }

  function WriteWord(f: Frame, i: nat, v: nat): Frame
    requires i < 512
  {
    f[..8 * i] + ToLE(v, 8) + f[8 * i + 8..]
  }

  /** A word store changes that word and no other. */
  lemma WordAfterWrite(f: Frame, i: nat, v: nat)
    requires i < 512 && v < WORD_LIMIT
    ensures Word(WriteWord(f, i, v), i) == v
    ensures forall j :: 0 <= j < 512 && j != i ==> Word(WriteWord(f, i, v), j) == Word(f, j)
  {
    var g := WriteWord(f, i, v);
    assert g[8 * i..8 * i + 8] == ToLE(v, 8);
    WordWidth();
    LittleEndianRoundTrip(v, 8);
    forall j | 0 <= j < 512 && j != i
      ensures Word(g, j) == Word(f, j)
    {
      assert g[8 * j..8 * j + 8] == f[8 * j..8 * j + 8];
    }
  }

  lemma ZeroFrameWords()
    ensures forall i :: 0 <= i < 512 ==> Word(ZeroFrame(), i) == 0
  {
    forall i | 0 <= i < 512
      ensures Word(ZeroFrame(), i) == 0
    {
      ZeroBytes(ZeroFrame()[8 * i..8 * i + 8]);
    }
  }

  // ---------- powers ----------

  function Power(p: nat, n: nat): (r: nat)
  {
    if n == 0 then 1 else Power(p, n - 1) * p
  }

  lemma Scale(a: int, b: int, c: nat)
    requires a <= b
    ensures a * c <= b * c
  {
  }
}
