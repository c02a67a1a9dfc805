/**
 * The text of a converted integer (src/lib/printf.c, lines 193-318): digits are produced least
 * significant first into a buffer of 32 characters, padded, marked and signed there, and written
 * out in reverse. What a reader of that text gets back.
 */
module Numbers {
  import opened Bytes

  const BUFFER_SIZE: nat := 32

  datatype Flags = Flags(
    zeropad: bool, left: bool, plus: bool, space: bool, hash: bool, upper: bool,
    chr: bool, short: bool, long: bool, longLong: bool, precision: bool)

  function Rep(c: char, n: int): (s: seq<char>)
    ensures |s| == if n < 0 then 0 else n
  {
    if n <= 0 then [] else Rep(c, n - 1) + [c]
  }

  lemma {:induction false} RepAll(c: char, n: int)
    ensures forall i :: 0 <= i < |Rep(c, n)| ==> Rep(c, n)[i] == c
  {
    if n > 0 { RepAll(c, n - 1); }
  }

  function Reverse(s: seq<char>): (r: seq<char>)
    ensures |r| == |s|
  {
    if s == [] then [] else Reverse(s[1..]) + [s[0]]
  }

  function Min(a: int, b: int): int { if a < b then a else b }
  function Max(a: int, b: int): int { if a < b then b else a }

  // ---------- the text ----------

  function DigitChar(d: nat, upper: bool): (c: char)
    requires d < 16
  {
    if d < 10 then '0' + d as char else (if upper then 'A' else 'a') + (d - 10) as char
  }

  function Quot(value: nat, base: nat): (q: nat)
    requires base > 0
  {
    value / base
  }

  function Rem(value: nat, base: nat): (r: nat)
    requires base > 0
    ensures r < base && value == Quot(value, base) * base + r
  {
    value % base
  }

  /** The digits of a value, least significant first, as many as there is room for. */
  function RevDigits(value: nat, base: nat, upper: bool, room: nat): (ds: seq<char>)
    requires 2 <= base <= 16
    ensures |ds| <= room && (room > 0 ==> |ds| > 0)
    decreases room
  {
    if room == 0 then []
    else
      [DigitChar(Rem(value, base), upper)] +
      if Quot(value, base) == 0 then [] else RevDigits(Quot(value, base), base, upper, room - 1)
  }

  /** Leading zeros up to n characters, within the buffer. */
  function Zeroed(s: seq<char>, n: nat): (r: seq<char>)
    ensures |r| == Max(|s|, Min(n, BUFFER_SIZE))
  {
    s + Rep('0', Min(n, BUFFER_SIZE) - |s|)
  }

  /** A zero-padded number leaves one place of its width to the sign. */
  function ZeroWidth(neg: bool, width: nat, f: Flags): (w: nat)
  {
    if !f.left && width > 0 && f.zeropad && (neg || f.plus || f.space) then width - 1 else width
  }

  function Core(ds: seq<char>, neg: bool, prec: nat, width: nat, f: Flags): (r: seq<char>)
    ensures |r| >= |ds|
  {
    if f.left then ds
    else if f.zeropad then Zeroed(Zeroed(ds, prec), ZeroWidth(neg, width, f))
    else Zeroed(ds, prec)
  }

  /** How many characters the # flag takes back to make room for its mark. */
  function Dropped(len: nat, base: nat, prec: nat, w: nat, f: Flags): (n: nat)
    ensures n <= len
  {
    if !f.precision && len > 0 && (len == prec || len == w) then (if len > 1 && base == 16 then 2 else 1) else 0
  }

  /** The mark of the # flag, last character first. */
  function Mark(base: nat, f: Flags): (m: seq<char>)
  {
    if base == 16 then [if f.upper then 'X' else 'x', '0'] else if base == 2 then ['b', '0'] else ['0']
  }

  function Marked(core: seq<char>, base: nat, prec: nat, w: nat, f: Flags): (r: seq<char>)
    requires |core| <= BUFFER_SIZE
    ensures |r| <= BUFFER_SIZE
  {
    if !f.hash then core
    else
      var cut := core[..|core| - Dropped(|core|, base, prec, w, f)];
      cut + Mark(base, f)[..Min(|Mark(base, f)|, BUFFER_SIZE - |cut|)]
  }

  function Sign(neg: bool, f: Flags): (s: seq<char>)
    ensures |s| <= 1
  {
    if neg then ['-'] else if f.plus then ['+'] else if f.space then [' '] else []
  }

  /** The buffer when it is written out. */
  function FormatRev(ds: seq<char>, neg: bool, base: nat, prec: nat, width: nat, f: Flags): (r: seq<char>)
    requires |ds| <= BUFFER_SIZE
    ensures |r| <= BUFFER_SIZE
  {
    var m := Marked(Core(ds, neg, prec, width, f), base, prec, ZeroWidth(neg, width, f), f);
    if |m| < BUFFER_SIZE then m + Sign(neg, f) else m
  }

  /** What is written for a buffer: spaces up to the width, and the buffer in reverse. */
  function Justified(rev: seq<char>, width: nat, f: Flags): (text: seq<char>)
    ensures |text| == if f.left || !f.zeropad then Max(width, |rev|) else |rev|
  {
    (if !f.left && !f.zeropad then Rep(' ', width - |rev|) else [])
    + Reverse(rev)
    + (if f.left then Rep(' ', width - |rev|) else [])
  }

  /** The digits that are converted; the value 0 with a precision has none, and no # applies to 0. */
  function Converted(value: nat, base: nat, f: Flags): (ds: seq<char>)
    requires 2 <= base <= 16
    ensures |ds| <= BUFFER_SIZE
  {
    if f.precision && value == 0 then [] else RevDigits(value, base, f.upper, BUFFER_SIZE)
  }

  function NumberText(value: nat, neg: bool, base: nat, prec: nat, width: nat, f: Flags): (text: seq<char>)
    requires 2 <= base <= 16
  {
    var g := if value == 0 then f.(hash := false) else f;
    Justified(FormatRev(Converted(value, base, f), neg, base, prec, width, g), ZeroWidth(neg, width, g), g)
  }

  // ---------- reading it back ----------

  function DigitValue(c: char): (d: nat)
  {
    if '0' <= c <= '9' then c as int - '0' as int
    else if 'a' <= c <= 'f' then c as int - 'a' as int + 10
    else if 'A' <= c <= 'F' then c as int - 'A' as int + 10
    else 16
  }

  predicate AllDigits(s: seq<char>, base: nat)
  {
    forall i :: 0 <= i < |s| ==> DigitValue(s[i]) < base
  }

  /** The value of a string of digits. */
  function Horner(s: seq<char>, base: nat): (v: nat)
  {
    if s == [] then 0 else Horner(s[..|s| - 1], base) * base + DigitValue(s[|s| - 1])
  }

  function SkipSpaces(s: seq<char>): (r: seq<char>)
  {
    if s != [] && s[0] == ' ' then SkipSpaces(s[1..]) else s
  }

  function DigitsAhead(s: seq<char>, base: nat): (n: nat)
    ensures n <= |s|
  {
    if s != [] && DigitValue(s[0]) < base then 1 + DigitsAhead(s[1..], base) else 0
  }

  /** A sign and a value. */
  datatype Number = Number(neg: bool, value: nat) | NoNumber

  /** Reads spaces, a sign, digits and spaces. */
  function ReadNumber(text: seq<char>, base: nat): (n: Number)
  {
    var t := SkipSpaces(text);
    var u := if t != [] && (t[0] == '-' || t[0] == '+') then t[1..] else t;
    var k := DigitsAhead(u, base);
    if k > 0 && SkipSpaces(u[k..]) == [] then Number(t[0] == '-', Horner(u[..k], base)) else NoNumber
  }

  lemma {:induction false} SkipRep(n: int, t: seq<char>)
    requires t == [] || t[0] != ' '
    ensures SkipSpaces(Rep(' ', n) + t) == t
  {
    if n > 0 {
      RepAll(' ', n);
      var s := Rep(' ', n) + t;
      assert s[1..] == Rep(' ', n - 1) + t by {
        RepAll(' ', n - 1);
        assert Rep(' ', n)[1..] == Rep(' ', n - 1);
      }
      SkipRep(n - 1, t);
    } else {
      assert Rep(' ', n) + t == t;
    }
  }

  lemma {:induction false} AheadOfSpaces(ds: seq<char>, n: int, base: nat)
    requires AllDigits(ds, base) && base <= 16
    ensures DigitsAhead(ds + Rep(' ', n), base) == |ds|
  {
    var s := ds + Rep(' ', n);
    if ds == [] {
      RepAll(' ', n);
    } else {
      assert s[1..] == ds[1..] + Rep(' ', n);
      AheadOfSpaces(ds[1..], n, base);
    }
  }

  /** Reading digits and spaces, after the sign. */
  lemma ReadTail(ds: seq<char>, b: int, base: nat)
    requires |ds| > 0 && AllDigits(ds, base) && base <= 16
    ensures var u := ds + Rep(' ', b); var k := DigitsAhead(u, base);
      k == |ds| && SkipSpaces(u[k..]) == [] && u[..k] == ds
  {
    var u := ds + Rep(' ', b);
    AheadOfSpaces(ds, b, base);
    assert u[|ds|..] == Rep(' ', b) + [];
    SkipRep(b, []);
  }

  /** Spaces before the sign do not matter, and a space for a sign is one of them. */
  lemma SkipToSign(a: int, sign: seq<char>, tail: seq<char>)
    requires sign in [[], ['-'], ['+'], [' ']] && |tail| > 0 && tail[0] != ' '
    ensures SkipSpaces(Rep(' ', a) + sign + tail) == if sign == [' '] then tail else sign + tail
  {
    if sign == [' '] {
      var n := if a < 0 then 0 else a;
      assert Rep(' ', n + 1) == Rep(' ', a) + [' '];
      SkipRep(n + 1, tail);
    } else {
      assert Rep(' ', a) + sign + tail == Rep(' ', a) + (sign + tail);
      SkipRep(a, sign + tail);
    }
  }

  lemma ReadPadded(a: int, sign: seq<char>, ds: seq<char>, b: int, base: nat)
    requires sign in [[], ['-'], ['+'], [' ']] && |ds| > 0 && AllDigits(ds, base) && base <= 16
    ensures ReadNumber(Rep(' ', a) + sign + ds + Rep(' ', b), base) == Number(sign == ['-'], Horner(ds, base))
  {
    hide SkipSpaces, DigitsAhead, Horner, Rep;
    var text := Rep(' ', a) + sign + ds + Rep(' ', b);
    var tail := ds + Rep(' ', b);
    assert DigitValue(ds[0]) < base;
    assert text == Rep(' ', a) + sign + tail;
    SkipToSign(a, sign, tail);
    ReadTail(ds, b, base);
    var t := SkipSpaces(text);
    var signed := sign == ['-'] || sign == ['+'];
    assert signed ==> t == sign + tail && t[1..] == tail && t[0] == sign[0];
    assert !signed ==> t == tail && t[0] == ds[0];
  }

  // ---------- the digits ----------

  /** The value of digits, least significant first. */
  function RevValue(s: seq<char>, base: nat): (v: nat)
  {
    if s == [] then 0 else RevValue(s[1..], base) * base + DigitValue(s[0])
  }

  lemma {:induction false} HornerReverse(s: seq<char>, base: nat)
    ensures Horner(Reverse(s), base) == RevValue(s, base)
  {
    hide DigitValue;
    if s != [] {
      HornerReverse(s[1..], base);
      var r := Reverse(s);
      assert r[..|r| - 1] == Reverse(s[1..]) && r[|r| - 1] == s[0];
    }
  }

  lemma {:induction false} ReverseDigits(s: seq<char>, base: nat)
    requires AllDigits(s, base)
    ensures AllDigits(Reverse(s), base)
  {
    if s != [] { ReverseDigits(s[1..], base); }
  }

  lemma {:induction false} ReverseConcat(s: seq<char>, t: seq<char>)
    ensures Reverse(s + t) == Reverse(t) + Reverse(s)
  {
    if s == [] {
      assert s + t == t;
    } else {
      assert (s + t)[1..] == s[1..] + t;
      ReverseConcat(s[1..], t);
    }
  }

  lemma DigitRead(d: nat, upper: bool)
    requires d < 16
    ensures DigitValue(DigitChar(d, upper)) == d
  {
  }

  /** The value has at most n digits. */
  predicate Fits(value: nat, base: nat, n: nat)
    requires base > 0
    decreases n
  {
    n > 0 && (Quot(value, base) == 0 || Fits(Quot(value, base), base, n - 1))
  }

  ghost function Eight(n: nat): (r: nat)
  {
    if n == 0 then 1 else 8 * Eight(n - 1)
  }

  lemma DivideMore(value: nat, base: nat, limit: nat)
    requires base >= 8 && value < 8 * limit
    ensures Quot(value, base) < limit
  {
    var q := Quot(value, base);
    assert value == q * base + Rem(value, base);
    Scale(8, base, q);
  }

  lemma {:induction false} EightFits(value: nat, base: nat, n: nat)
    requires base >= 8 && n > 0 && value < Eight(n)
    ensures Fits(value, base, n)
  {
    DivideMore(value, base, Eight(n - 1));
    if n > 1 { EightFits(Quot(value, base), base, n - 1); }
  }

  /** A 64-bit value has at most 22 digits in bases 8, 10 and 16. */
  lemma WordFits(value: nat, base: nat)
    requires base >= 8 && value < WORD_LIMIT
    ensures Fits(value, base, 22)
  {
    assert Eight(5) == 0x8000 && Eight(10) == 0x8000 * Eight(5) && Eight(15) == 0x8000 * Eight(10);
    assert Eight(20) == 0x8000 * Eight(15) && Eight(22) == 64 * Eight(20);
    EightFits(value, base, 22);
  }

  lemma {:induction false} FewDigits(value: nat, base: nat, upper: bool, room: nat, n: nat)
    requires 2 <= base <= 16 && n <= room && Fits(value, base, n)
    ensures |RevDigits(value, base, upper, room)| <= n
    decreases n
  {
    hide Quot, Rem;
    if Quot(value, base) != 0 { FewDigits(Quot(value, base), base, upper, room - 1, n - 1); }
  }

  lemma ConsValue(c: char, rest: seq<char>, base: nat)
    ensures RevValue([c] + rest, base) == RevValue(rest, base) * base + DigitValue(c)
    ensures DigitValue(c) < base && AllDigits(rest, base) ==> AllDigits([c] + rest, base)
  {
    assert ([c] + rest)[1..] == rest;
  }

  /** Without truncation the digits denote the value. */
  lemma {:induction false} RevDigitsValue(value: nat, base: nat, upper: bool, room: nat, n: nat)
    requires 2 <= base <= 16 && Fits(value, base, n) && n <= room
    ensures AllDigits(RevDigits(value, base, upper, room), base)
    ensures RevValue(RevDigits(value, base, upper, room), base) == value
  {
    hide DigitValue, DigitChar, RevValue, AllDigits, Quot, Rem;
    var q, d := Quot(value, base), Rem(value, base);
    DigitRead(d, upper);
    if q == 0 {
      NothingRead(base);
      ConsValue(DigitChar(d, upper), [], base);
    } else {
      RevDigitsValue(q, base, upper, room - 1, n - 1);
      ConsValue(DigitChar(d, upper), RevDigits(q, base, upper, room - 1), base);
    }
  }

  lemma NothingRead(base: nat)
    ensures RevValue([], base) == 0 && AllDigits([], base)
  {
  }

  // ---------- round trip and length ----------

  lemma {:induction false} ZerosRead(ds: seq<char>, n: int, base: nat)
    requires AllDigits(ds, base) && base > 0
    ensures AllDigits(ds + Rep('0', n), base) && RevValue(ds + Rep('0', n), base) == RevValue(ds, base)
    decreases |ds|, n
  {
    RepAll('0', n);
    if ds != [] {
      ZerosRead(ds[1..], n, base);
      assert (ds + Rep('0', n))[1..] == ds[1..] + Rep('0', n);
    } else if n > 0 {
      assert Rep('0', n)[1..] == Rep('0', n - 1) by { RepAll('0', n - 1); }
      ZerosRead(ds, n - 1, base);
      assert ds + Rep('0', n) == Rep('0', n) && ds + Rep('0', n - 1) == Rep('0', n - 1);
    } else {
      assert ds + Rep('0', n) == ds;
    }
  }

  /** Padding with zeros keeps the value and leaves room for the sign. */
  lemma CoreReads(ds: seq<char>, neg: bool, prec: nat, width: nat, f: Flags, base: nat)
    requires |ds| <= 22 && prec < BUFFER_SIZE && width <= BUFFER_SIZE && base > 0
    ensures var c := Core(ds, neg, prec, width, f);
      && |c| + |Sign(neg, f)| <= BUFFER_SIZE
      && (AllDigits(ds, base) ==> AllDigits(c, base) && RevValue(c, base) == RevValue(ds, base))
  {
    if AllDigits(ds, base) && !f.left {
      ZerosRead(ds, Min(prec, BUFFER_SIZE) - |ds|, base);
      var z := Zeroed(ds, prec);
      ZerosRead(z, Min(ZeroWidth(neg, width, f), BUFFER_SIZE) - |z|, base);
    }
  }

  lemma JustifiedShape(c: seq<char>, sign: seq<char>, width: nat, f: Flags)
    requires |sign| <= 1
    ensures var pad := width - |c| - |sign|;
      Justified(c + sign, width, f) ==
      Rep(' ', if !f.left && !f.zeropad then pad else 0) + sign + Reverse(c) + Rep(' ', if f.left then pad else 0)
  {
    hide Rep, Reverse;
    ReverseConcat(c, sign);
    ReverseShort(sign);
    NoRep(' ');
  }

  lemma ReverseShort(s: seq<char>)
    requires |s| <= 1
    ensures Reverse(s) == s
  {
  }

  lemma NoRep(c: char)
    ensures Rep(c, 0) == []
  {
  }

  /** Without # the text is spaces, the sign, zeros and digits, and spaces. */
  lemma TextShape(value: nat, neg: bool, base: nat, prec: nat, width: nat, f: Flags)
    requires 8 <= base <= 16 && value < WORD_LIMIT && (!f.hash || value == 0)
    requires prec < BUFFER_SIZE && width <= BUFFER_SIZE
    ensures |Converted(value, base, f)| <= 22
    ensures var c := Core(Converted(value, base, f), neg, prec, width, f);
      var pad := ZeroWidth(neg, width, f) - |c| - |Sign(neg, f)|;
      NumberText(value, neg, base, prec, width, f) ==
      Rep(' ', if !f.left && !f.zeropad then pad else 0) + Sign(neg, f) + Reverse(c) +
      Rep(' ', if f.left then pad else 0)
  {
    hide Rep, Justified, AllDigits, RevValue, Reverse, Core, FormatRev, Converted;
    var ds := Converted(value, base, f);
    ConvertedShort(value, base, f);
    CoreReads(ds, neg, prec, width, f, base);
    var c := Core(ds, neg, prec, width, f);
    var g := f.(hash := false);
    HashFree(ds, neg, prec, width, f);
    NoHash(ds, neg, base, prec, width, g);
    JustifiedShape(c, Sign(neg, f), ZeroWidth(neg, width, f), g);
  }

  lemma ConvertedShort(value: nat, base: nat, f: Flags)
    requires 8 <= base <= 16 && value < WORD_LIMIT
    ensures |Converted(value, base, f)| <= 22
  {
    WordFits(value, base);
    FewDigits(value, base, f.upper, BUFFER_SIZE, 22);
  }

  lemma HashFree(ds: seq<char>, neg: bool, prec: nat, width: nat, f: Flags)
    ensures Core(ds, neg, prec, width, f.(hash := false)) == Core(ds, neg, prec, width, f)
    ensures Sign(neg, f.(hash := false)) == Sign(neg, f)
    ensures ZeroWidth(neg, width, f.(hash := false)) == ZeroWidth(neg, width, f)
  {
  }

  lemma NoHash(ds: seq<char>, neg: bool, base: nat, prec: nat, width: nat, f: Flags)
    requires !f.hash && |ds| <= BUFFER_SIZE
    requires |Core(ds, neg, prec, width, f)| + |Sign(neg, f)| <= BUFFER_SIZE
    ensures FormatRev(ds, neg, base, prec, width, f) == Core(ds, neg, prec, width, f) + Sign(neg, f)
  {
    hide Core, Rep;
  }

  /**
   * Round trip: without #, in bases 8, 10 and 16, the text of every 64-bit value reads back as the
   * same sign and value. Zero with an explicit precision has no digits at all.
   */
  lemma RoundTrip(value: nat, neg: bool, base: nat, prec: nat, width: nat, f: Flags)
    requires 8 <= base <= 16 && value < WORD_LIMIT && (!f.hash || value == 0)
    requires prec < BUFFER_SIZE && width <= BUFFER_SIZE && !(value == 0 && f.precision)
    ensures ReadNumber(NumberText(value, neg, base, prec, width, f), base) == Number(neg, value)
  {
    hide Rep, RevDigits, Core, NumberText, ReadNumber, Reverse, Fits, RevValue, AllDigits;
    TextShape(value, neg, base, prec, width, f);
    var ds := Converted(value, base, f);
    var c := Core(ds, neg, prec, width, f);
    WordFits(value, base);
    RevDigitsValue(value, base, f.upper, BUFFER_SIZE, 22);
    CoreReads(ds, neg, prec, width, f, base);
    HornerReverse(c, base);
    ReverseDigits(c, base);
    var pad := ZeroWidth(neg, width, f) - |c| - |Sign(neg, f)|;
    ReadPadded(if !f.left && !f.zeropad then pad else 0, Sign(neg, f), Reverse(c), if f.left then pad else 0, base);
  }

  /** The length of the text is the larger of the width and its length without a width. */
  lemma TextLength(value: nat, neg: bool, base: nat, prec: nat, width: nat, f: Flags)
    requires 8 <= base <= 16 && value < WORD_LIMIT && (!f.hash || value == 0)
    requires prec < BUFFER_SIZE && width <= BUFFER_SIZE
    ensures |NumberText(value, neg, base, prec, width, f)| ==
            Max(width, |NumberText(value, neg, base, prec, 0, f)|)
  {
    hide Rep, RevDigits, NumberText;
    TextShape(value, neg, base, prec, width, f);
    TextShape(value, neg, base, prec, 0, f);
  }

  // ---------- the # flag ----------

  /** When the mark of # takes the place of a digit, for a number of n digits. */
  predicate MarkClash(n: nat, neg: bool, base: nat, width: nat, f: Flags)
  {
    var w := ZeroWidth(neg, width, f);
    if f.zeropad && !f.left then n <= w <= BUFFER_SIZE && w - n < (if base == 16 && w > 1 then 2 else 1)
    else n == w
  }

  /** With # and no precision, all digits are written exactly when the mark takes none of their places. */
  lemma HashKeepsDigits(ds: seq<char>, neg: bool, base: nat, width: nat, f: Flags)
    requires base == 8 || base == 16
    requires 0 < |ds| <= 22 && AllDigits(ds, base) && ds[|ds| - 1] != '0' && f.hash && !f.precision
    ensures (|ds| <= |FormatRev(ds, neg, base, 0, width, f)| && FormatRev(ds, neg, base, 0, width, f)[..|ds|] == ds)
       <==> !MarkClash(|ds|, neg, base, width, f)
  {
    hide DigitValue, Core, FormatRev, MarkClash;
    var core := Core(ds, neg, 0, width, f);
    var w := ZeroWidth(neg, width, f);
    var cut := |core| - Dropped(|core|, base, 0, w, f);
    var rev := FormatRev(ds, neg, base, 0, width, f);
    CoreStarts(ds, neg, width, f);
    RevStarts(ds, neg, base, width, f, core, cut);
    CutIff(|ds|, |core|, neg, base, width, f);
    NoDigits();
    if cut >= |ds| {
      assert rev[..|ds|] == rev[..cut][..|ds|];
      assert core[..|ds|] == core[..cut][..|ds|];
    } else {
      assert DigitValue(ds[cut]) < base;
      assert cut < |rev| && rev[cut] != ds[cut];
    }
  }

  /** The cut stays clear of the digits exactly when there is no clash. */
  lemma CutIff(n: nat, len: nat, neg: bool, base: nat, width: nat, f: Flags)
    requires (base == 8 || base == 16) && 0 < n <= 22 && !f.precision
    requires len == if f.zeropad && !f.left then Max(n, Min(ZeroWidth(neg, width, f), BUFFER_SIZE)) else n
    ensures len - Dropped(len, base, 0, ZeroWidth(neg, width, f), f) >= n <==> !MarkClash(n, neg, base, width, f)
  {
    hide ZeroWidth;
  }

  lemma NoDigits()
    ensures DigitValue('x') == DigitValue('X') == 16
  {
  }

  lemma CoreStarts(ds: seq<char>, neg: bool, width: nat, f: Flags)
    requires 0 < |ds| <= 22
    ensures var core := Core(ds, neg, 0, width, f); |core| <= BUFFER_SIZE && core[..|ds|] == ds
    ensures var core := Core(ds, neg, 0, width, f); var w := ZeroWidth(neg, width, f);
      |core| == if f.zeropad && !f.left then Max(|ds|, Min(w, BUFFER_SIZE)) else |ds|
  {
  }

  lemma RevStarts(ds: seq<char>, neg: bool, base: nat, width: nat, f: Flags, core: seq<char>, cut: nat)
    requires f.hash && |ds| <= 22 && core == Core(ds, neg, 0, width, f) && |core| <= BUFFER_SIZE
    requires cut == |core| - Dropped(|core|, base, 0, ZeroWidth(neg, width, f), f)
    ensures var rev := FormatRev(ds, neg, base, 0, width, f);
      cut <= |rev| && rev[..cut] == core[..cut] && (cut < BUFFER_SIZE ==> cut < |rev| && rev[cut] == Mark(base, f)[0])
  {
    hide Core, Dropped;
  }

  /** `%#2x` of 0x12 writes only the mark. */
  lemma HashLosesDigits()
    ensures var f := Flags(false, false, false, false, true, false, false, false, false, false, false);
      NumberText(0x12, false, 16, 0, 2, f) == "0x"
  {
    var f := Flags(false, false, false, false, true, false, false, false, false, false, false);
    var ds := RevDigits(0x12, 16, false, 32);
    assert ds == ['2', '1'] by { assert RevDigits(1, 16, false, 31) == ['1']; }
    assert Core(ds, false, 0, 2, f) == ds;
    assert ds[..0] + ['x', '0'][..2] == ['x', '0'];
    assert FormatRev(ds, false, 16, 0, 2, f) == ['x', '0'];
    assert Reverse(['x', '0']) == ['0', 'x'] by { assert ['x', '0'][1..] == ['0'] && Reverse(['0']) == ['0']; }
  }

  /** A number has as many digits as its precision asks for exactly if `-` is absent or it has them anyway. */
  lemma PrecisionMetIff(ds: seq<char>, neg: bool, prec: nat, width: nat, f: Flags)
    requires |ds| <= BUFFER_SIZE && prec <= BUFFER_SIZE
    ensures |Core(ds, neg, prec, width, f)| >= prec <==> !f.left || |ds| >= prec
  {
  }

  /** `%-.3d` of 5 writes `5`. */
  lemma MinusIgnoresPrecision()
    ensures var f := Flags(false, true, false, false, false, false, false, false, false, false, true);
      NumberText(5, false, 10, 3, 0, f) == "5"
  {
    var f := Flags(false, true, false, false, false, false, false, false, false, false, true);
    assert RevDigits(5, 10, false, BUFFER_SIZE) == ['5'];
    assert FormatRev(['5'], false, 10, 3, 0, f) == ['5'];
    assert Reverse(['5']) == ['5'] by { assert ['5'][1..] == []; }
  }

  // ---------- the text, whatever the sizes ----------

  /** How many zeros stand before the digits. */
  function ZeroCount(n: nat, neg: bool, prec: nat, width: nat, f: Flags): (z: nat)
  {
    if f.left then 0
    else Max(Max(n, Min(prec, BUFFER_SIZE)), if f.zeropad then Min(ZeroWidth(neg, width, f), BUFFER_SIZE) else 0) - n
  }

  lemma {:induction false} ReverseRep(c: char, n: int)
    ensures Reverse(Rep(c, n)) == Rep(c, n)
  {
    if n > 0 {
      ReverseRep(c, n - 1);
      ReverseConcat(Rep(c, n - 1), [c]);
      assert Reverse([c]) == [c] by { assert [c][1..] == []; }
      RepAll(c, n);
      RepAll(c, n - 1);
      assert [c] + Rep(c, n - 1) == Rep(c, n - 1) + [c];
    }
  }

  lemma RepTwice(c: char, m: int, n: int)
    requires 0 <= m && 0 <= n
    ensures Rep(c, m) + Rep(c, n) == Rep(c, m + n)
  {
    RepAll(c, m);
    RepAll(c, n);
    RepAll(c, m + n);
  }

  lemma CoreParts(ds: seq<char>, neg: bool, prec: nat, width: nat, f: Flags)
    requires |ds| <= BUFFER_SIZE
    ensures Core(ds, neg, prec, width, f) == ds + Rep('0', ZeroCount(|ds|, neg, prec, width, f))
    ensures |Core(ds, neg, prec, width, f)| <= BUFFER_SIZE
  {
    hide Rep;
    NoRep('0');
    var first: nat := Max(Min(prec, BUFFER_SIZE) - |ds|, 0);
    NegRep('0', Min(prec, BUFFER_SIZE) - |ds|);
    if !f.left && f.zeropad {
      var more := Min(ZeroWidth(neg, width, f), BUFFER_SIZE) - (|ds| + first);
      NegRep('0', more);
      RepTwice('0', first, Max(more, 0));
      assert ds + Rep('0', first) + Rep('0', Max(more, 0)) == ds + (Rep('0', first) + Rep('0', Max(more, 0)));
    }
  }

  lemma NegRep(c: char, n: int)
    ensures Rep(c, n) == Rep(c, Max(n, 0))
  {
  }

  /** Spaces, the sign if there is room for it, zeros, digits, and spaces. */
  function Parts(ds: seq<char>, neg: bool, prec: nat, width: nat, f: Flags): (text: seq<char>)
  {
    var z := ZeroCount(|ds|, neg, prec, width, f);
    var sign := if |ds| + z < BUFFER_SIZE then Sign(neg, f) else [];
    var pad := ZeroWidth(neg, width, f) - z - |ds| - |sign|;
    Rep(' ', if !f.left && !f.zeropad then pad else 0) + sign + (Rep('0', z) + Reverse(ds)) +
    Rep(' ', if f.left then pad else 0)
  }

  /** The text of a number without #. */
  lemma TextParts(value: nat, neg: bool, base: nat, prec: nat, width: nat, f: Flags)
    requires 2 <= base <= 16 && (!f.hash || value == 0)
    ensures NumberText(value, neg, base, prec, width, f) == Parts(Converted(value, base, f), neg, prec, width, f)
  {
    hide Converted, FormatRev, Justified, Parts;
    var ds := Converted(value, base, f);
    PlainParts(ds, neg, base, prec, width, f.(hash := false));
    PartsSame(ds, neg, prec, width, f);
  }

  lemma PartsSame(ds: seq<char>, neg: bool, prec: nat, width: nat, f: Flags)
    ensures Parts(ds, neg, prec, width, f.(hash := false)) == Parts(ds, neg, prec, width, f)
  {
    hide Rep, Reverse;
    assert ZeroCount(|ds|, neg, prec, width, f.(hash := false)) == ZeroCount(|ds|, neg, prec, width, f);
    assert ZeroWidth(neg, width, f.(hash := false)) == ZeroWidth(neg, width, f);
    assert Sign(neg, f.(hash := false)) == Sign(neg, f);
  }

  lemma PlainParts(ds: seq<char>, neg: bool, base: nat, prec: nat, width: nat, g: Flags)
    requires |ds| <= BUFFER_SIZE && !g.hash
    ensures Justified(FormatRev(ds, neg, base, prec, width, g), ZeroWidth(neg, width, g), g) ==
            Parts(ds, neg, prec, width, g)
  {
    hide Rep, Justified, Reverse, Core, ZeroCount, ZeroWidth, Sign;
    var z := ZeroCount(|ds|, neg, prec, width, g);
    var c := Core(ds, neg, prec, width, g);
    CoreParts(ds, neg, prec, width, g);
    var sign := if |c| < BUFFER_SIZE then Sign(neg, g) else [];
    assert FormatRev(ds, neg, base, prec, width, g) == c + sign;
    JustifiedShape(c, sign, ZeroWidth(neg, width, g), g);
    ReverseConcat(ds, Rep('0', z));
    ReverseRep('0', z);
  }

  /** A character that writes a digit of the base, in the right case. */
  predicate DigitOf(c: char, base: nat, upper: bool)
  {
    || ('0' <= c <= '9' && c as int - 48 < base)
    || (!upper && 'a' <= c <= 'f' && c as int - 87 < base)
    || (upper && 'A' <= c <= 'F' && c as int - 55 < base)
  }

  /** The digits of a number: no zero in front, none missing. */
  predicate Numeral(s: seq<char>, n: nat, base: nat, upper: bool)
  {
    && |s| > 0 && (forall i :: 0 <= i < |s| ==> DigitOf(s[i], base, upper)) && Horner(s, base) == n
    && (n > 0 ==> s[0] != '0') && (n == 0 ==> s == "0")
  }

  lemma {:induction false} DigitsOf(value: nat, base: nat, upper: bool, room: nat, n: nat)
    requires 2 <= base <= 16 && Fits(value, base, n) && n <= room
    ensures var ds := RevDigits(value, base, upper, room);
      && |ds| > 0 && (forall i :: 0 <= i < |ds| ==> DigitOf(ds[i], base, upper))
      && (value > 0 ==> ds[|ds| - 1] != '0') && (value == 0 ==> ds == ['0'])
  {
    hide Quot, Rem;
    var q, d := Quot(value, base), Rem(value, base);
    assert DigitOf(DigitChar(d, upper), base, upper);
    if q != 0 {
      DigitsOf(q, base, upper, room - 1, n - 1);
      QuotPositive(value, base);
      assert RevDigits(value, base, upper, room) == [DigitChar(d, upper)] + RevDigits(q, base, upper, room - 1);
    } else {
      assert value == d;
    }
  }

  lemma QuotPositive(value: nat, base: nat)
    requires base > 0 && Quot(value, base) > 0
    ensures value > 0
  {
  }

  lemma {:induction false} ReversedAt(s: seq<char>, i: nat)
    requires i < |s|
    ensures Reverse(s)[i] == s[|s| - 1 - i]
  {
    if i < |s| - 1 { ReversedAt(s[1..], i); }
  }

  /** Read from the front, the digits of a number that fits are its numeral. */
  lemma NumeralOf(value: nat, base: nat, upper: bool, n: nat)
    requires 2 <= base <= 16 && Fits(value, base, n) && n <= BUFFER_SIZE
    ensures Numeral(Reverse(RevDigits(value, base, upper, BUFFER_SIZE)), value, base, upper)
  {
    hide RevDigits, Fits, RevValue, Horner;
    var ds := RevDigits(value, base, upper, BUFFER_SIZE);
    DigitsOf(value, base, upper, BUFFER_SIZE, n);
    RevDigitsValue(value, base, upper, BUFFER_SIZE, n);
    HornerReverse(ds, base);
    forall i | 0 <= i < |ds| ensures DigitOf(Reverse(ds)[i], base, upper) { ReversedAt(ds, i); }
    ReversedAt(ds, 0);
    if value == 0 { assert Reverse(['0']) == ['0'] by { assert ['0'][1..] == []; } }
  }

  /** Numbers below 2^n have at most n binary digits. */
  lemma {:induction false} BinaryFits(value: nat, n: nat)
    requires n > 0 && value < Exp2(n)
    ensures Fits(value, 2, n)
  {
    assert Quot(value, 2) < Exp2(n - 1);
    if n > 1 { BinaryFits(value / 2, n - 1); }
  }

  /** With room for n binary digits, the low n bits are written. */
  lemma {:induction false} LowBits(value: nat, upper: bool, n: nat)
    requires n > 0
    ensures RevValue(RevDigits(value, 2, upper, n), 2) == value % Exp2(n)
  {
    hide RevValue, Quot, Rem, DigitChar, RevDigits;
    var q, d := Quot(value, 2), Rem(value, 2);
    NothingRead(2);
    LowBit(value, n);
    DigitRead(d, upper);
    BitsCons(value, upper, n);
    if q == 0 || n == 1 {
      ConsValue(DigitChar(d, upper), [], 2);
    } else {
      LowBits(q, upper, n - 1);
      ConsValue(DigitChar(d, upper), RevDigits(q, 2, upper, n - 1), 2);
    }
  }

  lemma BitsCons(value: nat, upper: bool, n: nat)
    requires n > 0
    ensures RevDigits(value, 2, upper, n) == [DigitChar(Rem(value, 2), upper)] +
      if Quot(value, 2) == 0 || n == 1 then [] else RevDigits(Quot(value, 2), 2, upper, n - 1)
  {
  }

  lemma {:induction false} BinaryDigits(value: nat, upper: bool, n: nat, i: nat)
    requires i < |RevDigits(value, 2, upper, n)|
    ensures RevDigits(value, 2, upper, n)[i] in ['0', '1']
  {
    hide Quot, Rem;
    BitsCons(value, upper, n);
    if i > 0 { BinaryDigits(Quot(value, 2), upper, n - 1, i - 1); }
  }

  lemma LowBit(value: nat, n: nat)
    requires n > 0
    ensures value % Exp2(n) == Quot(value, 2) % Exp2(n - 1) * 2 + Rem(value, 2)
    ensures Quot(value, 2) == 0 ==> value < Exp2(n)
    ensures Exp2(1) == 2
  {
    var m := Exp2(n - 1);
    var q := value / 2;
    assert Exp2(n) == 2 * m;
    assert q == q / m * m + q % m;
    assert q / m * m * 2 == q / m * (2 * m);
    DivUnique(value, 2 * m, q / m, q % m * 2 + value % 2);
  }
}
