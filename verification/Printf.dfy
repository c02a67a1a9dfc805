/**
 * The formatter (src/lib/printf.c) as the kernel builds it, without floating point and long long:
 * what a format means, and the loops that write it into a bounded buffer.
 */
module Printf {
  import opened Bytes
  import opened Numbers

  const NUL: char := 0 as char
  const NO_FLAGS := Flags(false, false, false, false, false, false, false, false, false, false, false)

  /** An argument: the 64 bits of a number, or a string up to its terminator. */
  datatype Arg = Num(bits: nat) | Str(chars: seq<char>)

  /** What the k-th argument gives when a number or a string is taken; a missing one gives 0 or nothing. */
  function ArgNum(args: seq<Arg>, k: nat): (n: nat)
  {
    if k < |args| && args[k].Num? then args[k].bits else 0
  }

  function ArgStr(args: seq<Arg>, k: nat): (s: seq<char>)
  {
    if k < |args| && args[k].Str? then args[k].chars else []
  }

  /** String lengths are counted in 32 bits. */
  predicate ShortStrings(args: seq<Arg>)
  {
    forall k :: 0 <= k < |args| ==> |ArgStr(args, k)| < UINT_LIMIT
  }

  /** The low bits of an argument as a signed number. */
  function Signed(bits: nat, modulus: nat): (v: int)
    requires modulus > 0
  {
    var r := bits % modulus;
    if r >= modulus / 2 then r - modulus else r
  }

  function At(fmt: seq<char>, i: nat): (c: char)
  {
    if i < |fmt| then fmt[i] else NUL
  }

  // ---------- what a format means ----------

  predicate IsDigit(c: char)
  {
    '0' <= c <= '9'
  }

  function DigitsEnd(s: seq<char>, i: nat): (e: nat)
    requires i <= |s|
    ensures i <= e <= |s| && (forall j :: i <= j < e ==> IsDigit(s[j])) && !IsDigit(At(s, e))
    decreases |s| - i
  {
    if i < |s| && IsDigit(s[i]) then DigitsEnd(s, i + 1) else i
  }

  predicate IsFlag(c: char)
  {
    c == '0' || c == '-' || c == '+' || c == ' ' || c == '#'
  }

  function WithFlag(f: Flags, c: char): (g: Flags)
  {
    match c
    case '0' => f.(zeropad := true)
    case '-' => f.(left := true)
    case '+' => f.(plus := true)
    case ' ' => f.(space := true)
    case '#' => f.(hash := true)
    case _ => f
  }

  /** A directive as far as it has been read: i is the place in the format, k the next argument. */
  datatype Directive = Directive(f: Flags, width: nat, prec: nat, i: nat, k: nat)

  function ScanFlags(fmt: seq<char>, d: Directive): (e: Directive)
    requires d.i <= |fmt|
    ensures d.i <= e.i <= |fmt| && e.prec == d.prec
    decreases |fmt| - d.i
  {
    if IsFlag(At(fmt, d.i)) then ScanFlags(fmt, d.(f := WithFlag(d.f, fmt[d.i]), i := d.i + 1)) else d
  }

  function ScanWidth(fmt: seq<char>, args: seq<Arg>, d: Directive): (e: Directive)
    requires d.i <= |fmt|
    ensures d.i <= e.i <= |fmt| && e.prec == d.prec
  {
    if IsDigit(At(fmt, d.i)) then
      var end := DigitsEnd(fmt, d.i);
      d.(width := Horner(fmt[d.i..end], 10) % UINT_LIMIT, i := end)
    else if At(fmt, d.i) == '*' then
      var w := Signed(ArgNum(args, d.k), UINT_LIMIT);
      var e := d.(i := d.i + 1, k := d.k + 1);
      if w < 0 then e.(f := d.f.(left := true), width := -w) else e.(width := w)
    else d
  }

  function ScanPrecision(fmt: seq<char>, args: seq<Arg>, d: Directive): (e: Directive)
    requires d.i <= |fmt|
    ensures d.i <= e.i <= |fmt| && (d.prec == 0 ==> e.f.precision || e.prec == 0)
  {
    if At(fmt, d.i) != '.' then d
    else
      var e := d.(f := d.f.(precision := true), i := d.i + 1);
      if IsDigit(At(fmt, e.i)) then
        var end := DigitsEnd(fmt, e.i);
        e.(prec := Horner(fmt[e.i..end], 10) % UINT_LIMIT, i := end)
      else if At(fmt, e.i) == '*' then
        e.(prec := Max(Signed(ArgNum(args, e.k), UINT_LIMIT), 0), i := e.i + 1, k := e.k + 1)
      else e
  }

  function ScanLength(fmt: seq<char>, d: Directive): (e: Directive)
    requires d.i <= |fmt|
    ensures d.i <= e.i <= |fmt| && e.prec == d.prec && e.f.precision == d.f.precision
  {
    var c := At(fmt, d.i);
    if c == 'l' then
      if At(fmt, d.i + 1) == 'l' then d.(f := d.f.(long := true, longLong := true), i := d.i + 2)
      else d.(f := d.f.(long := true), i := d.i + 1)
    else if c == 'h' then
      if At(fmt, d.i + 1) == 'h' then d.(f := d.f.(short := true, chr := true), i := d.i + 2)
      else d.(f := d.f.(short := true), i := d.i + 1)
    else if c == 't' || c == 'j' || c == 'z' then d.(f := d.f.(long := true), i := d.i + 1)
    else d
  }

  /** The directive after a % sign, up to its conversion character. */
  function Scan(fmt: seq<char>, args: seq<Arg>, i: nat, k: nat): (d: Directive)
    requires i <= |fmt|
    ensures i <= d.i <= |fmt|
  {
    var d := ScanFlags(fmt, Directive(NO_FLAGS, 0, 0, i, k));
    ScanLength(fmt, ScanPrecision(fmt, args, ScanWidth(fmt, args, d)))
  }

  /** A precision comes with its flag. */
  lemma PrecisionFlagged(fmt: seq<char>, args: seq<Arg>, i: nat, k: nat)
    requires i <= |fmt|
    ensures Scan(fmt, args, i, k).f.precision || Scan(fmt, args, i, k).prec == 0
  {
    hide ScanFlags, ScanWidth, ScanPrecision, ScanLength;
  }

  predicate IsInteger(c: char)
  {
    c == 'd' || c == 'i' || c == 'u' || c == 'x' || c == 'X' || c == 'o' || c == 'b'
  }

  function BaseOf(c: char): (base: nat)
    ensures 2 <= base <= 16
  {
    if c == 'x' || c == 'X' then 16 else if c == 'o' then 8 else if c == 'b' then 2 else 10
  }

  /** The flags that matter for an integer conversion: no # in decimal, no sign flags for unsigned. */
  function IntFlags(c: char, f: Flags): (g: Flags)
  {
    DropZero(DropSign(c, Upper(c, DropHash(c, f))))
  }

  function DropHash(c: char, f: Flags): (g: Flags)
  {
    if BaseOf(c) == 10 then f.(hash := false) else f
  }

  function Upper(c: char, f: Flags): (g: Flags)
  {
    if c == 'X' then f.(upper := true) else f
  }

  function DropSign(c: char, f: Flags): (g: Flags)
  {
    if c != 'i' && c != 'd' then f.(plus := false, space := false) else f
  }

  /** A precision overrides zero padding. */
  function DropZero(f: Flags): (g: Flags)
  {
    if f.precision then f.(zeropad := false) else f
  }

  /** How many values the length modifier leaves to an argument. */
  function Modulus(f: Flags): (m: nat)
    ensures 0 < m <= WORD_LIMIT
  {
    if f.long then WORD_LIMIT else if f.chr then 256 else if f.short then 0x1_0000 else UINT_LIMIT
  }

  /** The value of an integer conversion: negative only for d and i. */
  function IntValue(c: char, f: Flags, bits: nat): (v: int)
    ensures v < WORD_LIMIT && -v < WORD_LIMIT
  {
    if c == 'd' || c == 'i' then Signed(bits, Modulus(f)) else bits % Modulus(f)
  }

  /** The text of an integer conversion; the long long ones are not built in and write nothing. */
  function IntText(c: char, d: Directive, args: seq<Arg>): (text: seq<char>)
  {
    if d.f.longLong then []
    else
      var v := IntValue(c, d.f, ArgNum(args, d.k));
      NumberText(if v < 0 then -v else v, v < 0, BaseOf(c), d.prec, d.width, IntFlags(c, d.f))
  }

  function Field(body: seq<char>, d: Directive): (text: seq<char>)
    ensures |text| == Max(|body|, d.width)
  {
    if d.f.left then body + Rep(' ', d.width - |body|) else Rep(' ', d.width - |body|) + body
  }

  /** The part of a string that its precision admits. */
  function Clipped(s: seq<char>, d: Directive): (t: seq<char>)
  {
    if d.f.precision then s[..Min(|s|, d.prec)] else s
  }

  /** What a directive with conversion character c writes. */
  function Conversion(c: char, d: Directive, args: seq<Arg>): (text: seq<char>)
  {
    if IsInteger(c) then IntText(c, d, args)
    else if c == 'c' then Field([(ArgNum(args, d.k) % 256) as char], d)
    else if c == 's' then Field(Clipped(ArgStr(args, d.k), d), d)
    else if c == 'p' then
      NumberText(ArgNum(args, d.k) % WORD_LIMIT, false, 16, d.prec, 16, d.f.(zeropad := true, upper := true))
    else [c]
  }

  function Used(c: char, d: Directive): (n: nat)
  {
    if (IsInteger(c) && !d.f.longLong) || c == 'c' || c == 's' || c == 'p' then 1 else 0
  }

  /** Every directive has its conversion character. */
  predicate Complete(fmt: seq<char>, args: seq<Arg>, i: nat, k: nat)
    requires i <= |fmt|
    decreases |fmt| - i
  {
    if i == |fmt| then true
    else if fmt[i] != '%' then Complete(fmt, args, i + 1, k)
    else
      var d := Scan(fmt, args, i + 1, k);
      d.i < |fmt| && Complete(fmt, args, d.i + 1, d.k + Used(fmt[d.i], d))
  }

  /** The whole output, without any bound on its length. */
  function Formatted(fmt: seq<char>, args: seq<Arg>, i: nat, k: nat): (text: seq<char>)
    requires i <= |fmt| && Complete(fmt, args, i, k)
    decreases |fmt| - i
  {
    if i == |fmt| then []
    else if fmt[i] != '%' then [fmt[i]] + Formatted(fmt, args, i + 1, k)
    else
      var d := Scan(fmt, args, i + 1, k);
      Conversion(fmt[d.i], d, args) + Formatted(fmt, args, d.i + 1, d.k + Used(fmt[d.i], d))
  }

  // ---------- writing ----------

  /** A buffer that held `was` after `text` has been written with bound maxlen. */
  ghost function Shown(was: seq<char>, text: seq<char>, maxlen: nat): (b: seq<char>)
    requires maxlen <= |was|
    ensures |b| == |was|
  {
    var m := Min(|text|, maxlen);
    text[..m] + was[m..]
  }

  /** The buffer sink: characters are numbered without gaps, and those below maxlen are stored. */
  class Output {
    const buffer: array<char>
    const maxlen: nat
    var idx: nat
    ghost var text: seq<char>
    ghost const was: seq<char>

    ghost predicate Valid()
      reads this, buffer
    {
      maxlen <= buffer.Length && |was| == buffer.Length && idx == |text| && buffer[..] == Shown(was, text, maxlen)
    }

    constructor (b: array<char>, n: nat)
      requires n <= b.Length
      ensures Valid() && buffer == b && maxlen == n && text == [] && was == b[..]
    {
      buffer, maxlen, idx, text, was := b, n, 0, [], b[..];
    }

    /** `_out_buffer` at the next index. */
    method Put(c: char)
      requires Valid()
      modifies this`idx, this`text, buffer
      ensures Valid() && text == old(text) + [c]
    {
      if idx < maxlen { buffer[idx] := c; }
      idx := idx + 1;
      text := text + [c];
    }

    /** A padding loop. */
    method PutSpaces(from: nat, width: nat)
      requires Valid()
      modifies this`idx, this`text, buffer
      ensures Valid() && text == old(text) + Rep(' ', width - from)
    {
      var l := from;
      while l < width
        invariant Valid() && from <= l && (l <= width || l == from)
        invariant text == old(text) + Rep(' ', l - from)
      {
        Put(' ');
        l := l + 1;
      }
      assert l - from == if width < from then 0 else width - from;
    }
  }

  /** `_out_rev`. */
  method OutRev(out: Output, buf: array<char>, length: nat, width: nat, f: Flags)
    requires out.Valid() && buf != out.buffer && length <= buf.Length
    modifies out`idx, out`text, out.buffer
    ensures out.Valid() && out.text == old(out.text) + Justified(buf[..length], width, f)
  {
    hide Rep, Reverse;
    ghost var t0 := out.text;
    var start := out.idx;
    if !f.left && !f.zeropad { out.PutSpaces(length, width); }
    PutReversed(out, buf, length);
    if f.left {
      assert out.text == t0 + Reverse(buf[..length]);
      out.PutSpaces(out.idx - start, width);
    }
  }

  /** The loop that writes the buffer from its end. */
  method PutReversed(out: Output, buf: array<char>, length: nat)
    requires out.Valid() && buf != out.buffer && length <= buf.Length
    modifies out`idx, out`text, out.buffer
    ensures out.Valid() && out.text == old(out.text) + Reverse(buf[..length])
  {
    hide Output.Valid;
    var len: nat := length;
    while len > 0
      invariant 0 <= len <= length && out.Valid()
      invariant out.text == old(out.text) + Reverse(buf[len..length])
    {
      len := len - 1;
      out.Put(buf[len]);
      assert buf[len..length][1..] == buf[len + 1..length];
    }
    assert buf[0..length] == buf[..length];
  }

  /** A loop that puts zeros into the digit buffer. */
  method PutZeros(buf: array<char>, length: nat, n: nat) returns (len: nat)
    requires buf.Length == BUFFER_SIZE && length <= BUFFER_SIZE
    modifies buf
    ensures len <= BUFFER_SIZE && buf[..len] == Zeroed(old(buf[..length]), n)
  {
    len := length;
    while len < n && len < BUFFER_SIZE
      invariant length <= len <= BUFFER_SIZE && (len <= n || len == length)
      invariant buf[..len] == old(buf[..length]) + Rep('0', len - length)
    {
      buf[len] := '0';
      len := len + 1;
      assert buf[..len] == buf[..len - 1] + ['0'];
    }
    assert Rep('0', len - length) == Rep('0', Min(n, BUFFER_SIZE) - length);
  }

  /** One more character in the digit buffer, if there is room. */
  method Push(buf: array<char>, length: nat, c: char) returns (len: nat)
    requires buf.Length == BUFFER_SIZE && length <= BUFFER_SIZE
    modifies buf
    ensures len <= BUFFER_SIZE
    ensures buf[..len] == Pushed(old(buf[..length]), c)
  {
    len := length;
    if len < BUFFER_SIZE {
      buf[len] := c;
      len := len + 1;
      assert buf[..len] == buf[..len - 1] + [c];
    }
  }

  /** The # part of `_ntoa_format`. */
  method PutMark(buf: array<char>, length: nat, base: nat, prec: nat, width: nat, f: Flags) returns (len: nat)
    requires buf.Length == BUFFER_SIZE && length <= BUFFER_SIZE
    modifies buf
    ensures len <= BUFFER_SIZE && buf[..len] == Marked(old(buf[..length]), base, prec, width, f)
  {
    len := length;
    if f.hash {
      if !f.precision && len > 0 && (len == prec || len == width) {
        len := len - 1;
        if len > 0 && base == 16 { len := len - 1; }
      }
      ghost var cut := old(buf[..length])[..length - Dropped(length, base, prec, width, f)];
      assert buf[..len] == cut;
      if base == 16 && !f.upper {
        len := Push(buf, len, 'x');
      } else if base == 16 && f.upper {
        len := Push(buf, len, 'X');
      } else if base == 2 {
        len := Push(buf, len, 'b');
      }
      len := Push(buf, len, '0');
      PushedMark(cut, base, f);
    }
  }

  ghost function Pushed(s: seq<char>, c: char): (r: seq<char>)
  {
    s + if |s| < BUFFER_SIZE then [c] else []
  }

  /** Pushing the characters of the mark one by one. */
  lemma PushedMark(cut: seq<char>, base: nat, f: Flags)
    requires |cut| <= BUFFER_SIZE
    ensures var mark := Mark(base, f);
      cut + mark[..Min(|mark|, BUFFER_SIZE - |cut|)] ==
      if base == 16 then Pushed(Pushed(cut, if f.upper then 'X' else 'x'), '0')
      else if base == 2 then Pushed(Pushed(cut, 'b'), '0')
      else Pushed(cut, '0')
  {
    var mark := Mark(base, f);
    if |cut| + 1 == BUFFER_SIZE { assert mark[..1] == [mark[0]]; }
    if |cut| + |mark| <= BUFFER_SIZE { assert mark[..|mark|] == mark; }
  }

  /** `_ntoa_format`. */
  method NtoaFormat(out: Output, buf: array<char>, length: nat, neg: bool, base: nat, prec: nat, fieldWidth: nat,
                    f: Flags)
    requires out.Valid() && buf != out.buffer && buf.Length == BUFFER_SIZE && length <= BUFFER_SIZE
    modifies out`idx, out`text, out.buffer, buf
    ensures out.Valid()
    ensures out.text == old(out.text) +
      Justified(FormatRev(old(buf[..length]), neg, base, prec, fieldWidth, f), ZeroWidth(neg, fieldWidth, f), f)
  {
    hide Justified, Marked, Zeroed;
    var len, width := length, fieldWidth;
    ghost var ds := buf[..length];
    if !f.left {
      if width > 0 && f.zeropad && (neg || f.plus || f.space) { width := width - 1; }
      len := PutZeros(buf, len, prec);
      if f.zeropad { len := PutZeros(buf, len, width); }
    }
    assert width == ZeroWidth(neg, fieldWidth, f) && buf[..len] == Core(ds, neg, prec, fieldWidth, f);
    len := PutMark(buf, len, base, prec, width, f);
    if neg {
      len := Push(buf, len, '-');
    } else if f.plus {
      len := Push(buf, len, '+');
    } else if f.space {
      len := Push(buf, len, ' ');
    }
    assert buf[..len] == FormatRev(ds, neg, base, prec, fieldWidth, f);
    OutRev(out, buf, len, width, f);
  }

  /** `_ntoa_long`: the digits of a 64-bit value, least significant first, and the rest of its text. */
  method NtoaLong(out: Output, value: nat, neg: bool, base: nat, prec: nat, width: nat, flags: Flags)
    requires out.Valid() && 2 <= base <= 16
    modifies out`idx, out`text, out.buffer
    ensures out.Valid() && out.text == old(out.text) + NumberText(value, neg, base, prec, width, flags)
  {
    hide Justified, FormatRev, ZeroWidth;
    var f := if value == 0 then flags.(hash := false) else flags;
    var buf := new char[BUFFER_SIZE];
    var len := 0;
    if !f.precision || value != 0 { len := PutDigits(buf, value, base, f.upper); }
    assert buf[..len] == Converted(value, base, flags);
    NtoaFormat(out, buf, len, neg, base, prec, width, f);
  }

  method PutDigits(buf: array<char>, value: nat, base: nat, upper: bool) returns (len: nat)
    requires buf.Length == BUFFER_SIZE && 2 <= base <= 16
    modifies buf
    ensures len <= BUFFER_SIZE && buf[..len] == RevDigits(value, base, upper, BUFFER_SIZE)
  {
    hide Quot, Rem, DigitChar, RevDigits;
    ghost var all := RevDigits(value, base, upper, BUFFER_SIZE);
    DigitsStep(value, base, upper, BUFFER_SIZE);
    buf[0] := DigitChar(Rem(value, base), upper);
    var v := Quot(value, base);
    len := 1;
    assert buf[..1] == [buf[0]];
    while v != 0 && len < BUFFER_SIZE
      invariant 1 <= len <= BUFFER_SIZE
      invariant all == buf[..len] + RestDigits(v, base, upper, BUFFER_SIZE - len)
      decreases BUFFER_SIZE - len
    {
      DigitsStep(v, base, upper, BUFFER_SIZE - len);
      buf[len] := DigitChar(Rem(v, base), upper);
      v := Quot(v, base);
      len := len + 1;
      assert buf[..len] == buf[..len - 1] + [buf[len - 1]];
    }
    NoRest(v, base, upper);
  }

  /** The digits still to come when v is left. */
  ghost function RestDigits(v: nat, base: nat, upper: bool, room: nat): (ds: seq<char>)
    requires 2 <= base <= 16
  {
    if v == 0 then [] else RevDigits(v, base, upper, room)
  }

  lemma DigitsStep(v: nat, base: nat, upper: bool, room: nat)
    requires 2 <= base <= 16 && room > 0
    ensures RevDigits(v, base, upper, room) ==
            [DigitChar(Rem(v, base), upper)] + RestDigits(Quot(v, base), base, upper, room - 1)
  {
  }

  lemma NoRest(v: nat, base: nat, upper: bool)
    requires 2 <= base <= 16
    ensures RestDigits(v, base, upper, 0) == []
  {
  }

  // ---------- reading the format ----------

  /** `_atoi`: the value of the digits ahead, modulo 2^32. */
  method Atoi(s: seq<char>, start: nat) returns (v: nat, e: nat)
    requires start <= |s|
    ensures e == DigitsEnd(s, start) && v == Horner(s[start..e], 10) % UINT_LIMIT
  {
    hide Horner;
    v, e := 0, start;
    NoDigitsYet();
    assert s[start..e] == [];
    while IsDigit(At(s, e))
      invariant start <= e <= |s| && DigitsEnd(s, start) == DigitsEnd(s, e)
      invariant v == Horner(s[start..e], 10) % UINT_LIMIT
      decreases |s| - e
    {
      var c := s[e];
      AtoiStep(s[start..e], c);
      assert s[start..e + 1] == s[start..e] + [c];
      v := (v * 10 + (c as int - '0' as int)) % UINT_LIMIT;
      e := e + 1;
    }
  }

  lemma NoDigitsYet()
    ensures Horner([], 10) == 0
  {
  }

  /** Reducing modulo 2^32 at every digit is reducing once. */
  lemma AtoiStep(s: seq<char>, c: char)
    requires IsDigit(c)
    ensures Horner(s + [c], 10) % UINT_LIMIT == (Horner(s, 10) % UINT_LIMIT * 10 + (c as int - '0' as int)) % UINT_LIMIT
  {
    assert (s + [c])[..|s|] == s;
    var h := Horner(s, 10);
    var d := c as int - '0' as int;
    assert Horner(s + [c], 10) == h * 10 + d;
    Shifted(h % UINT_LIMIT * 10 + d, h / UINT_LIMIT * 10);
  }

  lemma Shifted(x: nat, k: nat)
    ensures (k * UINT_LIMIT + x) % UINT_LIMIT == x % UINT_LIMIT
  {
    DivUnique(k * UINT_LIMIT + x, UINT_LIMIT, k + x / UINT_LIMIT, x % UINT_LIMIT);
  }

  /** `_atoi` recovers every 32-bit value from its decimal digits. */
  lemma AtoiOfDigits(v: nat)
    requires v < UINT_LIMIT
    ensures var s := Reverse(RevDigits(v, 10, false, BUFFER_SIZE));
      DigitsEnd(s, 0) == |s| && Horner(s, 10) % UINT_LIMIT == v
  {
    hide RevDigits, Reverse, Horner, RevValue, DigitsEnd, AllDigits, Fits;
    var ds := RevDigits(v, 10, false, BUFFER_SIZE);
    WordFits(v, 10);
    RevDigitsValue(v, 10, false, BUFFER_SIZE, 22);
    HornerReverse(ds, 10);
    ReverseDigits(ds, 10);
    DecimalEnd(Reverse(ds), 0);
  }

  lemma {:induction false} DecimalEnd(s: seq<char>, i: nat)
    requires i <= |s| && AllDigits(s, 10)
    ensures DigitsEnd(s, i) == |s|
    decreases |s| - i
  {
    if i < |s| {
      assert DigitValue(s[i]) < 10;
      DecimalEnd(s, i + 1);
    }
  }

  method EvalFlags(fmt: seq<char>, start: Directive) returns (d: Directive)
    requires start.i <= |fmt|
    ensures d == ScanFlags(fmt, start)
  {
    d := start;
    while IsFlag(At(fmt, d.i))
      invariant d.i <= |fmt| && ScanFlags(fmt, d) == ScanFlags(fmt, start)
      decreases |fmt| - d.i
    {
      d := d.(f := WithFlag(d.f, fmt[d.i]), i := d.i + 1);
    }
  }

  method EvalWidth(fmt: seq<char>, args: seq<Arg>, start: Directive) returns (d: Directive)
    requires start.i <= |fmt|
    ensures d == ScanWidth(fmt, args, start)
  {
    d := start;
    if IsDigit(At(fmt, d.i)) {
      var v, e := Atoi(fmt, d.i);
      d := d.(width := v, i := e);
    } else if At(fmt, d.i) == '*' {
      var w := Signed(ArgNum(args, d.k), UINT_LIMIT);
      if w < 0 {
        d := d.(f := d.f.(left := true), width := -w);
      } else {
        d := d.(width := w);
      }
      d := d.(i := d.i + 1, k := d.k + 1);
    }
  }

  method EvalPrecision(fmt: seq<char>, args: seq<Arg>, start: Directive) returns (d: Directive)
    requires start.i <= |fmt|
    ensures d == ScanPrecision(fmt, args, start)
  {
    d := start;
    if At(fmt, d.i) == '.' {
      d := d.(f := d.f.(precision := true), i := d.i + 1);
      if IsDigit(At(fmt, d.i)) {
        var v, e := Atoi(fmt, d.i);
        d := d.(prec := v, i := e);
      } else if At(fmt, d.i) == '*' {
        var p := Signed(ArgNum(args, d.k), UINT_LIMIT);
        d := d.(prec := if p > 0 then p else 0, i := d.i + 1, k := d.k + 1);
      }
    }
  }

  method EvalLength(fmt: seq<char>, start: Directive) returns (d: Directive)
    requires start.i <= |fmt|
    ensures d == ScanLength(fmt, start)
  {
    d := start;
    var c := At(fmt, d.i);
    if c == 'l' {
      d := d.(f := d.f.(long := true), i := d.i + 1);
      if At(fmt, d.i) == 'l' { d := d.(f := d.f.(longLong := true), i := d.i + 1); }
    } else if c == 'h' {
      d := d.(f := d.f.(short := true), i := d.i + 1);
      if At(fmt, d.i) == 'h' { d := d.(f := d.f.(chr := true), i := d.i + 1); }
    } else if c == 't' || c == 'j' || c == 'z' {
      d := d.(f := d.f.(long := true), i := d.i + 1);
    }
  }

  /** The parts of a directive up to its conversion character. */
  method EvalDirective(fmt: seq<char>, args: seq<Arg>, i: nat, k: nat) returns (d: Directive)
    requires i <= |fmt|
    ensures d == Scan(fmt, args, i, k)
  {
    hide ScanFlags, ScanWidth, ScanPrecision, ScanLength;
    d := EvalFlags(fmt, Directive(NO_FLAGS, 0, 0, i, k));
    d := EvalWidth(fmt, args, d);
    d := EvalPrecision(fmt, args, d);
    d := EvalLength(fmt, d);
  }

  // ---------- conversions ----------

  /** The base of an integer conversion, and whether # applies. */
  method EvalBase(c: char, flags: Flags) returns (base: nat, f: Flags)
    requires IsInteger(c)
    ensures base == BaseOf(c) && f == DropHash(c, flags)
  {
    base, f := 10, flags;
    if c == 'x' || c == 'X' {
      base := 16;
    } else if c == 'o' {
      base := 8;
    } else if c == 'b' {
      base := 2;
    } else {
      f := f.(hash := false);
    }
  }

  method EvalSign(c: char, flags: Flags) returns (f: Flags)
    ensures f == DropZero(DropSign(c, Upper(c, flags)))
  {
    f := flags;
    if c == 'X' { f := f.(upper := true); }
    if c != 'i' && c != 'd' { f := f.(plus := false, space := false); }
    if f.precision { f := f.(zeropad := false); }
  }

  /** The integer conversions. */
  method PutInteger(out: Output, c: char, d: Directive, args: seq<Arg>)
    requires out.Valid() && IsInteger(c)
    modifies out`idx, out`text, out.buffer
    ensures out.Valid() && out.text == old(out.text) + IntText(c, d, args)
  {
    hide Output.Valid, NumberText, BaseOf, Modulus, Signed, DropHash, DropZero, DropSign, Upper;
    var base, f := EvalBase(c, d.f);
    f := EvalSign(c, f);
    assert f == IntFlags(c, d.f);
    if d.f.longLong { return; }
    var bits := ArgNum(args, d.k);
    if c == 'i' || c == 'd' {
      var v := Signed(bits, Modulus(d.f));
      NtoaLong(out, if v > 0 then v else 0 - v, v < 0, base, d.prec, d.width, f);
    } else {
      NtoaLong(out, bits % Modulus(d.f), false, base, d.prec, d.width, f);
    }
  }

  /** `_strnlen_s`. */
  method Strnlen(s: seq<char>, maxsize: nat) returns (n: nat)
    ensures n == Min(|s|, maxsize)
  {
    n := 0;
    while n < |s| && n < maxsize
      invariant n <= |s| && n <= maxsize
    {
      n := n + 1;
    }
  }

  /** The character conversion. */
  method PutChar(out: Output, c: char, d: Directive)
    requires out.Valid()
    modifies out`idx, out`text, out.buffer
    ensures out.Valid() && out.text == old(out.text) + Field([c], d)
  {
    if !d.f.left { out.PutSpaces(1, d.width); }
    out.Put(c);
    if d.f.left { out.PutSpaces(1, d.width); }
  }

  /** The string conversion: the precision counts down as characters are written. */
  method PutString(out: Output, s: seq<char>, d: Directive)
    requires out.Valid() && |s| < UINT_LIMIT && (d.f.precision || d.prec == 0)
    modifies out`idx, out`text, out.buffer
    ensures out.Valid() && out.text == old(out.text) + Field(Clipped(s, d), d)
  {
    hide Rep;
    ghost var body := Clipped(s, d);
    var l := Strnlen(s, if d.prec != 0 then d.prec else WORD_LIMIT - 1);
    if d.f.precision { l := if l < d.prec then l else d.prec; }
    assert l == |body|;
    if !d.f.left { out.PutSpaces(l, d.width); }
    PutClipped(out, s, d);
    if d.f.left { out.PutSpaces(l, d.width); }
  }

  method PutClipped(out: Output, s: seq<char>, d: Directive)
    requires out.Valid()
    modifies out`idx, out`text, out.buffer
    ensures out.Valid() && out.text == old(out.text) + Clipped(s, d)
  {
    hide Output.Valid;
    ghost var body := Clipped(s, d);
    var p, precision := 0, d.prec;
    while p < |s| && (!d.f.precision || precision > 0)
      invariant p <= |body| && (d.f.precision ==> precision == d.prec - p)
      invariant out.Valid() && out.text == old(out.text) + body[..p]
    {
      out.Put(s[p]);
      p := p + 1;
      if d.f.precision { precision := precision - 1; }
    }
    assert body[..p] == body;
  }

  method PutConversion(out: Output, c: char, d: Directive, args: seq<Arg>)
    requires out.Valid() && ShortStrings(args) && (d.f.precision || d.prec == 0)
    modifies out`idx, out`text, out.buffer
    ensures out.Valid() && out.text == old(out.text) + Conversion(c, d, args)
  {
    hide Output.Valid, IntText, NumberText, Field;
    if IsInteger(c) {
      PutInteger(out, c, d, args);
    } else if c == 'c' {
      PutChar(out, (ArgNum(args, d.k) % 256) as char, d);
    } else if c == 's' {
      PutString(out, ArgStr(args, d.k), d);
    } else if c == 'p' {
      NtoaLong(out, ArgNum(args, d.k) % WORD_LIMIT, false, 16, d.prec, 16, d.f.(zeropad := true, upper := true));
    } else {
      out.Put(c);
    }
  }

  /** The loop of `_vsnprintf`. */
  method FormatAll(out: Output, fmt: seq<char>, args: seq<Arg>)
    requires out.Valid() && Complete(fmt, args, 0, 0) && ShortStrings(args)
    modifies out`idx, out`text, out.buffer
    ensures out.Valid() && out.text == old(out.text) + Formatted(fmt, args, 0, 0)
  {
    hide Output.Valid, Scan, Conversion, Used;
    ghost var all := old(out.text) + Formatted(fmt, args, 0, 0);
    var i: nat, k: nat := 0, 0;
    while i < |fmt|
      invariant i <= |fmt| && out.Valid() && Complete(fmt, args, i, k)
      invariant all == out.text + Formatted(fmt, args, i, k)
      decreases |fmt| - i
    {
      if fmt[i] != '%' {
        out.Put(fmt[i]);
        i := i + 1;
      } else {
        var d := EvalDirective(fmt, args, i + 1, k);
        PrecisionFlagged(fmt, args, i + 1, k);
        PutConversion(out, fmt[d.i], d, args);
        i, k := d.i + 1, d.k + Used(fmt[d.i], d);
      }
    }
  }

  /** The conversion of an index to the int that is returned. */
  function ToInt(n: nat): (r: int)
  {
    Signed(n, UINT_LIMIT)
  }

  /**
   * `snprintf`: whatever the bound, the result is the length of the unbounded output, and with room
   * for at least one character the buffer holds as much of that output as fits, then a terminator.
   */
  method Snprintf(buffer: array<char>, maxlen: nat, fmt: seq<char>, args: seq<Arg>) returns (r: int)
    requires maxlen <= buffer.Length && Complete(fmt, args, 0, 0) && ShortStrings(args)
    modifies buffer
    ensures r == ToInt(|Formatted(fmt, args, 0, 0)|)
    ensures maxlen == 0 ==> buffer[..] == old(buffer[..])
    ensures maxlen > 0 ==>
      var text := Formatted(fmt, args, 0, 0);
      var m := Min(|text|, maxlen - 1);
      buffer[..] == text[..m] + [NUL] + old(buffer[m + 1..])
  {
    hide Formatted, Complete, Signed;
    var out := new Output(buffer, maxlen);
    FormatAll(out, fmt, args);
    assert out.text == Formatted(fmt, args, 0, 0);
    if maxlen > 0 {
      var at := if out.idx < maxlen then out.idx else maxlen - 1;
      Terminated(out.was, out.text, maxlen, at);
      buffer[at] := NUL;
    }
    r := ToInt(out.idx);
  }

  lemma Terminated(was: seq<char>, text: seq<char>, maxlen: nat, at: nat)
    requires 0 < maxlen <= |was| && at == Min(|text|, maxlen - 1)
    ensures Shown(was, text, maxlen)[at := NUL] == text[..at] + [NUL] + was[at + 1..]
  {
  }
}
