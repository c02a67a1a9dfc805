/**
 * What directives mean, spelled out as the characters that a caller writes (src/lib/printf.c, lines
 * 635-926): flags, width, precision and length modifier, in the terms of the C standard, and where the
 * code departs from it.
 */
module Formats {
  import opened Bytes
  import opened Numbers
  import opened Printf

  // ---------- directives as they are written ----------

  /** A width or a precision: left out, written as digits, or taken from an argument. */
  datatype Size = Unset | Written(digits: seq<char>) | Star

  datatype Spec = Spec(flags: seq<char>, width: Size, dot: bool, prec: Size, length: seq<char>, conv: char)

  function SizeText(s: Size): (t: seq<char>)
  {
    match s case Unset => "" case Written(digits) => digits case Star => "*"
  }

  function DotText(sp: Spec): (t: seq<char>)
  {
    if sp.dot then "." + SizeText(sp.prec) else ""
  }

  /** The directive as the format holds it. */
  function Spell(sp: Spec): (t: seq<char>)
  {
    "%" + (sp.flags + (SizeText(sp.width) + (DotText(sp) + (sp.length + [sp.conv]))))
  }

  predicate Decimal(s: seq<char>)
  {
    forall j :: 0 <= j < |s| ==> '0' <= s[j] <= '9'
  }

  predicate FlagChar(c: char)
  {
    c == '0' || c == '-' || c == '+' || c == ' ' || c == '#'
  }

  predicate Letter(c: char)
  {
    || c == 'd' || c == 'i' || c == 'u' || c == 'x' || c == 'X' || c == 'o' || c == 'b'
    || c == 's' || c == 'c' || c == 'p' || c == '%'
  }

  /** Flags in any order and number; a width does not begin with 0, which would be a flag. */
  predicate WellSpelled(sp: Spec)
  {
    && (forall j :: 0 <= j < |sp.flags| ==> FlagChar(sp.flags[j]))
    && (sp.width.Written? ==> sp.width.digits != "" && Decimal(sp.width.digits) && sp.width.digits[0] != '0')
    && (sp.prec.Written? ==> sp.prec.digits != "" && Decimal(sp.prec.digits))
    && (!sp.dot ==> sp.prec.Unset?)
    && sp.length in ["", "h", "hh", "l", "t", "j", "z"] && Letter(sp.conv)
  }

  /** The characters t stand in the format from i on. */
  predicate HasAt(fmt: seq<char>, i: nat, t: seq<char>)
  {
    i + |t| <= |fmt| && fmt[i..i + |t|] == t
  }

  /** The low 32 bits of an argument as a signed number. */
  function Int32(bits: nat): (x: int)
    ensures -0x8000_0000 <= x < 0x8000_0000 && (x - bits) % 0x1_0000_0000 == 0
  {
    var r := bits % 0x1_0000_0000;
    if r >= 0x8000_0000 then r - 0x1_0000_0000 else r
  }

  /** The argument that a star takes; every star takes one. */
  function Bits(args: seq<Arg>, k: nat): (n: nat)
  {
    if k < |args| && args[k].Num? then args[k].bits else 0
  }

  function Stars(s: Size): (n: nat) { if s.Star? then 1 else 0 }

  function WidthOf(sp: Spec, args: seq<Arg>, k: nat): (w: nat)
  {
    match sp.width
    case Unset => 0
    case Written(digits) => Horner(digits, 10) % 0x1_0000_0000
    case Star => if Int32(Bits(args, k)) < 0 then -Int32(Bits(args, k)) else Int32(Bits(args, k))
  }

  /** `-`, or a negative width from an argument. */
  predicate LeftOf(sp: Spec, args: seq<Arg>, k: nat)
  {
    '-' in sp.flags || (sp.width.Star? && Int32(Bits(args, k)) < 0)
  }

  function PrecOf(sp: Spec, args: seq<Arg>, k: nat): (p: nat)
  {
    match sp.prec
    case Unset => 0
    case Written(digits) => Horner(digits, 10) % 0x1_0000_0000
    case Star => if Int32(Bits(args, k + Stars(sp.width))) > 0 then Int32(Bits(args, k + Stars(sp.width))) else 0
  }

  // ---------- the scan reads what is written ----------

  lemma Pieces(fmt: seq<char>, i: nat, a: seq<char>, b: seq<char>)
    requires HasAt(fmt, i, a + b)
    ensures HasAt(fmt, i, a) && HasAt(fmt, i + |a|, b)
  {
    var t := fmt[i..i + |a + b|];
    assert t[..|a|] == a && t[|a|..] == b;
  }

  lemma FirstOf(fmt: seq<char>, i: nat, t: seq<char>)
    requires HasAt(fmt, i, t) && t != []
    ensures At(fmt, i) == t[0]
  {
    assert fmt[i..i + |t|][0] == fmt[i];
  }

  /** Where flags end. */
  predicate Plain(t: seq<char>)
  {
    t != [] && !FlagChar(t[0])
  }

  predicate Got(before: bool, now: bool, c: char, flags: seq<char>)
  {
    now <==> before || c in flags
  }

  /** Whether the flag that a character stands for is set. */
  predicate Chosen(f: Flags, x: char)
  {
    if x == '0' then f.zeropad else if x == '-' then f.left else if x == '+' then f.plus
    else if x == ' ' then f.space else f.hash
  }

  predicate SameRest(f: Flags, g: Flags)
  {
    && g.upper == f.upper && g.chr == f.chr && g.short == f.short && g.long == f.long && g.longLong == f.longLong
    && g.precision == f.precision
  }

  ghost predicate FlagsRead(f: Flags, g: Flags, flags: seq<char>)
  {
    && (forall x :: FlagChar(x) ==> Got(Chosen(f, x), Chosen(g, x), x, flags)) && SameRest(f, g)
  }

  lemma {:induction false} FlagsScanned(fmt: seq<char>, d: Directive, flags: seq<char>, rest: seq<char>)
    requires HasAt(fmt, d.i, flags + rest) && Plain(rest) && d.i <= |fmt|
    requires forall j :: 0 <= j < |flags| ==> FlagChar(flags[j])
    ensures var e := ScanFlags(fmt, d);
      e == d.(f := e.f, i := d.i + |flags|) && FlagsRead(d.f, e.f, flags)
    decreases |flags|
  {
    if flags == [] {
      assert flags + rest == rest;
      FirstOf(fmt, d.i, rest);
    } else {
      var c, more := flags[0], flags[1..];
      assert flags + rest == [c] + (more + rest) && flags == [c] + more;
      FirstOf(fmt, d.i, flags + rest);
      Pieces(fmt, d.i, [c], more + rest);
      var d1 := d.(f := WithFlag(d.f, c), i := d.i + 1);
      FlagsScanned(fmt, d1, more, rest);
      OneFlag(d.f, ScanFlags(fmt, d1).f, c, more);
    }
  }

  lemma OneFlag(f: Flags, g: Flags, c: char, more: seq<char>)
    requires FlagChar(c) && FlagsRead(WithFlag(f, c), g, more)
    ensures FlagsRead(f, g, [c] + more)
  {
    hide Got, WithFlag, FlagChar, Chosen, SameRest;
    forall x | FlagChar(x) ensures Got(Chosen(f, x), Chosen(g, x), x, [c] + more) {
      FlagSet(f, c, x);
      GotMore(Chosen(f, x), Chosen(WithFlag(f, c), x), Chosen(g, x), x, c, more);
    }
    RestKept(f, c, g);
  }

  lemma FlagSet(f: Flags, c: char, x: char)
    requires FlagChar(c) && FlagChar(x)
    ensures Chosen(WithFlag(f, c), x) <==> Chosen(f, x) || x == c
  {
    hide WithFlag, Chosen;
    EachFlag(f);
    ChosenAre(f, x);
    ChosenAre(WithFlag(f, c), x);
    match c case '0' => case '-' => case '+' => case ' ' => case '#' =>
  }

  lemma ChosenAre(f: Flags, x: char)
    ensures x == '0' ==> Chosen(f, x) == f.zeropad
    ensures x == '-' ==> Chosen(f, x) == f.left
    ensures x == '+' ==> Chosen(f, x) == f.plus
    ensures x == ' ' ==> Chosen(f, x) == f.space
    ensures x == '#' ==> Chosen(f, x) == f.hash
  {
  }

  lemma EachFlag(f: Flags)
    ensures WithFlag(f, '0') == f.(zeropad := true) && WithFlag(f, '-') == f.(left := true)
    ensures WithFlag(f, '+') == f.(plus := true) && WithFlag(f, ' ') == f.(space := true)
    ensures WithFlag(f, '#') == f.(hash := true)
  {
  }

  lemma RestKept(f: Flags, c: char, g: Flags)
    requires FlagChar(c) && SameRest(WithFlag(f, c), g)
    ensures SameRest(f, g)
  {
    hide WithFlag;
    EachFlag(f);
  }

  lemma GotMore(before: bool, now: bool, later: bool, x: char, c: char, more: seq<char>)
    requires (now <==> before || x == c) && Got(now, later, x, more)
    ensures Got(before, later, x, [c] + more)
  {
  }

  lemma DigitsScanned(fmt: seq<char>, i: nat, digits: seq<char>, rest: seq<char>)
    requires HasAt(fmt, i, digits + rest) && Decimal(digits) && rest != [] && !IsDigit(rest[0]) && i <= |fmt|
    ensures DigitsEnd(fmt, i) == i + |digits| && fmt[i..i + |digits|] == digits
  {
    Pieces(fmt, i, digits, rest);
    FirstOf(fmt, i + |digits|, rest);
    var e := DigitsEnd(fmt, i);
    assert forall j :: i <= j < i + |digits| ==> fmt[j] == fmt[i..i + |digits|][j - i] == digits[j - i];
    if e < i + |digits| { assert IsDigit(fmt[e]); }
  }

  lemma SignedIs(bits: nat)
    ensures Signed(bits, UINT_LIMIT) == Int32(bits)
  {
  }

  lemma BitsAre(args: seq<Arg>, k: nat)
    ensures ArgNum(args, k) == Bits(args, k)
  {
  }

  /** What may follow a width or a precision. */
  predicate Follows(t: seq<char>)
  {
    t != [] && (t[0] == '.' || t[0] == 'h' || t[0] == 'l' || t[0] == 't' || t[0] == 'j' || t[0] == 'z' || Letter(t[0]))
  }

  /** A negative width from an argument turns the field to the left. */
  function Turned(f: Flags, sp: Spec, args: seq<Arg>, k: nat): (g: Flags)
  {
    if sp.width.Star? && Int32(Bits(args, k)) < 0 then f.(left := true) else f
  }

  function Dotted(f: Flags, sp: Spec): (g: Flags)
  {
    if sp.dot then f.(precision := true) else f
  }

  function Lengthened(f: Flags, length: seq<char>): (g: Flags)
  {
    if length == "" then f
    else if length == "h" then f.(short := true)
    else if length == "hh" then f.(short := true, chr := true)
    else f.(long := true)
  }

  lemma WidthScanned(fmt: seq<char>, args: seq<Arg>, d: Directive, sp: Spec, rest: seq<char>)
    requires WellSpelled(sp) && d.i <= |fmt| && HasAt(fmt, d.i, SizeText(sp.width) + rest) && Follows(rest)
    requires d.width == 0
    ensures var e := ScanWidth(fmt, args, d);
      && e == d.(f := e.f, width := WidthOf(sp, args, d.k), i := d.i + |SizeText(sp.width)|, k := d.k + Stars(sp.width))
      && e.f == Turned(d.f, sp, args, d.k)
  {
    hide DigitsEnd, Horner, Int32, Signed;
    Pieces(fmt, d.i, SizeText(sp.width), rest);
    FirstOf(fmt, d.i + |SizeText(sp.width)|, rest);
    SignedIs(Bits(args, d.k));
    BitsAre(args, d.k);
    match sp.width {
      case Unset => assert At(fmt, d.i) == rest[0];
      case Written(digits) =>
        FirstOf(fmt, d.i, digits);
        DigitsScanned(fmt, d.i, digits, rest);
      case Star => FirstOf(fmt, d.i, "*");
    }
  }

  lemma PrecScanned(fmt: seq<char>, args: seq<Arg>, d: Directive, sp: Spec, k: nat, rest: seq<char>)
    requires WellSpelled(sp) && d.i <= |fmt| && HasAt(fmt, d.i, DotText(sp) + rest) && Follows(rest) && rest[0] != '.'
    requires d.prec == 0 && d.k == k + Stars(sp.width)
    ensures ScanPrecision(fmt, args, d) ==
      d.(f := Dotted(d.f, sp), prec := PrecOf(sp, args, k), i := d.i + |DotText(sp)|,
         k := d.k + Stars(sp.prec))
  {
    if sp.dot {
      hide ScanPrecision, HasAt, WellSpelled, Follows, PrecOf;
      DotScanned(fmt, args, d, sp, k, rest);
    } else {
      assert DotText(sp) + rest == rest;
      FirstOf(fmt, d.i, rest);
    }
  }

  lemma DotScanned(fmt: seq<char>, args: seq<Arg>, d: Directive, sp: Spec, k: nat, rest: seq<char>)
    requires WellSpelled(sp) && d.i <= |fmt| && HasAt(fmt, d.i, DotText(sp) + rest) && Follows(rest) && sp.dot
    requires d.prec == 0 && d.k == k + Stars(sp.width)
    ensures ScanPrecision(fmt, args, d) ==
      d.(f := d.f.(precision := true), prec := PrecOf(sp, args, k), i := d.i + |DotText(sp)|, k := d.k + Stars(sp.prec))
  {
    hide DigitsEnd, Horner, Int32, Signed, HasAt, At;
    var text := SizeText(sp.prec);
    assert DotText(sp) + rest == "." + (text + rest);
    Pieces(fmt, d.i, ".", text + rest);
    FirstOf(fmt, d.i, ".");
    InRange(fmt, d.i, ".");
    SignedIs(Bits(args, d.k));
    BitsAre(args, d.k);
    Pieces(fmt, d.i + 1, text, rest);
    match sp.prec {
      case Unset =>
        assert text + rest == rest;
        FirstOf(fmt, d.i + 1, rest);
      case Written(digits) =>
        FirstOf(fmt, d.i + 1, digits);
        DigitsScanned(fmt, d.i + 1, digits, rest);
      case Star => FirstOf(fmt, d.i + 1, "*");
    }
  }

  lemma LengthScanned(fmt: seq<char>, d: Directive, length: seq<char>, conv: char)
    requires d.i <= |fmt| && HasAt(fmt, d.i, length + [conv]) && Letter(conv)
    requires length in ["", "h", "hh", "l", "t", "j", "z"]
    ensures ScanLength(fmt, d) == d.(i := d.i + |length|, f := Lengthened(d.f, length))
  {
    hide ScanLength, Lengthened, At, HasAt, Letter;
    Pieces(fmt, d.i, length, [conv]);
    FirstOf(fmt, d.i + |length|, [conv]);
    InRange(fmt, d.i + |length|, [conv]);
    NoLength(conv);
    if length == "" {
      NoneScanned(fmt, d, conv);
    } else if length == "hh" {
      Pieces(fmt, d.i, "h", "h");
      FirstOf(fmt, d.i, "h");
      FirstOf(fmt, d.i + 1, "h");
      LengthRead(fmt, d, length, 'h', 'h');
    } else {
      FirstOf(fmt, d.i, length);
      LengthRead(fmt, d, length, length[0], conv);
    }
  }

  lemma NoLength(c: char)
    requires Letter(c)
    ensures c != 'l' && c != 'h' && c != 't' && c != 'j' && c != 'z'
  {
  }

  lemma NoneScanned(fmt: seq<char>, d: Directive, c: char)
    requires d.i <= |fmt| && At(fmt, d.i) == c && c != 'l' && c != 'h' && c != 't' && c != 'j' && c != 'z'
    ensures ScanLength(fmt, d) == d.(i := d.i + 0, f := Lengthened(d.f, ""))
  {
    hide At;
  }

  lemma LengthRead(fmt: seq<char>, d: Directive, length: seq<char>, c: char, c1: char)
    requires d.i + |length| <= |fmt| && At(fmt, d.i) == c && At(fmt, d.i + 1) == c1
    requires (length == "hh" && c == 'h' && c1 == 'h') || (length == [c] && c1 != 'h' && c1 != 'l')
    requires c == 'l' || c == 'h' || c == 't' || c == 'j' || c == 'z'
    ensures ScanLength(fmt, d) == d.(i := d.i + |length|, f := Lengthened(d.f, length))
  {
    hide At, Lengthened;
    LengthCases(d.f, length);
    if c == 'l' {
    } else if c == 'h' {
    } else {
    }
  }

  /** The directive that a spelling stands for. */
  ghost predicate Means(d: Directive, sp: Spec, args: seq<Arg>, k: nat)
  {
    && d.width == WidthOf(sp, args, k) && d.prec == PrecOf(sp, args, k)
    && d.k == k + Stars(sp.width) + Stars(sp.prec)
    && (d.f.zeropad <==> '0' in sp.flags) && (d.f.left <==> LeftOf(sp, args, k)) && (d.f.plus <==> '+' in sp.flags)
    && (d.f.space <==> ' ' in sp.flags) && (d.f.hash <==> '#' in sp.flags) && !d.f.upper && !d.f.longLong
    && (d.f.precision <==> sp.dot) && (d.f.short <==> sp.length == "h" || sp.length == "hh")
    && (d.f.chr <==> sp.length == "hh")
    && (d.f.long <==> sp.length == "l" || sp.length == "t" || sp.length == "j" || sp.length == "z")
  }

  lemma Tails(sp: Spec)
    requires WellSpelled(sp)
    ensures var t3 := sp.length + [sp.conv]; var t2 := DotText(sp) + t3; var t1 := SizeText(sp.width) + t2;
      Follows(t3) && t3[0] != '.' && Follows(t2) && Plain(t1)
  {
    var t3 := sp.length + [sp.conv];
    assert sp.length != "" ==> t3[0] == sp.length[0];
    var t2 := DotText(sp) + t3;
    assert sp.dot ==> t2[0] == '.';
    assert !sp.dot ==> t2 == t3;
    var t1 := SizeText(sp.width) + t2;
    assert sp.width.Unset? ==> t1 == t2;
    assert !sp.width.Unset? ==> t1[0] == SizeText(sp.width)[0];
  }

  /** Flags and width. */
  lemma FrontScanned(fmt: seq<char>, args: seq<Arg>, i: nat, k: nat, sp: Spec)
    requires WellSpelled(sp) && HasAt(fmt, i, Spell(sp)) && i + 1 <= |fmt|
    ensures var f := ScanFlags(fmt, Directive(NO_FLAGS, 0, 0, i + 1, k)).f;
      var d := ScanWidth(fmt, args, ScanFlags(fmt, Directive(NO_FLAGS, 0, 0, i + 1, k)));
      && FlagsRead(NO_FLAGS, f, sp.flags)
      && d == Directive(Turned(f, sp, args, k), WidthOf(sp, args, k), 0,
                        i + 1 + |sp.flags| + |SizeText(sp.width)|, k + Stars(sp.width))
      && HasAt(fmt, d.i, DotText(sp) + (sp.length + [sp.conv]))
  {
    hide ScanFlags, ScanWidth, WellSpelled, Follows, Plain, WidthOf, HasAt, SizeText, DotText, FlagsRead, Int32, Bits;
    hide Letter, FlagChar, Spell, Stars, Turned;
    Spelt(sp);
    var t2 := DotText(sp) + (sp.length + [sp.conv]);
    var t1 := SizeText(sp.width) + t2;
    Tails(sp);
    Lengths(sp);
    Pieces(fmt, i, "%", sp.flags + t1);
    var d0 := Directive(NO_FLAGS, 0, 0, i + 1, k);
    FlagsScanned(fmt, d0, sp.flags, t1);
    Pieces(fmt, i + 1, sp.flags, t1);
    WidthScanned(fmt, args, ScanFlags(fmt, d0), sp, t2);
    Pieces(fmt, i + 1 + |sp.flags|, SizeText(sp.width), t2);
  }

  lemma Spelt(sp: Spec)
    ensures Spell(sp) == "%" + (sp.flags + (SizeText(sp.width) + (DotText(sp) + (sp.length + [sp.conv]))))
  {
  }

  /** Precision and length. */
  lemma BackScanned(fmt: seq<char>, args: seq<Arg>, d: Directive, k: nat, sp: Spec)
    requires WellSpelled(sp) && d.i <= |fmt| && HasAt(fmt, d.i, DotText(sp) + (sp.length + [sp.conv]))
    requires d.prec == 0 && d.k == k + Stars(sp.width)
    ensures var e := ScanLength(fmt, ScanPrecision(fmt, args, d));
      && e.i == d.i + |DotText(sp)| + |sp.length| && At(fmt, e.i) == sp.conv && e.i < |fmt|
      && e.width == d.width && e.prec == PrecOf(sp, args, k) && e.k == d.k + Stars(sp.prec)
      && e.f == Lengthened(Dotted(d.f, sp), sp.length)
  {
    hide ScanPrecision, ScanLength, WellSpelled, Follows, PrecOf, HasAt, DotText, Int32, Bits, At, Lengthened, Dotted;
    var t3 := sp.length + [sp.conv];
    Tails(sp);
    Lengths(sp);
    PrecScanned(fmt, args, d, sp, k, t3);
    var e := ScanPrecision(fmt, args, d);
    Pieces(fmt, d.i, DotText(sp), t3);
    LengthScanned(fmt, e, sp.length, sp.conv);
    Pieces(fmt, e.i, sp.length, [sp.conv]);
    FirstOf(fmt, e.i + |sp.length|, [sp.conv]);
    InRange(fmt, e.i + |sp.length|, [sp.conv]);
  }

  /** The scan of a directive reads what was written. */
  lemma ScanSpelled(fmt: seq<char>, args: seq<Arg>, i: nat, k: nat, sp: Spec)
    requires WellSpelled(sp) && HasAt(fmt, i, Spell(sp))
    ensures i + 1 <= |fmt| && fmt[i] == '%'
    ensures var d := Scan(fmt, args, i + 1, k);
      d.i + 1 == i + |Spell(sp)| && d.i < |fmt| && fmt[d.i] == sp.conv && Means(d, sp, args, k)
  {
    hide ScanFlags, ScanWidth, ScanPrecision, ScanLength, WellSpelled, WidthOf, PrecOf, HasAt, Means;
    hide SizeText, DotText, FlagsRead, Int32, Bits, Lengthened, Dotted, Turned;
    InRange(fmt, i, Spell(sp));
    FirstOf(fmt, i, Spell(sp));
    Lengths(sp);
    FrontScanned(fmt, args, i, k, sp);
    var d0 := ScanFlags(fmt, Directive(NO_FLAGS, 0, 0, i + 1, k));
    BackScanned(fmt, args, ScanWidth(fmt, args, d0), k, sp);
    Meant(Scan(fmt, args, i + 1, k), d0.f, sp, args, k);
  }

  lemma InRange(fmt: seq<char>, i: nat, t: seq<char>)
    requires HasAt(fmt, i, t)
    ensures i + |t| <= |fmt|
  {
  }

  lemma Lengths(sp: Spec)
    requires WellSpelled(sp)
    ensures |Spell(sp)| == 1 + |sp.flags| + |SizeText(sp.width)| + |DotText(sp)| + |sp.length| + 1
    ensures (forall j :: 0 <= j < |sp.flags| ==> FlagChar(sp.flags[j])) && Letter(sp.conv)
    ensures sp.length in ["", "h", "hh", "l", "t", "j", "z"]
  {
  }

  lemma Meant(d: Directive, f: Flags, sp: Spec, args: seq<Arg>, k: nat)
    requires FlagsRead(NO_FLAGS, f, sp.flags) && d.width == WidthOf(sp, args, k) && d.prec == PrecOf(sp, args, k)
    requires d.k == k + Stars(sp.width) + Stars(sp.prec)
    requires d.f == Lengthened(Dotted(Turned(f, sp, args, k), sp), sp.length)
    requires sp.length in ["", "h", "hh", "l", "t", "j", "z"]
    ensures Means(d, sp, args, k)
  {
    hide WidthOf, PrecOf, Int32, Bits, Lengthened, Dotted, Turned;
    TurnedIs(f, sp, args, k);
    DottedIs(Turned(f, sp, args, k), sp);
    LengthenedIs(Dotted(Turned(f, sp, args, k), sp), sp.length);
    assert Got(false, f.zeropad, '0', sp.flags) by { assert Got(Chosen(NO_FLAGS, '0'), Chosen(f, '0'), '0', sp.flags); }
    assert Got(false, f.left, '-', sp.flags) by { assert Got(Chosen(NO_FLAGS, '-'), Chosen(f, '-'), '-', sp.flags); }
    assert Got(false, f.plus, '+', sp.flags) by { assert Got(Chosen(NO_FLAGS, '+'), Chosen(f, '+'), '+', sp.flags); }
    assert Got(false, f.space, ' ', sp.flags) by { assert Got(Chosen(NO_FLAGS, ' '), Chosen(f, ' '), ' ', sp.flags); }
    assert Got(false, f.hash, '#', sp.flags) by { assert Got(Chosen(NO_FLAGS, '#'), Chosen(f, '#'), '#', sp.flags); }
    hide FlagsRead;
  }

  predicate SameMarks(f: Flags, g: Flags)
  {
    && g.zeropad == f.zeropad && g.plus == f.plus && g.space == f.space && g.hash == f.hash && g.upper == f.upper
    && g.longLong == f.longLong
  }

  lemma TurnedIs(f: Flags, sp: Spec, args: seq<Arg>, k: nat)
    ensures var g := Turned(f, sp, args, k);
      && SameMarks(f, g) && g.precision == f.precision && g.long == f.long && g.short == f.short && g.chr == f.chr
      && (g.left <==> f.left || (sp.width.Star? && Int32(Bits(args, k)) < 0))
  {
  }

  lemma DottedIs(f: Flags, sp: Spec)
    ensures var g := Dotted(f, sp);
      && SameMarks(f, g) && g.left == f.left && g.long == f.long && g.short == f.short && g.chr == f.chr
      && (g.precision <==> f.precision || sp.dot)
  {
  }

  lemma LengthenedIs(f: Flags, length: seq<char>)
    requires length in ["", "h", "hh", "l", "t", "j", "z"]
    ensures var g := Lengthened(f, length);
      && SameMarks(f, g) && g.left == f.left && g.precision == f.precision
      && (g.long <==> f.long || length == "l" || length == "t" || length == "j" || length == "z")
      && (g.short <==> f.short || length == "h" || length == "hh") && (g.chr <==> f.chr || length == "hh")
  {
    hide Lengthened;
    LengthCases(f, length);
    if length == "" {
    } else if length == "h" {
    } else if length == "hh" {
    } else {
    }
  }

  lemma LengthCases(f: Flags, length: seq<char>)
    ensures length == "" ==> Lengthened(f, length) == f
    ensures length == "h" ==> Lengthened(f, length) == f.(short := true)
    ensures length == "hh" ==> Lengthened(f, length) == f.(short := true, chr := true)
    ensures length != "" && length != "h" && length != "hh" ==> Lengthened(f, length) == f.(long := true)
  {
  }

  // ---------- one directive at a time ----------

  /** Where the value of a directive is taken from, after its stars. */
  function ValueAt(sp: Spec, k: nat): (kv: nat)
  {
    k + Stars(sp.width) + Stars(sp.prec)
  }

  /** At place i, with argument k next, the format writes the text for a directive and then the rest. */
  ghost predicate Writes(fmt: seq<char>, args: seq<Arg>, i: nat, k: nat, sp: Spec, text: seq<char>)
    requires i <= |fmt| && Complete(fmt, args, i, k)
  {
    var i1 := i + |Spell(sp)|;
    var k1 := ValueAt(sp, k) + if sp.conv == '%' then 0 else 1;
    && i1 <= |fmt| && Complete(fmt, args, i1, k1)
    && Formatted(fmt, args, i, k) == text + Formatted(fmt, args, i1, k1)
  }

  /** A directive is written out, then the rest of the format. */
  lemma OneDirective(fmt: seq<char>, args: seq<Arg>, i: nat, k: nat, sp: Spec)
    requires i <= |fmt| && WellSpelled(sp) && HasAt(fmt, i, Spell(sp)) && Complete(fmt, args, i, k)
    ensures i + 1 <= |fmt|
    ensures var d := Scan(fmt, args, i + 1, k);
      Means(d, sp, args, k) && Writes(fmt, args, i, k, sp, Conversion(sp.conv, d, args))
  {
    hide Scan, Conversion, WellSpelled, HasAt, WidthOf, PrecOf;
    Lengths(sp);
    ScanSpelled(fmt, args, i, k, sp);
  }

  /** Characters outside directives are copied. */
  lemma PlainCharacter(fmt: seq<char>, args: seq<Arg>, i: nat, k: nat)
    requires i < |fmt| && fmt[i] != '%' && Complete(fmt, args, i, k)
    ensures Complete(fmt, args, i + 1, k) && Formatted(fmt, args, i, k) == [fmt[i]] + Formatted(fmt, args, i + 1, k)
  {
  }

  function Spaces(n: int): (s: seq<char>)
  {
    seq(if n > 0 then n else 0, _ => ' ')
  }

  lemma SpacesAre(n: int)
    ensures Rep(' ', n) == Spaces(n)
  {
    RepAll(' ', n);
  }

  /** A body in a field of width w. */
  function Placed(body: seq<char>, w: nat, left: bool): (t: seq<char>)
  {
    if left then body + Spaces(w - |body|) else Spaces(w - |body|) + body
  }

  lemma FieldIs(body: seq<char>, d: Directive)
    ensures Field(body, d) == Placed(body, d.width, d.f.left)
  {
    SpacesAre(d.width - |body|);
  }

  /** `%s`: the string up to its precision, in its field. */
  lemma StringLaw(fmt: seq<char>, args: seq<Arg>, i: nat, k: nat, sp: Spec)
    requires i <= |fmt| && WellSpelled(sp) && HasAt(fmt, i, Spell(sp)) && Complete(fmt, args, i, k) && sp.conv == 's'
    requires ValueAt(sp, k) < |args| && args[ValueAt(sp, k)].Str?
    ensures var s := args[ValueAt(sp, k)].chars; var n := PrecOf(sp, args, k);
      var body := if sp.dot && n < |s| then s[..n] else s;
      Writes(fmt, args, i, k, sp, Placed(body, WidthOf(sp, args, k), LeftOf(sp, args, k)))
  {
    hide Scan, Writes, Complete, WellSpelled, HasAt, WidthOf, PrecOf, LeftOf, Spell, Field, Placed;
    OneDirective(fmt, args, i, k, sp);
    var d := Scan(fmt, args, i + 1, k);
    var s := args[ValueAt(sp, k)].chars;
    assert s[..|s|] == s;
    FieldIs(Clipped(s, d), d);
  }

  /** `%c`: one character in its field. */
  lemma CharLaw(fmt: seq<char>, args: seq<Arg>, i: nat, k: nat, sp: Spec)
    requires i <= |fmt| && WellSpelled(sp) && HasAt(fmt, i, Spell(sp)) && Complete(fmt, args, i, k) && sp.conv == 'c'
    ensures var c := (Bits(args, ValueAt(sp, k)) % 256) as char;
      Writes(fmt, args, i, k, sp, Placed([c], WidthOf(sp, args, k), LeftOf(sp, args, k)))
  {
    hide Scan, Writes, Complete, WellSpelled, HasAt, WidthOf, PrecOf, LeftOf, Spell, Field, Placed;
    OneDirective(fmt, args, i, k, sp);
    var d := Scan(fmt, args, i + 1, k);
    BitsAre(args, ValueAt(sp, k));
    FieldIs([(Bits(args, ValueAt(sp, k)) % 256) as char], d);
  }

  /** `%%` writes a percent sign and takes no argument. */
  lemma PercentLaw(fmt: seq<char>, args: seq<Arg>, i: nat, k: nat, sp: Spec)
    requires i <= |fmt| && WellSpelled(sp) && HasAt(fmt, i, Spell(sp)) && Complete(fmt, args, i, k) && sp.conv == '%'
    ensures Writes(fmt, args, i, k, sp, "%")
  {
    hide Scan, Writes, Complete, WellSpelled, HasAt, Spell, Means;
    OneDirective(fmt, args, i, k, sp);
  }

  // ---------- integers ----------

  predicate IntegerLetter(c: char)
  {
    c == 'd' || c == 'i' || c == 'u' || c == 'x' || c == 'X' || c == 'o' || c == 'b'
  }

  function RadixOf(c: char): (base: nat)
  {
    if c == 'X' || c == 'x' then 16 else if c == 'o' then 8 else if c == 'b' then 2 else 10
  }

  /** How many values the length modifier leaves. */
  function Span(length: seq<char>): (m: nat)
    ensures m > 0 && m % 2 == 0
  {
    if length == "hh" then 0x100
    else if length == "h" then 0x1_0000
    else if length == "" then 0x1_0000_0000
    else 0x1_0000_0000_0000_0000
  }

  /** The value of an argument: its low bits, with a sign for d and i. */
  function ValueOf(sp: Spec, bits: nat): (v: int)
    ensures (v - bits) % Span(sp.length) == 0
    ensures sp.conv == 'd' || sp.conv == 'i' ==> 0 <= 2 * v + Span(sp.length) < 2 * Span(sp.length)
    ensures sp.conv != 'd' && sp.conv != 'i' ==> 0 <= v < Span(sp.length)
  {
    var m := Span(sp.length);
    var r := bits % m;
    var v := if (sp.conv == 'd' || sp.conv == 'i') && 2 * r >= m then r - m else r;
    Remainder(bits, m, r, v);
    v
  }

  lemma Remainder(bits: nat, m: nat, r: nat, v: int)
    requires m > 0 && r == bits % m && (v == r || v == r - m)
    ensures (v - bits) % m == 0
  {
    var q := bits / m;
    assert v - bits == (if v == r then -q else -q - 1) * m;
    DivUnique(v - bits, m, if v == r then -q else -q - 1, 0);
  }

  function Magnitude(v: int): (n: nat) { if v < 0 then -v else v }

  function SignText(sp: Spec, v: int): (s: seq<char>)
  {
    if v < 0 then "-"
    else if (sp.conv == 'd' || sp.conv == 'i') && '+' in sp.flags then "+"
    else if (sp.conv == 'd' || sp.conv == 'i') && ' ' in sp.flags then " "
    else ""
  }

  /** Zeros in front of n digits: up to the precision, or up to the width with the flag 0; never past 32 places. */
  function ZerosFor(sp: Spec, n: nat, sign: nat, p: nat, w: nat, left: bool): (z: nat)
  {
    var goal := if left then 0 else if sp.dot then p else if '0' in sp.flags then w - sign else 0;
    var most := if goal > 32 then 32 else goal;
    if most > n then most - n else 0
  }

  /** The text around the digits of an integer. */
  function IntegerText(sp: Spec, digits: seq<char>, v: int, p: nat, w: nat, left: bool): (t: seq<char>)
  {
    var z := ZerosFor(sp, |digits|, |SignText(sp, v)|, p, w, left);
    var sign := if |digits| + z < 32 then SignText(sp, v) else "";
    var body := sign + seq(z, _ => '0') + digits;
    if '0' in sp.flags && !sp.dot && !left then body else Placed(body, w, left)
  }

  /** The flags that an integer conversion works with. */
  lemma IntegerFlags(sp: Spec, d: Directive, args: seq<Arg>, k: nat)
    requires IntegerLetter(sp.conv) && Means(d, sp, args, k) && sp.length in ["", "h", "hh", "l", "t", "j", "z"]
    ensures var g := IntFlags(sp.conv, d.f); var signed := sp.conv == 'd' || sp.conv == 'i';
      && (g.zeropad <==> '0' in sp.flags && !sp.dot) && (g.left <==> LeftOf(sp, args, k))
      && (g.plus <==> signed && '+' in sp.flags) && (g.space <==> signed && ' ' in sp.flags)
      && (g.hash ==> '#' in sp.flags && RadixOf(sp.conv) != 10) && (g.upper <==> sp.conv == 'X')
      && (g.precision <==> sp.dot) && BaseOf(sp.conv) == RadixOf(sp.conv)
    ensures Modulus(d.f) == Span(sp.length)
  {
    hide LeftOf, WidthOf, PrecOf, IntFlags, RadixOf, Modulus, Span;
    IntFlagsAre(sp.conv, d.f);
    ModulusIs(sp.length, d.f);
  }

  lemma IntFlagsAre(c: char, f: Flags)
    requires IntegerLetter(c)
    ensures var g := IntFlags(c, f);
      && (g.zeropad <==> f.zeropad && !f.precision) && g.left == f.left && g.precision == f.precision
      && (g.plus <==> f.plus && (c == 'd' || c == 'i')) && (g.space <==> f.space && (c == 'd' || c == 'i'))
      && (g.hash <==> f.hash && RadixOf(c) != 10) && (g.upper <==> f.upper || c == 'X')
    ensures BaseOf(c) == RadixOf(c)
  {
    hide RadixOf, BaseOf, DropHash, Upper, DropSign, DropZero;
    BaseIs(c);
    HashIs(c, f);
    UpperIs(c, DropHash(c, f));
    SignsAre(c, Upper(c, DropHash(c, f)));
    ZeroIs(DropSign(c, Upper(c, DropHash(c, f))));
  }

  lemma HashIs(c: char, f: Flags)
    ensures var g := DropHash(c, f);
      && (g.hash <==> f.hash && BaseOf(c) != 10) && g.zeropad == f.zeropad && g.left == f.left && g.plus == f.plus
      && g.space == f.space && g.upper == f.upper && g.precision == f.precision
  {
    hide BaseOf;
  }

  lemma UpperIs(c: char, f: Flags)
    ensures var g := Upper(c, f);
      && (g.upper <==> f.upper || c == 'X') && g.zeropad == f.zeropad && g.left == f.left && g.plus == f.plus
      && g.space == f.space && g.hash == f.hash && g.precision == f.precision
  {
  }

  lemma SignsAre(c: char, f: Flags)
    ensures var g := DropSign(c, f); var signed := c == 'd' || c == 'i';
      && (g.plus <==> f.plus && signed) && (g.space <==> f.space && signed) && g.zeropad == f.zeropad
      && g.left == f.left && g.hash == f.hash && g.upper == f.upper && g.precision == f.precision
  {
  }

  lemma ZeroIs(f: Flags)
    ensures var g := DropZero(f);
      && (g.zeropad <==> f.zeropad && !f.precision) && g.left == f.left && g.plus == f.plus && g.space == f.space
      && g.hash == f.hash && g.upper == f.upper && g.precision == f.precision
  {
  }

  lemma BaseIs(c: char)
    requires IntegerLetter(c)
    ensures BaseOf(c) == RadixOf(c)
  {
  }

  lemma ModulusIs(length: seq<char>, f: Flags)
    requires length in ["", "h", "hh", "l", "t", "j", "z"]
    requires (f.short <==> length == "h" || length == "hh") && (f.chr <==> length == "hh")
    requires f.long <==> length == "l" || length == "t" || length == "j" || length == "z"
    ensures Modulus(f) == Span(length)
  {
  }

  lemma ValueIs(sp: Spec, f: Flags, bits: nat)
    requires Modulus(f) == Span(sp.length)
    ensures IntValue(sp.conv, f, bits) == ValueOf(sp, bits)
  {
    hide Modulus, Span;
  }

  /** What is written around the digits is what the directive asks for. */
  lemma PartsAre(sp: Spec, ds: seq<char>, v: int, p: nat, w: nat, g: Flags)
    requires |ds| <= BUFFER_SIZE && IntegerLetter(sp.conv) && (!sp.dot ==> p == 0)
    requires var signed := sp.conv == 'd' || sp.conv == 'i';
      && (g.zeropad <==> '0' in sp.flags && !sp.dot) && (g.plus <==> signed && '+' in sp.flags)
      && (g.space <==> signed && ' ' in sp.flags)
    ensures Parts(ds, v < 0, p, w, g) == IntegerText(sp, Reverse(ds), v, p, w, g.left)
  {
    hide Reverse, ZeroCount, ZerosFor, ZeroWidth, Sign, SignText, Spaces, Placed, Parts, IntegerText;
    var neg := v < 0;
    SignIs(sp, v, g);
    CountIs(sp, |ds|, v, p, w, g);
    WidthIs(neg, w, g);
    var z := ZeroCount(|ds|, neg, p, w, g);
    var sign := if |ds| + z < 32 then Sign(neg, g) else [];
    var pad := ZeroWidth(neg, w, g) - z - |ds| - |sign|;
    PartsNamed(ds, neg, p, w, g, z, sign, pad);
    TextNamed(sp, Reverse(ds), v, p, w, g.left, z, sign);
    Assembled(sign, seq(z, _ => '0'), Reverse(ds), w, pad, g.left, g.zeropad);
  }

  lemma PartsNamed(ds: seq<char>, neg: bool, p: nat, w: nat, g: Flags, z: nat, sign: seq<char>, pad: int)
    requires z == ZeroCount(|ds|, neg, p, w, g) && sign == (if |ds| + z < 32 then Sign(neg, g) else [])
    requires pad == ZeroWidth(neg, w, g) - z - |ds| - |sign|
    ensures Parts(ds, neg, p, w, g) ==
      Spaces(if !g.left && !g.zeropad then pad else 0) + sign + (seq(z, _ => '0') + Reverse(ds)) +
      Spaces(if g.left then pad else 0)
  {
    hide Reverse, Rep, ZeroCount, ZeroWidth, Sign, Spaces;
    ZerosAre(z);
    SpacesAre(pad);
    SpacesAre(0);
  }

  lemma TextNamed(sp: Spec, digits: seq<char>, v: int, p: nat, w: nat, left: bool, z: nat, sign: seq<char>)
    requires z == ZerosFor(sp, |digits|, |SignText(sp, v)|, p, w, left)
    requires sign == if |digits| + z < 32 then SignText(sp, v) else ""
    ensures var body := sign + seq(z, _ => '0') + digits;
      IntegerText(sp, digits, v, p, w, left) ==
      if '0' in sp.flags && !sp.dot && !left then body else Placed(body, w, left)
  {
    hide ZerosFor, SignText, Placed;
  }

  lemma Assembled(sign: seq<char>, zeros: seq<char>, ds: seq<char>, w: nat, pad: int, left: bool, zeropad: bool)
    requires left || !zeropad ==> pad == w - |sign| - |zeros| - |ds|
    ensures Spaces(if !left && !zeropad then pad else 0) + sign + (zeros + ds) + Spaces(if left then pad else 0) ==
      var body := sign + zeros + ds; if zeropad && !left then body else Placed(body, w, left)
  {
    var body := sign + zeros + ds;
    assert body == sign + (zeros + ds);
    if left {
      assert Spaces(0) + sign + (zeros + ds) + Spaces(pad) == body + Spaces(pad);
    } else {
      var n := if zeropad then 0 else pad;
      assert Spaces(n) + sign + (zeros + ds) + Spaces(0) == Spaces(n) + body;
      assert Spaces(0) + body == body;
    }
  }

  lemma SignIs(sp: Spec, v: int, g: Flags)
    requires var signed := sp.conv == 'd' || sp.conv == 'i';
      (g.plus <==> signed && '+' in sp.flags) && (g.space <==> signed && ' ' in sp.flags)
    ensures Sign(v < 0, g) == SignText(sp, v)
  {
  }

  lemma WidthIs(neg: bool, w: nat, g: Flags)
    ensures g.left || !g.zeropad ==> ZeroWidth(neg, w, g) == w
  {
  }

  lemma CountIs(sp: Spec, n: nat, v: int, p: nat, w: nat, g: Flags)
    requires n <= BUFFER_SIZE && (!sp.dot ==> p == 0) && (g.zeropad <==> '0' in sp.flags && !sp.dot)
    requires Sign(v < 0, g) == SignText(sp, v)
    ensures ZeroCount(n, v < 0, p, w, g) == ZerosFor(sp, n, |SignText(sp, v)|, p, w, g.left)
  {
    hide SignText;
  }

  lemma ZerosAre(z: nat)
    ensures Rep('0', z) == seq(z, _ => '0')
  {
    RepAll('0', z);
  }

  /**
   * The numeral of the value in the base and case of the directive, and nothing for 0 with a precision;
   * of a binary number that does not fit 32 places, the low bits.
   */
  predicate DigitsFor(sp: Spec, digits: seq<char>, v: int)
  {
    && (v == 0 && sp.dot ==> digits == "")
    && (!(v == 0 && sp.dot) && (sp.conv == 'b' ==> v < 0x1_0000_0000) ==>
          Numeral(digits, Magnitude(v), RadixOf(sp.conv), sp.conv == 'X'))
    && (!(v == 0 && sp.dot) && sp.conv == 'b' ==> LowNumeral(digits, v % 0x1_0000_0000))
  }

  /** Integers: the digits of the value, in the right base and case, with sign, zeros and spaces as asked for. */
  lemma IntegerLaw(fmt: seq<char>, args: seq<Arg>, i: nat, k: nat, sp: Spec) returns (digits: seq<char>)
    requires i <= |fmt| && WellSpelled(sp) && HasAt(fmt, i, Spell(sp)) && Complete(fmt, args, i, k)
    requires IntegerLetter(sp.conv) && ('#' !in sp.flags || RadixOf(sp.conv) == 10)
    ensures DigitsFor(sp, digits, ValueOf(sp, Bits(args, ValueAt(sp, k))))
    ensures var v := ValueOf(sp, Bits(args, ValueAt(sp, k)));
      var text := IntegerText(sp, digits, v, PrecOf(sp, args, k), WidthOf(sp, args, k), LeftOf(sp, args, k));
      Writes(fmt, args, i, k, sp, text)
  {
    hide Scan, Writes, Complete, HasAt, WidthOf, PrecOf, LeftOf, Spell, IntegerText, NumberText, Converted, ValueOf;
    hide IntFlags, Parts, IntValue, DigitsFor, RadixOf, BaseOf, Bits, WellSpelled;
    OneDirective(fmt, args, i, k, sp);
    var d := Scan(fmt, args, i + 1, k);
    var v := ValueOf(sp, Bits(args, ValueAt(sp, k)));
    var g := IntFlags(sp.conv, d.f);
    Lengths(sp);
    IntegerFlags(sp, d, args, k);
    BitsAre(args, ValueAt(sp, k));
    if !sp.dot { PrecUnset(sp, args, k); }
    ValueIs(sp, d.f, Bits(args, ValueAt(sp, k)));
    var base := RadixOf(sp.conv);
    var ds := Converted(Magnitude(v), base, g);
    TextParts(Magnitude(v), v < 0, base, d.prec, d.width, g);
    PartsAre(sp, ds, v, d.prec, d.width, g);
    digits := Reverse(ds);
    DigitsAre(sp, v, base, g);
  }

  lemma PrecUnset(sp: Spec, args: seq<Arg>, k: nat)
    requires WellSpelled(sp) && !sp.dot
    ensures PrecOf(sp, args, k) == 0
  {
  }

  /** Binary digits of a number that does not fit the 32 places: its low bits. */
  predicate LowNumeral(s: seq<char>, n: nat)
  {
    |s| <= 32 && (forall j :: 0 <= j < |s| ==> s[j] == '0' || s[j] == '1') && Horner(s, 2) == n
  }

  lemma DigitsAre(sp: Spec, v: int, base: nat, g: Flags)
    requires IntegerLetter(sp.conv) && base == RadixOf(sp.conv) && (g.upper <==> sp.conv == 'X')
    requires (g.precision <==> sp.dot) && Magnitude(v) < WORD_LIMIT && (sp.conv == 'b' ==> v >= 0)
    ensures DigitsFor(sp, Reverse(Converted(Magnitude(v), base, g)), v)
  {
    hide RevDigits, Numeral, Horner, Fits;
    var n := Magnitude(v);
    var ds := Converted(n, base, g);
    if !(v == 0 && sp.dot) {
      if sp.conv == 'b' {
        BinaryRange();
        if v < 0x1_0000_0000 {
          BinaryFits(n, 32);
          NumeralOf(n, 2, g.upper, 32);
        }
        LowBits(n, g.upper, 32);
        HornerReverse(ds, 2);
        forall j | 0 <= j < |ds| ensures Reverse(ds)[j] == '0' || Reverse(ds)[j] == '1' {
          ReversedAt(ds, j);
          BinaryDigits(n, g.upper, 32, |ds| - 1 - j);
        }
      } else {
        WordFits(n, base);
        NumeralOf(n, base, g.upper, 22);
      }
    }
  }

  lemma BinaryRange()
    ensures Exp2(32) == 0x1_0000_0000
  {
    assert Exp2(8) == 256;
    assert Exp2(16) == 0x1_0000;
    assert Exp2(24) == 0x100_0000;
  }

  // ---------- what a reader gets back ----------

  lemma {:induction false} HornerZeros(z: nat, s: seq<char>, base: nat)
    ensures Horner(seq(z, _ => '0') + s, base) == Horner(s, base)
    decreases |s|, z
  {
    var t := seq(z, _ => '0') + s;
    if s != [] {
      assert t[..|t| - 1] == seq(z, _ => '0') + s[..|s| - 1];
      HornerZeros(z, s[..|s| - 1], base);
    } else if z > 0 {
      assert t[..|t| - 1] == seq(z - 1, _ => '0') + s;
      HornerZeros(z - 1, s, base);
    }
  }

  lemma NumeralReads(s: seq<char>, n: nat, base: nat, upper: bool)
    requires Numeral(s, n, base, upper) && 0 < base <= 16
    ensures AllDigits(s, base)
  {
    hide Horner;
    forall i | 0 <= i < |s| ensures DigitValue(s[i]) < base { assert DigitOf(s[i], base, upper); }
  }

  /** The text of an integer reads back as its sign and value. */
  lemma ReadsBack(sp: Spec, digits: seq<char>, v: int, base: nat, upper: bool, p: nat, w: nat, left: bool)
    requires Numeral(digits, Magnitude(v), base, upper) && 2 <= base <= 16
    requires |digits| + ZerosFor(sp, |digits|, |SignText(sp, v)|, p, w, left) < 32 || SignText(sp, v) == ""
    ensures ReadNumber(IntegerText(sp, digits, v, p, w, left), base) == Number(v < 0, Magnitude(v))
  {
    hide Numeral, ZerosFor, ReadNumber, Horner, Rep, IntegerText, AllDigits, SignText;
    var z := ZerosFor(sp, |digits|, |SignText(sp, v)|, p, w, left);
    var sign := if |digits| + z < 32 then SignText(sp, v) else "";
    SignKinds(sp, v);
    var ds := seq(z, _ => '0') + digits;
    NumeralReads(digits, Magnitude(v), base, upper);
    AllWithZeros(z, digits, base);
    HornerZeros(z, digits, base);
    NumeralLong(digits, Magnitude(v), base, upper);
    var a, b := TextSpaced(sp, digits, v, p, w, left, z, sign);
    ReadPadded(a, sign, ds, b, base);
  }

  lemma TextSpaced(sp: Spec, digits: seq<char>, v: int, p: nat, w: nat, left: bool, z: nat, sign: seq<char>)
    returns (a: int, b: int)
    requires z == ZerosFor(sp, |digits|, |SignText(sp, v)|, p, w, left)
    requires sign == if |digits| + z < 32 then SignText(sp, v) else ""
    ensures IntegerText(sp, digits, v, p, w, left) == Rep(' ', a) + sign + (seq(z, _ => '0') + digits) + Rep(' ', b)
  {
    hide ZerosFor, SignText, Rep, IntegerText;
    TextNamed(sp, digits, v, p, w, left, z, sign);
    var ds := seq(z, _ => '0') + digits;
    var body := sign + seq(z, _ => '0') + digits;
    assert body == sign + ds;
    var zero := '0' in sp.flags && !sp.dot && !left;
    a := if !left && !zero then w - |body| else 0;
    b := if left then w - |body| else 0;
    SpacesAre(a);
    SpacesAre(b);
    Around(sign, ds, a, b);
  }

  lemma Around(sign: seq<char>, ds: seq<char>, a: int, b: int)
    ensures a <= 0 ==> Spaces(a) + sign + ds + Spaces(b) == sign + ds + Spaces(b)
    ensures b <= 0 ==> Spaces(a) + sign + ds + Spaces(b) == Spaces(a) + (sign + ds)
    ensures a <= 0 && b <= 0 ==> Spaces(a) + sign + ds + Spaces(b) == sign + ds
  {
  }

  lemma NumeralLong(s: seq<char>, n: nat, base: nat, upper: bool)
    requires Numeral(s, n, base, upper)
    ensures |s| > 0 && Horner(s, base) == n
  {
    hide Horner;
  }

  lemma AllWithZeros(z: nat, s: seq<char>, base: nat)
    requires AllDigits(s, base) && base > 0
    ensures AllDigits(seq(z, _ => '0') + s, base)
  {
  }

  lemma SignKinds(sp: Spec, v: int)
    ensures SignText(sp, v) in [[], ['-'], ['+'], [' ']] && (SignText(sp, v) == ['-'] <==> v < 0)
  {
  }

  // ---------- pointers, marks, and a directive by itself ----------

  /** A format that is one directive. */
  lemma Alone(args: seq<Arg>, sp: Spec)
    requires WellSpelled(sp)
    ensures HasAt(Spell(sp), 0, Spell(sp)) && Complete(Spell(sp), args, 0, 0)
    ensures forall k: nat ::
      Complete(Spell(sp), args, |Spell(sp)|, k) && Formatted(Spell(sp), args, |Spell(sp)|, k) == []
  {
    hide WellSpelled, Scan, Spell, Means;
    var fmt := Spell(sp);
    assert fmt[0..|fmt|] == fmt;
    ScanSpelled(fmt, args, 0, 0, sp);
  }

  /** `%.*s` writes as much of its string as its argument says. */
  lemma StarString(n: nat, s: seq<char>)
    requires n < 0x8000_0000
    ensures Complete("%.*s", [Num(n), Str(s)], 0, 0)
    ensures Formatted("%.*s", [Num(n), Str(s)], 0, 0) == if n < |s| then s[..n] else s
  {
    hide Formatted, Complete, Scan, WellSpelled, HasAt, PrecOf, WidthOf, LeftOf, Placed;
    var sp := Spec("", Unset, true, Star, "", 's');
    var args := [Num(n), Str(s)];
    assert Spell(sp) == "%.*s";
    StarSizes(args, n, sp);
    Alone(args, sp);
    StringLaw("%.*s", args, 0, 0, sp);
    NoField(if n < |s| then s[..n] else s);
  }

  lemma StarSizes(args: seq<Arg>, n: nat, sp: Spec)
    requires |args| == 2 && args[0] == Num(n) && n < 0x8000_0000 && sp == Spec("", Unset, true, Star, "", 's')
    ensures PrecOf(sp, args, 0) == n && WidthOf(sp, args, 0) == 0 && !LeftOf(sp, args, 0) && ValueAt(sp, 0) == 1
    ensures WellSpelled(sp)
  {
  }

  lemma NoField(s: seq<char>)
    ensures Placed(s, 0, false) == s
  {
  }

  /** `%p` writes sixteen digits in upper case. */
  lemma PointerLaw(bits: nat, sp: Spec)
    requires sp == Spec("", Unset, false, Unset, "", 'p') && bits < 0x1_0000_0000_0000_0000
    ensures Complete("%p", [Num(bits)], 0, 0)
    ensures var t := Formatted("%p", [Num(bits)], 0, 0);
      |t| == 16 && (forall i :: 0 <= i < 16 ==> DigitOf(t[i], 16, true)) && Horner(t, 16) == bits
  {
    hide RevDigits, Numeral, Horner, Fits, Parts, NumberText, Formatted, Complete, Scan, Means;
    var args := [Num(bits)];
    assert Spell(sp) == "%p";
    Alone(args, sp);
    OneDirective("%p", args, 0, 0, sp);
    var d := Scan("%p", args, 1, 0);
    var f := PointerFlags(d, sp, args);
    TextParts(bits, false, 16, 0, 16, f);
    SixteenDigits(bits);
    var ds := RevDigits(bits, 16, true, BUFFER_SIZE);
    NumeralOf(bits, 16, true, 16);
    PointerParts(ds, f);
    var t := seq(16 - |ds|, _ => '0') + Reverse(ds);
    assert Formatted("%p", args, 0, 0) == t;
    HornerZeros(16 - |ds|, Reverse(ds), 16);
    assert forall i :: 0 <= i < 16 ==> DigitOf(t[i], 16, true) by { NumeralDigits(Reverse(ds), bits); }
    NumeralLong(Reverse(ds), bits, 16, true);
  }

  lemma NumeralDigits(s: seq<char>, n: nat)
    requires Numeral(s, n, 16, true)
    ensures forall i :: 0 <= i < |s| ==> DigitOf(s[i], 16, true)
  {
    hide Horner;
  }

  lemma PointerFlags(d: Directive, sp: Spec, args: seq<Arg>) returns (f: Flags)
    requires sp == Spec("", Unset, false, Unset, "", 'p') && Means(d, sp, args, 0)
    ensures d.prec == 0 && d.k == 0 && f == d.f.(zeropad := true, upper := true) && !f.hash && !f.left && !f.precision
    ensures Sign(false, f) == [] && ZeroWidth(false, 16, f) == 16
  {
    f := d.f.(zeropad := true, upper := true);
  }

  lemma SixteenDigits(bits: nat)
    requires bits < 0x1_0000_0000_0000_0000
    ensures Fits(bits, 16, 16) && 0 < |RevDigits(bits, 16, true, BUFFER_SIZE)| <= 16
  {
    SixteenFits(bits, 16);
    FewDigits(bits, 16, true, BUFFER_SIZE, 16);
  }

  ghost function Sixteen(n: nat): (r: nat)
  {
    if n == 0 then 1 else 16 * Sixteen(n - 1)
  }

  lemma {:induction false} SixteenDown(value: nat, n: nat)
    requires n > 0 && value < Sixteen(n)
    ensures Fits(value, 16, n)
  {
    if n > 1 { SixteenDown(value / 16, n - 1); }
  }

  lemma SixteenFits(bits: nat, n: nat)
    requires bits < 0x1_0000_0000_0000_0000 && n == 16
    ensures Fits(bits, 16, n)
  {
    assert Sixteen(4) == 0x1_0000;
    assert Sixteen(8) == 0x1_0000_0000;
    assert Sixteen(12) == 0x1_0000_0000_0000;
    SixteenDown(bits, n);
  }

  lemma PointerParts(ds: seq<char>, f: Flags)
    requires 0 < |ds| <= 16 && f.zeropad && !f.left && Sign(false, f) == [] && ZeroWidth(false, 16, f) == 16
    ensures Parts(ds, false, 0, 16, f) == seq(16 - |ds|, _ => '0') + Reverse(ds)
  {
    hide Rep, Reverse;
    NoRep(' ');
    ZerosAre(16 - |ds|);
  }

  /** `#` puts `0x`, `0X`, `0` or `0b` before the digits of a number other than 0. */
  lemma HashLaw(bits: nat, length: seq<char>, c: char) returns (digits: seq<char>)
    requires c == 'x' || c == 'X' || c == 'o' || c == 'b'
    requires length in ["", "h", "hh", "l", "t", "j", "z"]
    requires var v := bits % Span(length); v > 0 && (c == 'b' ==> v < 0x4000_0000)
    ensures var fmt := "%#" + length + [c];
      && Complete(fmt, [Num(bits)], 0, 0) && Numeral(digits, bits % Span(length), RadixOf(c), c == 'X')
      && Formatted(fmt, [Num(bits)], 0, 0) ==
         (if c == 'x' then "0x" else if c == 'X' then "0X" else if c == 'o' then "0" else "0b") + digits
  {
    hide RevDigits, Numeral, Horner, Fits, NumberText, Formatted, Complete, Scan, Means, IntFlags, IntValue;
    var sp := Spec("#", Unset, false, Unset, length, c);
    var args, fmt := [Num(bits)], "%#" + length + [c];
    assert Spell(sp) == fmt;
    Alone(args, sp);
    OneDirective(fmt, args, 0, 0, sp);
    var d := Scan(fmt, args, 1, 0);
    IntegerFlags(sp, d, args, 0);
    ValueIs(sp, d.f, bits);
    HashFlags(sp, d, args);
    var v, base, g := bits % Span(length), RadixOf(c), IntFlags(c, d.f);
    var n := if c == 'b' then 30 else 22;
    if c == 'b' {
      ThirtyBits();
      BinaryFits(v, 30);
    } else {
      WordFits(v, base);
    }
    FewDigits(v, base, g.upper, BUFFER_SIZE, n);
    NumeralOf(v, base, g.upper, n);
    var ds := RevDigits(v, base, g.upper, BUFFER_SIZE);
    digits := Reverse(ds);
    MarkedText(v, base, g, ds);
  }

  lemma ThirtyBits()
    ensures Exp2(30) == 0x4000_0000
  {
    assert Exp2(8) == 256;
    assert Exp2(16) == 0x1_0000;
    assert Exp2(24) == 0x100_0000;
  }

  lemma HashFlags(sp: Spec, d: Directive, args: seq<Arg>)
    requires sp.flags == "#" && sp.width.Unset? && !sp.dot && sp.prec.Unset? && Means(d, sp, args, 0)
    requires sp.conv == 'x' || sp.conv == 'X' || sp.conv == 'o' || sp.conv == 'b'
    ensures var g := IntFlags(sp.conv, d.f);
      d.width == 0 && d.prec == 0 && d.k == 0 && g.hash && !g.left && !g.zeropad && !g.plus && !g.space && !g.precision
    ensures !d.f.longLong && ValueOf(sp, Bits(args, 0)) == Bits(args, 0) % Span(sp.length)
  {
  }

  lemma MarkedText(v: nat, base: nat, g: Flags, ds: seq<char>)
    requires v > 0 && (base == 16 || base == 8 || base == 2) && 0 < |ds| <= 30
    requires ds == RevDigits(v, base, g.upper, BUFFER_SIZE)
    requires g.hash && !g.left && !g.zeropad && !g.plus && !g.space && !g.precision
    ensures NumberText(v, false, base, 0, 0, g) ==
      (if base == 16 then (if g.upper then "0X" else "0x") else if base == 8 then "0" else "0b") + Reverse(ds)
  {
    hide RevDigits, Reverse, Rep;
    var mark := Mark(base, g);
    NoRep(' ');
    NegRep(' ', 0 - |ds| - |mark|);
    NegRep('0', 0 - |ds|);
    NoRep('0');
    assert Core(ds, false, 0, 0, g) == ds;
    assert ds[..|ds|] == ds && mark[..|mark|] == mark;
    assert FormatRev(ds, false, base, 0, 0, g) == ds + mark;
    ReverseConcat(ds, mark);
    MarkReversed(base, g);
  }

  lemma MarkReversed(base: nat, g: Flags)
    requires base == 16 || base == 8 || base == 2
    ensures Reverse(Mark(base, g)) ==
      if base == 16 then (if g.upper then "0X" else "0x") else if base == 8 then "0" else "0b"
  {
    var m := Mark(base, g);
    assert |m| == 2 ==> m[1..] == [m[1]] && [m[1]][1..] == [];
    assert |m| == 1 ==> m[1..] == [];
  }
}
