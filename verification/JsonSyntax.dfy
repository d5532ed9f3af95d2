/** Concrete syntax trees of JSON texts (RFC 8259 and what the parser adds to it), and that the parser accepts
    exactly the texts of trees. */
module JsonSyntax {
  import opened Basics
  import opened Bytes
  import opened Json

  // ---- UTF-8 ----

  predicate Continuation(c: Byte) {
    0x80 <= c <= 0xBF
  }

  /** The number that payload bits and continuation bytes add up to. */
  function Joined(lead: int, a: Byte): int {
    lead * 64 + (a - 0x80)
  }

  /** A UTF-8 decoder (section 3 of RFC 3629): no overlong form, no surrogate, nothing above 0x10FFFF. */
  function Utf8Code(s: Text): Option<(int, Text)> {
    if s == [] then None
    else if s[0] <= 0x7F then Some((s[0], s[1..]))
    else if 0xC2 <= s[0] <= 0xDF && |s| >= 2 && Continuation(s[1]) then Some((Joined(s[0] - 0xC0, s[1]), s[2..]))
    else if 0xE0 <= s[0] <= 0xEF && |s| >= 3 && Continuation(s[1]) && Continuation(s[2]) then
      var u := Joined(Joined(s[0] - 0xE0, s[1]), s[2]);
      if u < 0x800 || 0xD800 <= u <= 0xDFFF then None else Some((u, s[3..]))
    else if 0xF0 <= s[0] <= 0xF4 && |s| >= 4 && Continuation(s[1]) && Continuation(s[2]) && Continuation(s[3]) then
      var u := Joined(Joined(Joined(s[0] - 0xF0, s[1]), s[2]), s[3]);
      if u < 0x1_0000 || u > 0x10_FFFF then None else Some((u, s[4..]))
    else None
  }

  /** What the parser appends for a code point decodes as that code point. */
  lemma Utf8Decodes(u: nat, tail: Text)
    requires u <= 0x10_FFFF && !(0xD800 <= u <= 0xDFFF)
    ensures Utf8Code(Utf8(u) + tail) == Some((u, tail))
  {
    hide Utf8, Utf8Code;
    if u < 0x80 {
      OneByte(u, tail);
    } else if u < 0x800 {
      TwoBytes(u, tail);
    } else if u < 0x1_0000 {
      ThreeBytes(u, tail);
    } else {
      FourBytes(u, tail);
    }
  }

  lemma OneByte(u: nat, tail: Text)
    requires u < 0x80
    ensures Utf8Code(Utf8(u) + tail) == Some((u, tail))
  {
    assert (Utf8(u) + tail)[1..] == tail;
  }

  lemma TwoBytes(u: nat, tail: Text)
    requires 0x80 <= u < 0x800
    ensures Utf8Code(Utf8(u) + tail) == Some((u, tail))
  {
    var s := Utf8(u) + tail;
    assert s[0] == 0xC0 + u / 0x40 && s[1] == 0x80 + u % 0x40 && s[2..] == tail;
  }

  lemma ThreeBytes(u: nat, tail: Text)
    requires 0x800 <= u < 0x1_0000 && !(0xD800 <= u <= 0xDFFF)
    ensures Utf8Code(Utf8(u) + tail) == Some((u, tail))
  {
    var s := Utf8(u) + tail;
    assert s[0] == 0xE0 + u / 0x1000 && s[1] == 0x80 + u / 0x40 % 0x40 && s[2] == 0x80 + u % 0x40 && s[3..] == tail;
    hide Utf8;
    assert u / 0x1000 * 64 + u / 0x40 % 0x40 == u / 0x40;
  }

  lemma FourBytes(u: nat, tail: Text)
    requires 0x1_0000 <= u <= 0x10_FFFF
    ensures Utf8Code(Utf8(u) + tail) == Some((u, tail))
  {
    var s := Utf8(u) + tail;
    assert s[0] == 0xF0 + u / 0x4_0000 % 0x10 && s[1] == 0x80 + u / 0x1000 % 0x40;
    assert s[2] == 0x80 + u / 0x40 % 0x40 && s[3] == 0x80 + u % 0x40 && s[4..] == tail;
    hide Utf8;
    assert u / 0x4_0000 % 0x10 == u / 0x4_0000;
    assert u / 0x4_0000 * 64 + u / 0x1000 % 0x40 == u / 0x1000;
    assert u / 0x1000 * 64 + u / 0x40 % 0x40 == u / 0x40;
  }

  // ---- strings ----

  const LOWER: Text := [48, 49, 50, 51, 52, 53, 54, 55, 56, 57, 97, 98, 99, 100, 101, 102]
  const UPPER: Text := [48, 49, 50, 51, 52, 53, 54, 55, 56, 57, 65, 66, 67, 68, 69, 70]

  /** A hexadecimal digit is one of sixteen, in either case. */
  lemma HexDigits(c: Byte, v: nat)
    ensures HexValue(c) == Some(v) <==> v < 16 && (c == LOWER[v] || c == UPPER[v])
  {
  }

  /** One character of a string as it is written: itself, a letter escape, a code unit, or a surrogate pair. */
  datatype Form = Raw(c: Byte) | Esc(letter: Byte) | Unit(digits: Text) | Pair(high: Text, low: Text)

  predicate FourHex(d: Text) {
    |d| == 4 && forall i :: 0 <= i < 4 ==> HexValue(d[i]).Some?
  }

  function HexNumber(d: Text): (n: nat)
    requires FourHex(d)
    ensures n < 0x1_0000
  {
    0x1000 * HexValue(d[0]).value + 0x100 * HexValue(d[1]).value + 0x10 * HexValue(d[2]).value + HexValue(d[3]).value
  }

  predicate HighSurrogate(n: nat) {
    0xD800 <= n < 0xDC00
  }

  /** Letters behind a backslash and the bytes they stand for (section 7 of RFC 8259). */
  const LETTERS: seq<(Byte, Byte)> :=
    [(34, 34), (92, 92), (47, 47), (98, 0x08), (102, 0x0C), (110, 0x0A), (114, 0x0D), (116, 0x09)]

  predicate Stands(letter: Byte, c: Byte) {
    exists i :: 0 <= i < 8 && LETTERS[i] == (letter, c)
  }

  lemma LettersStand(letter: Byte, c: Byte)
    ensures SimpleEscape(letter) == Some(c) <==> Stands(letter, c)
  {
    assert LETTERS[0] == (34, 34) && LETTERS[1] == (92, 92) && LETTERS[2] == (47, 47) && LETTERS[3] == (98, 0x08);
    assert LETTERS[4] == (102, 0x0C) && LETTERS[5] == (110, 0x0A) && LETTERS[6] == (114, 0x0D) && LETTERS[7] == (116, 0x09);
  }

  predicate FormOk(f: Form) {
    match f
    case Raw(c) => c >= 0x20 && c != QUOTE && c != BACKSLASH
    case Esc(letter) => SimpleEscape(letter).Some?
    case Unit(d) => FourHex(d) && !HighSurrogate(HexNumber(d))
    case Pair(high, low) => FourHex(high) && FourHex(low) && HighSurrogate(HexNumber(high))
  }

  function FormText(f: Form): Text {
    match f
    case Raw(c) => [c]
    case Esc(letter) => [BACKSLASH, letter]
    case Unit(d) => [BACKSLASH, 117] + d
    case Pair(high, low) => [BACKSLASH, 117] + high + ([BACKSLASH, 117] + low)
  }

  /** The second half of a pair is not checked to be a low surrogate. */
  function FormValue(f: Form): Text
    requires FormOk(f)
  {
    match f
    case Raw(c) => [c]
    case Esc(letter) => [SimpleEscape(letter).value]
    case Unit(d) => Utf8(HexNumber(d))
    case Pair(high, low) => Utf8(0x1_0000 + 0x400 * (HexNumber(high) - 0xD800) + HexNumber(low) - 0xDC00)
  }

  type Forms = seq<Form>

  predicate FormsOk(fs: Forms) {
    forall i :: 0 <= i < |fs| ==> FormOk(fs[i])
  }

  function FormsText(fs: Forms, tail: Text): Text
    decreases |fs|
  {
    if fs == [] then tail else FormText(fs[0]) + FormsText(fs[1..], tail)
  }

  function FormsValue(fs: Forms): Text
    requires FormsOk(fs)
    decreases |fs|
  {
    if fs == [] then [] else FormValue(fs[0]) + FormsValue(fs[1..])
  }

  lemma HexBack(d: Text, tail: Text)
    requires FourHex(d)
    ensures Hex4(d + tail) == Got(HexNumber(d), tail)
  {
    assert (d + tail)[4..] == tail;
  }

  lemma HexRead(s: Text)
    requires Hex4(s).Got?
    ensures FourHex(s[..4]) && HexNumber(s[..4]) == Hex4(s).value && s == s[..4] + Hex4(s).rest
  {
  }

  lemma OneForm(f: Form, fs: Forms, tail: Text)
    ensures FormsText([f] + fs, tail) == FormText(f) + FormsText(fs, tail)
    ensures FormOk(f) && FormsOk(fs) ==> FormsOk([f] + fs) && FormsValue([f] + fs) == FormValue(f) + FormsValue(fs)
  {
    hide FormOk, FormText, FormValue;
    assert ([f] + fs)[1..] == fs;
    if FormOk(f) && FormsOk(fs) {
      forall i | 0 <= i < |[f] + fs| ensures FormOk(([f] + fs)[i]) {
        if i > 0 {
          assert ([f] + fs)[i] == fs[i - 1];
        }
      }
    }
  }

  /** One written character is read as what it stands for. */
  lemma FormBack(f: Form, tail: Text, out: Text)
    requires FormOk(f)
    ensures ParseChars(FormText(f) + tail, out) == ParseChars(tail, out + FormValue(f))
  {
    hide Utf8, Hex4, HexNumber, FourHex, ParseChars;
    match f
    case Raw(c) => RawBack(c, tail, out);
    case Esc(letter) => EscBack(letter, tail, out);
    case Unit(d) =>
      UnitBack(d, tail);
      CodeBack(FormText(f) + tail, HexNumber(d), tail, out);
    case Pair(high, low) =>
      PairBack(high, low, tail);
      CodeBack(FormText(f) + tail, 0x1_0000 + 0x400 * (HexNumber(high) - 0xD800) + HexNumber(low) - 0xDC00, tail, out);
  }

  lemma RawBack(c: Byte, tail: Text, out: Text)
    requires c >= 0x20 && c != QUOTE && c != BACKSLASH
    ensures ParseChars([c] + tail, out) == ParseChars(tail, out + [c])
  {
    assert ([c] + tail)[1..] == tail;
  }

  lemma EscBack(letter: Byte, tail: Text, out: Text)
    requires SimpleEscape(letter).Some?
    ensures ParseChars([BACKSLASH, letter] + tail, out) == ParseChars(tail, out + [SimpleEscape(letter).value])
  {
    hide SimpleEscape;
    assert ([BACKSLASH, letter] + tail)[2..] == tail;
  }

  lemma CodeBack(s: Text, u: nat, tail: Text, out: Text)
    requires |s| >= 2 && s[0] == BACKSLASH && s[1] == 117 && CodePoint(s[2..]) == Got(u, tail)
    ensures ParseChars(s, out) == ParseChars(tail, out + Utf8(u))
  {
    hide Utf8, CodePoint;
  }

  lemma UnitBack(d: Text, tail: Text)
    requires FourHex(d) && !HighSurrogate(HexNumber(d))
    ensures CodePoint(([BACKSLASH, 117] + d + tail)[2..]) == Got(HexNumber(d), tail)
  {
    hide Hex4, HexNumber, FourHex;
    assert ([BACKSLASH, 117] + d + tail)[2..] == d + tail;
    HexBack(d, tail);
  }

  lemma PairBack(high: Text, low: Text, tail: Text)
    requires FourHex(high) && FourHex(low) && HighSurrogate(HexNumber(high))
    ensures CodePoint(([BACKSLASH, 117] + high + ([BACKSLASH, 117] + low) + tail)[2..])
         == Got(0x1_0000 + 0x400 * (HexNumber(high) - 0xD800) + HexNumber(low) - 0xDC00, tail)
  {
    hide Hex4, HexNumber, FourHex;
    var t := [BACKSLASH, 117] + low + tail;
    assert ([BACKSLASH, 117] + high + ([BACKSLASH, 117] + low) + tail)[2..] == high + t;
    HexBack(high, t);
    assert t[2..] == low + tail;
    HexBack(low, tail);
  }

  lemma {:induction false} CharsLaid(fs: Forms, out: Text, rest: Text)
    requires FormsOk(fs)
    ensures ParseChars(FormsText(fs, [QUOTE] + rest), out) == Got(out + FormsValue(fs), rest)
    decreases |fs|
  {
    hide FormOk, FormText, FormValue;
    if fs == [] {
      assert ([QUOTE] + rest)[1..] == rest && out + FormsValue(fs) == out;
    } else {
      hide ParseChars;
      FormBack(fs[0], FormsText(fs[1..], [QUOTE] + rest), out);
      CharsLaid(fs[1..], out + FormValue(fs[0]), rest);
      assert out + FormValue(fs[0]) + FormsValue(fs[1..]) == out + FormsValue(fs);
      var f, more := fs[0], fs[1..];
      Regroup(f, more, [QUOTE] + rest);
    }
  }

  lemma Regroup(f: Form, more: Forms, tail: Text)
    ensures FormText(f) + FormsText(more, tail) == FormsText([f] + more, tail)
  {
    assert ([f] + more)[1..] == more;
  }

  /** The character at the head of an accepted string, and the state behind it. */
  lemma FormRead(s: Text, out: Text) returns (f: Form, t: Text)
    requires ParseChars(s, out).Got? && s[0] != QUOTE
    ensures FormOk(f) && s == FormText(f) + t && |t| < |s| && ParseChars(s, out) == ParseChars(t, out + FormValue(f))
  {
    hide Utf8, Hex4, HexNumber, FourHex;
    if s[0] == BACKSLASH {
      if SimpleEscape(s[1]).Some? {
        f, t := Esc(s[1]), s[2..];
      } else {
        f, t := CodeRead(s[2..]);
        assert s == [BACKSLASH, 117] + s[2..];
      }
    } else {
      f, t := Raw(s[0]), s[1..];
    }
  }

  lemma CodeRead(s: Text) returns (f: Form, t: Text)
    requires CodePoint(s).Got?
    ensures FormOk(f) && [BACKSLASH, 117] + s == FormText(f) + t && (f.Unit? || f.Pair?)
    ensures FormValue(f) == Utf8(CodePoint(s).value) && t == CodePoint(s).rest
  {
    hide Utf8, Hex4, HexNumber, FourHex;
    HexRead(s);
    var s1 := Hex4(s).rest;
    if !HighSurrogate(Hex4(s).value) {
      f, t := Unit(s[..4]), s1;
    } else {
      HexRead(s1[2..]);
      var low := s1[2..][..4];
      f, t := Pair(s[..4], low), Hex4(s1[2..]).rest;
      assert s1 == [BACKSLASH, 117] + s1[2..];
      assert s1[2..] == low + t;
    }
  }

  lemma {:induction false} CharsRead(s: Text, out: Text) returns (fs: Forms)
    requires ParseChars(s, out).Got?
    ensures var r := ParseChars(s, out);
            FormsOk(fs) && r.value == out + FormsValue(fs) && s == FormsText(fs, [QUOTE] + r.rest)
    decreases |s|
  {
    hide FormOk, FormText, FormValue;
    if s[0] == QUOTE {
      fs := [];
      assert s == [QUOTE] + s[1..] && out + FormsValue(fs) == out;
    } else {
      var r := ParseChars(s, out);
      var f, t := FormRead(s, out);
      var more := CharsRead(t, out + FormValue(f));
      fs := [f] + more;
      OneForm(f, more, [QUOTE] + r.rest);
      assert out + FormValue(f) + FormsValue(more) == out + FormsValue(fs);
      hide ParseChars;
    }
  }

  // ---- numbers ----

  /** Sign, integer digits, fraction with its point, exponent with its letter and sign. */
  datatype Digits = Digits(minus: bool, whole: Text, fraction: Text, exponent: Text)

  predicate AllDigits(t: Text) {
    forall i :: 0 <= i < |t| ==> 48 <= t[i] <= 57
  }

  predicate DigitsOk(d: Digits) {
    && d.whole != [] && AllDigits(d.whole) && (d.whole[0] == 48 ==> |d.whole| == 1)
    && (d.fraction != [] ==> |d.fraction| >= 2 && d.fraction[0] == 46 && AllDigits(d.fraction[1..]))
    && (d.exponent != [] ==> ExponentOk(d.exponent))
  }

  predicate ExponentOk(e: Text) {
    && |e| >= 2 && (e[0] == 101 || e[0] == 69)
    && if e[1] == 43 || e[1] == 45 then |e| >= 3 && AllDigits(e[2..]) else AllDigits(e[1..])
  }

  function Token(d: Digits): Text {
    (if d.minus then [45] else []) + d.whole + d.fraction + d.exponent
  }

  predicate StartsWithDigit(t: Text) {
    t != [] && 48 <= t[0] <= 57
  }

  predicate LeadingZero(t: Text) {
    t != [] && t[0] == 48
  }

  /** What may stand behind the number without being read as part of it. */
  predicate Stops(d: Digits, rest: Text) {
    if d.exponent != [] then !StartsWithDigit(rest)
    else
      && !(rest != [] && (rest[0] == 101 || rest[0] == 69))
      && if d.fraction != [] then !StartsWithDigit(rest)
         else !(rest != [] && rest[0] == 46) && (LeadingZero(d.whole) || !StartsWithDigit(rest))
  }

  lemma {:induction false} RunIs(s: Text)
    ensures AllDigits(s[..DigitRun(s)]) && !StartsWithDigit(s[DigitRun(s)..])
    decreases |s|
  {
    if s != [] && Digit(s[0]) {
      RunIs(s[1..]);
      var n := DigitRun(s[1..]);
      assert s[..n + 1] == [s[0]] + s[1..][..n] && s[n + 1..] == s[1..][n..];
    }
  }

  lemma {:induction false} RunOfDigits(t: Text, rest: Text)
    requires AllDigits(t) && !StartsWithDigit(rest)
    ensures DigitRun(t + rest) == |t|
    decreases |t|
  {
    if t == [] {
      assert t + rest == rest;
    } else {
      assert (t + rest)[1..] == t[1..] + rest;
      RunOfDigits(t[1..], rest);
    }
  }

  lemma WholeRead(s: Text)
    requires WholePart(s).Some?
    ensures var w := s[..WholePart(s).value]; var rest := s[WholePart(s).value..];
      && w != [] && AllDigits(w) && (w[0] == 48 ==> |w| == 1) && (w[0] == 48 || !StartsWithDigit(rest))
  {
    RunIs(s);
  }

  lemma WholeLaid(w: Text, rest: Text)
    requires w != [] && AllDigits(w) && (w[0] == 48 ==> |w| == 1) && (w[0] == 48 || !StartsWithDigit(rest))
    ensures WholePart(w + rest) == Some(|w|)
  {
    if w[0] != 48 {
      RunOfDigits(w, rest);
    }
  }

  lemma FractionRead(s: Text)
    requires Fraction(s).Some?
    ensures var f := s[..Fraction(s).value]; var rest := s[Fraction(s).value..];
      if f == [] then !(rest != [] && rest[0] == 46)
      else |f| >= 2 && f[0] == 46 && AllDigits(f[1..]) && !StartsWithDigit(rest)
  {
    if s != [] && s[0] == 46 {
      var t := s[1..];
      RunIs(t);
      var n := DigitRun(t);
      assert s[..n + 1][1..] == t[..n] && s[n + 1..] == t[n..];
    }
  }

  lemma FractionLaid(f: Text, rest: Text)
    requires if f == [] then !(rest != [] && rest[0] == 46)
             else |f| >= 2 && f[0] == 46 && AllDigits(f[1..]) && !StartsWithDigit(rest)
    ensures Fraction(f + rest) == Some(|f|)
  {
    if f != [] {
      assert (f + rest)[1..] == f[1..] + rest;
      RunOfDigits(f[1..], rest);
    } else {
      assert f + rest == rest;
    }
  }

  lemma ExponentRead(s: Text)
    requires Exponent(s).Some?
    ensures var e := s[..Exponent(s).value]; var rest := s[Exponent(s).value..];
      if e == [] then !(rest != [] && (rest[0] == 101 || rest[0] == 69)) else ExponentOk(e) && !StartsWithDigit(rest)
  {
    if s != [] && (s[0] == 101 || s[0] == 69) {
      var k := if |s| >= 2 && (s[1] == 43 || s[1] == 45) then 2 else 1;
      var t := s[k..];
      RunIs(t);
      var n := DigitRun(t);
      assert s[..k + n][k..] == t[..n] && s[k + n..] == t[n..];
    }
  }

  lemma ExponentLaid(e: Text, rest: Text)
    requires if e == [] then !(rest != [] && (rest[0] == 101 || rest[0] == 69)) else ExponentOk(e) && !StartsWithDigit(rest)
    ensures Exponent(e + rest) == Some(|e|)
  {
    if e != [] {
      var k := if e[1] == 43 || e[1] == 45 then 2 else 1;
      assert (e + rest)[k..] == e[k..] + rest;
      RunOfDigits(e[k..], rest);
    } else {
      assert e + rest == rest;
    }
  }

  /** The value of a number, if `std::stod` converts its token. */
  function NumberValue(stod: Stod, d: Digits): Option<Value>
    requires DigitsOk(d)
  {
    Converted(stod, Token(d), d.fraction == [] && d.exponent == [])
  }

  /** The parser, part by part. */
  lemma NumberSteps(stod: Stod, s: Text, a: Text, b: Text, c: Text, rest: Text)
    requires a == s[if s != [] && s[0] == 45 then 1 else 0..]
    requires WholePart(a).Some? && b == a[WholePart(a).value..]
    requires Fraction(b).Some? && c == b[Fraction(b).value..]
    requires Exponent(c).Some? && rest == c[Exponent(c).value..]
    ensures s != [] && 0 < |s| - |rest| <= |s|
    ensures var v := Converted(stod, s[..|s| - |rest|], Fraction(b).value == 0 && Exponent(c).value == 0);
            ParseNumber(stod, s) == if v.Some? then Got(v.value, rest) else Fail
  {
    hide WholePart, Fraction, Exponent, Converted;
  }

  /** The parts of an accepted number. */
  lemma NumberRead(stod: Stod, s: Text) returns (d: Digits)
    requires ParseNumber(stod, s).Got?
    ensures var r := ParseNumber(stod, s);
      DigitsOk(d) && Stops(d, r.rest) && s == Token(d) + r.rest && NumberValue(stod, d) == Some(r.value)
  {
    hide WholePart, Fraction, Exponent, Converted, AllDigits, ExponentOk, Token, DigitsOk, Stops;
    var minus := s != [] && s[0] == 45;
    var a := s[if minus then 1 else 0..];
    var b := a[WholePart(a).value..];
    var c := b[Fraction(b).value..];
    var rest := c[Exponent(c).value..];
    d := PartsRead(minus, a, b, c, rest);
    NumberSteps(stod, s, a, b, c, rest);
    assert s == (if minus then [45] else []) + a;
    TokenSplits(d, s, a, b, c, rest);
  }

  lemma PartsRead(minus: bool, a: Text, b: Text, c: Text, rest: Text) returns (d: Digits)
    requires WholePart(a).Some? && b == a[WholePart(a).value..]
    requires Fraction(b).Some? && c == b[Fraction(b).value..]
    requires Exponent(c).Some? && rest == c[Exponent(c).value..]
    ensures d.minus == minus && a == d.whole + b && b == d.fraction + c && c == d.exponent + rest
    ensures |d.fraction| == Fraction(b).value && |d.exponent| == Exponent(c).value
    ensures DigitsOk(d) && Stops(d, rest)
  {
    hide WholePart, Fraction, Exponent, AllDigits, ExponentOk, StartsWithDigit, DigitsOk, Stops;
    var w := WholeCut(a, b);
    var f := FractionCut(b, c);
    var e := ExponentCut(c, rest);
    d := Digits(minus, w, f, e);
    PartsStop(d, b, c, rest);
  }

  lemma WholeCut(a: Text, b: Text) returns (w: Text)
    requires WholePart(a).Some? && b == a[WholePart(a).value..]
    ensures a == w + b && w != [] && AllDigits(w) && (w[0] == 48 ==> |w| == 1) && (w[0] == 48 || !StartsWithDigit(b))
  {
    hide WholePart, AllDigits, StartsWithDigit;
    WholeRead(a);
    w := a[..WholePart(a).value];
  }

  lemma FractionCut(b: Text, c: Text) returns (f: Text)
    requires Fraction(b).Some? && c == b[Fraction(b).value..]
    ensures b == f + c && |f| == Fraction(b).value
    ensures if f == [] then !(c != [] && c[0] == 46)
            else |f| >= 2 && f[0] == 46 && AllDigits(f[1..]) && !StartsWithDigit(c)
  {
    hide Fraction, AllDigits, StartsWithDigit;
    FractionRead(b);
    f := b[..Fraction(b).value];
  }

  lemma ExponentCut(c: Text, rest: Text) returns (e: Text)
    requires Exponent(c).Some? && rest == c[Exponent(c).value..]
    ensures c == e + rest && |e| == Exponent(c).value
    ensures if e == [] then !(rest != [] && (rest[0] == 101 || rest[0] == 69))
            else ExponentOk(e) && !StartsWithDigit(rest)
  {
    hide Exponent, ExponentOk, StartsWithDigit;
    ExponentRead(c);
    e := c[..Exponent(c).value];
  }

  lemma PartsStop(d: Digits, b: Text, c: Text, rest: Text)
    requires b == d.fraction + c && c == d.exponent + rest
    requires d.whole != [] && AllDigits(d.whole) && (d.whole[0] == 48 ==> |d.whole| == 1)
    requires d.whole[0] == 48 || !StartsWithDigit(b)
    requires if d.fraction == [] then !(c != [] && c[0] == 46)
             else |d.fraction| >= 2 && d.fraction[0] == 46 && AllDigits(d.fraction[1..]) && !StartsWithDigit(c)
    requires if d.exponent == [] then !(rest != [] && (rest[0] == 101 || rest[0] == 69))
             else ExponentOk(d.exponent) && !StartsWithDigit(rest)
    ensures DigitsOk(d) && Stops(d, rest)
  {
    hide AllDigits, ExponentOk, StartsWithDigit;
    BehindWhole(d.whole, d.fraction, d.exponent, b, c, rest);
    SameStart(b, c, rest, d);
  }

  lemma SameStart(b: Text, c: Text, rest: Text, d: Digits)
    requires b == d.fraction + c && c == d.exponent + rest
    ensures d.fraction == [] && d.exponent == [] ==> StartsWithDigit(b) == StartsWithDigit(rest)
    ensures d.exponent == [] ==> StartsWithDigit(c) == StartsWithDigit(rest)
    ensures d.fraction != [] && d.fraction[0] == 46 ==> !StartsWithDigit(b)
    ensures d.exponent != [] && (d.exponent[0] == 101 || d.exponent[0] == 69) ==> !StartsWithDigit(c)
    ensures d.fraction == [] ==> b == c
  {
  }

  lemma TokenSplits(d: Digits, s: Text, a: Text, b: Text, c: Text, rest: Text)
    requires s == (if d.minus then [45] else []) + a && a == d.whole + b && b == d.fraction + c && c == d.exponent + rest
    ensures s == Token(d) + rest && s[..|s| - |rest|] == Token(d)
  {
  }

  /** What stands behind the integer digits begins the fraction, the exponent or the rest. */
  lemma BehindWhole(w: Text, f: Text, e: Text, b: Text, c: Text, rest: Text)
    requires b == f + c && c == e + rest && w != []
    ensures f != [] ==> b[0] == f[0]
    ensures f == [] && e != [] ==> b[0] == e[0]
    ensures f == [] && e == [] ==> b == rest
    ensures e != [] ==> c[0] == e[0]
    ensures e == [] ==> c == rest
  {
  }

  /** Every well-formed token is read completely, up to what stops it. */
  lemma NumberLaid(stod: Stod, d: Digits, rest: Text)
    requires DigitsOk(d) && Stops(d, rest) && NumberValue(stod, d).Some?
    ensures ParseNumber(stod, Token(d) + rest) == Got(NumberValue(stod, d).value, rest)
  {
    hide WholePart, Fraction, Exponent, Converted, AllDigits, DigitsOk, Stops, Token;
    var c := d.exponent + rest;
    var b := d.fraction + c;
    var a := d.whole + b;
    var s := Token(d) + rest;
    PartsLaid(d, a, b, c, rest);
    TokenStarts(d, s, a, b, c, rest);
    assert a[|d.whole|..] == b && b[|d.fraction|..] == c && c[|d.exponent|..] == rest;
    NumberSteps(stod, s, a, b, c, rest);
    TokenSplits(d, s, a, b, c, rest);
  }

  lemma TokenStarts(d: Digits, s: Text, a: Text, b: Text, c: Text, rest: Text)
    requires DigitsOk(d) && s == Token(d) + rest
    requires a == d.whole + b && b == d.fraction + c && c == d.exponent + rest
    ensures s == (if d.minus then [45] else []) + a
    ensures s != [] && (s[0] == 45 <==> d.minus) && a == s[if d.minus then 1 else 0..]
  {
    FirstDigit(d.whole);
    assert s == (if d.minus then [45] else []) + a;
  }

  lemma PartsLaid(d: Digits, a: Text, b: Text, c: Text, rest: Text)
    requires DigitsOk(d) && Stops(d, rest)
    requires a == d.whole + b && b == d.fraction + c && c == d.exponent + rest
    ensures WholePart(a) == Some(|d.whole|) && Fraction(b) == Some(|d.fraction|) && Exponent(c) == Some(|d.exponent|)
  {
    hide WholePart, Fraction, Exponent, AllDigits, StartsWithDigit;
    BehindWhole(d.whole, d.fraction, d.exponent, b, c, rest);
    SameStart(b, c, rest, d);
    ExponentLaid(d.exponent, rest);
    FractionLaid(d.fraction, c);
    WholeLaid(d.whole, b);
  }

  lemma FirstDigit(w: Text)
    requires w != [] && AllDigits(w)
    ensures 48 <= w[0] <= 57
  {
  }

  // ---- values ----

  /** A value as it is written.  The gap of an array or object counts only if it is empty. */
  datatype Tree =
    | NullTree
    | BoolTree(b: bool)
    | NumberTree(digits: Digits)
    | StringTree(forms: Forms)
    | ArrayTree(gap: Text, items: seq<Item>)
    | ObjectTree(gap: Text, entries: seq<KeyItem>)

  /** A value with the blanks around it. */
  datatype Item = Item(before: Text, tree: Tree, after: Text)

  /** A key with the blanks around it, and the value behind the colon. */
  datatype KeyItem = KeyItem(before: Text, key: Forms, after: Text, item: Item)

  predicate Blanks(t: Text) {
    forall i :: 0 <= i < |t| ==> t[i] == 32 || t[i] == 9 || t[i] == 10 || t[i] == 13
  }

  /** The text of a tree in front of `tail`. */
  function TreeText(t: Tree, tail: Text): Text
    decreases t, 0
  {
    match t
    case NullTree => [110, 117, 108, 108] + tail
    case BoolTree(b) => (if b then [116, 114, 117, 101] else [102, 97, 108, 115, 101]) + tail
    case NumberTree(d) => Token(d) + tail
    case StringTree(fs) => [34] + FormsText(fs, [34] + tail)
    case ArrayTree(gap, items) => [91] + (if items == [] then gap + [93] + tail else ItemsText(items, 0, tail))
    case ObjectTree(gap, entries) => [123] + (if entries == [] then gap + [125] + tail else EntriesText(entries, 0, tail))
  }

  /** The items from i on, with their commas and the closing bracket. */
  function ItemsText(items: seq<Item>, i: nat, tail: Text): Text
    requires i < |items|
    decreases items, |items| - i
  {
    items[i].before + TreeText(items[i].tree, items[i].after +
      (if i + 1 == |items| then [93] + tail else [44] + ItemsText(items, i + 1, tail)))
  }

  function EntriesText(es: seq<KeyItem>, i: nat, tail: Text): Text
    requires i < |es|
    decreases es, |es| - i
  {
    es[i].before + [34] + FormsText(es[i].key, [34] + (es[i].after + [58] +
      (es[i].item.before + TreeText(es[i].item.tree, es[i].item.after +
        (if i + 1 == |es| then [125] + tail else [44] + EntriesText(es, i + 1, tail))))))
  }

  predicate TreeOk(stod: Stod, t: Tree) {
    match t
    case NumberTree(d) => DigitsOk(d) && NumberValue(stod, d).Some?
    case StringTree(fs) => FormsOk(fs)
    case ArrayTree(gap, items) => Blanks(gap) && forall i :: 0 <= i < |items| ==> ItemOk(stod, items[i])
    case ObjectTree(gap, es) => Blanks(gap) && forall i :: 0 <= i < |es| ==> KeyItemOk(stod, es[i])
    case _ => true
  }

  predicate ItemOk(stod: Stod, item: Item) {
    Blanks(item.before) && Blanks(item.after) && TreeOk(stod, item.tree)
  }

  predicate KeyItemOk(stod: Stod, e: KeyItem) {
    Blanks(e.before) && FormsOk(e.key) && Blanks(e.after) && ItemOk(stod, e.item)
  }

  /** What a tree denotes: numbers by their token, strings by their characters, objects by assigning the members
      in order. */
  function TreeValue(stod: Stod, t: Tree): Value
    requires TreeOk(stod, t)
    decreases t, 0
  {
    match t
    case NullTree => Null
    case BoolTree(b) => Bool(b)
    case NumberTree(d) => NumberValue(stod, d).value
    case StringTree(fs) => String(FormsValue(fs))
    case ArrayTree(_, items) => Array(ItemValues(stod, items, |items|))
    case ObjectTree(_, es) => Object(EntryValues(stod, [], es, |es|))
  }

  /** The values of the first n items. */
  function ItemValues(stod: Stod, items: seq<Item>, n: nat): seq<Value>
    requires n <= |items| && forall i :: 0 <= i < |items| ==> ItemOk(stod, items[i])
    decreases items, n
  {
    if n == 0 then [] else ItemValues(stod, items, n - 1) + [TreeValue(stod, items[n - 1].tree)]
  }

  /** The members after the first n assignments to those there are. */
  function EntryValues(stod: Stod, done: seq<Member>, es: seq<KeyItem>, n: nat): seq<Member>
    requires n <= |es| && forall i :: 0 <= i < |es| ==> KeyItemOk(stod, es[i])
    decreases es, n
  {
    if n == 0 then done
    else
      var e := es[n - 1];
      assert KeyItemOk(stod, e) && ItemOk(stod, e.item);
      Insert(EntryValues(stod, done, es, n - 1), Member(FormsValue(e.key), TreeValue(stod, e.item.tree)))
  }

  /** A number must not run into what follows. */
  predicate Ended(t: Tree, rest: Text) {
    t.NumberTree? ==> Stops(t.digits, rest)
  }

  lemma {:induction false} BlanksSkipped(b: Text, s: Text)
    requires Blanks(b)
    ensures SkipBlanks(b + s) == SkipBlanks(s)
    decreases |b|
  {
    if b == [] {
      assert b + s == s;
    } else {
      assert (b + s)[1..] == b[1..] + s;
      BlanksSkipped(b[1..], s);
    }
  }

  /** The blanks a text begins with. */
  lemma {:induction false} BlanksRead(s: Text) returns (b: Text)
    ensures Blanks(b) && s == b + SkipBlanks(s) && (SkipBlanks(s) != [] ==> !Blank(SkipBlanks(s)[0]))
    decreases |s|
  {
    if s != [] && Blank(s[0]) {
      var more := BlanksRead(s[1..]);
      b := [s[0]] + more;
    } else {
      b := [];
    }
  }

  /** The first byte of a tree is no blank and no closing bracket, and tells its kind. */
  lemma TreeStarts(stod: Stod, t: Tree, tail: Text)
    requires TreeOk(stod, t)
    ensures var s := TreeText(t, tail);
      && s != [] && !Blank(s[0]) && s[0] != CLOSE_ARRAY && s[0] != CLOSE_OBJECT
      && (t.NumberTree? ==> s[0] == 45 || 48 <= s[0] <= 57)
  {
    match t
    case NumberTree(d) =>
      FirstDigit(d.whole);
      assert Token(d)[0] == if d.minus then 45 else d.whole[0];
    case _ =>
  }

  // ---- every text of a tree is accepted ----

  lemma {:induction false} TreeLaid(stod: Stod, t: Tree, rest: Text)
    requires TreeOk(stod, t) && Ended(t, rest)
    ensures ParseValue(stod, TreeText(t, rest)) == Got(TreeValue(stod, t), rest)
    decreases t, 1
  {
    TreeStarts(stod, t, rest);
    match t
    case NullTree => WordLaid(stod, t, rest);
    case BoolTree(_) => WordLaid(stod, t, rest);
    case NumberTree(d) => NumberTreeLaid(stod, d, rest);
    case StringTree(fs) => StringTreeLaid(stod, fs, rest);
    case ArrayTree(gap, items) =>
      if items == [] {
        EmptyArrayLaid(stod, gap, rest);
      } else {
        ItemsLaid(stod, items, 0, rest);
        ArrayOpens(stod, gap, items, rest);
      }
    case ObjectTree(gap, es) =>
      if es == [] {
        EmptyObjectLaid(stod, gap, rest);
      } else {
        EntriesLaid(stod, es, 0, rest);
        ObjectOpens(stod, gap, es, rest);
      }
  }

  lemma WordLaid(stod: Stod, t: Tree, rest: Text)
    requires t.NullTree? || t.BoolTree?
    ensures ParseValue(stod, TreeText(t, rest)) == Got(TreeValue(stod, t), rest)
  {
    hide ParseLiteral;
    LiteralBack(NULL_TEXT, Null, rest);
    LiteralBack(TRUE_TEXT, Bool(true), rest);
    LiteralBack(FALSE_TEXT, Bool(false), rest);
  }

  lemma NumberTreeLaid(stod: Stod, d: Digits, rest: Text)
    requires DigitsOk(d) && NumberValue(stod, d).Some? && Stops(d, rest)
    ensures ParseValue(stod, Token(d) + rest) == Got(NumberValue(stod, d).value, rest)
  {
    hide ParseNumber, ParseItems, ParseMembers, ParseChars, ParseLiteral, DigitsOk, Stops, NumberValue, Token;
    NumberLaid(stod, d, rest);
    TreeStarts(stod, NumberTree(d), rest);
  }

  lemma StringTreeLaid(stod: Stod, fs: Forms, rest: Text)
    requires FormsOk(fs)
    ensures ParseValue(stod, [34] + FormsText(fs, [34] + rest)) == Got(String(FormsValue(fs)), rest)
  {
    hide ParseChars, FormsText, FormsValue, FormsOk, ParseItems, ParseMembers, ParseNumber, ParseLiteral;
    CharsLaid(fs, [], rest);
    assert ([34] + FormsText(fs, [34] + rest))[1..] == FormsText(fs, [34] + rest);
    assert [] + FormsValue(fs) == FormsValue(fs);
  }

  lemma EmptyArrayLaid(stod: Stod, gap: Text, rest: Text)
    requires Blanks(gap)
    ensures ParseValue(stod, [91] + (gap + [93] + rest)) == Got(Array([]), rest)
  {
    hide ParseItems, ParseMembers, ParseNumber, ParseLiteral, ParseChars;
    var s := [91] + (gap + [93] + rest);
    assert s[1..] == gap + ([93] + rest);
    BlanksSkipped(gap, [93] + rest);
    assert SkipBlanks([93] + rest) == [93] + rest && ([93] + rest)[1..] == rest;
  }

  lemma EmptyObjectLaid(stod: Stod, gap: Text, rest: Text)
    requires Blanks(gap)
    ensures ParseValue(stod, [123] + (gap + [125] + rest)) == Got(Object([]), rest)
  {
    hide ParseItems, ParseMembers, ParseNumber, ParseLiteral, ParseChars;
    var s := [123] + (gap + [125] + rest);
    assert s[1..] == gap + ([125] + rest);
    BlanksSkipped(gap, [125] + rest);
    assert SkipBlanks([125] + rest) == [125] + rest && ([125] + rest)[1..] == rest;
  }

  lemma ArrayOpens(stod: Stod, gap: Text, items: seq<Item>, rest: Text)
    requires items != [] && ItemOk(stod, items[0])
    ensures ParseValue(stod, [91] + ItemsText(items, 0, rest)) == ParseItems(stod, ItemsText(items, 0, rest), [])
  {
    hide ParseItems, ParseMembers, ParseNumber, ParseLiteral, ParseChars, TreeText;
    var inner := TreeText(items[0].tree, items[0].after +
      (if 1 == |items| then [93] + rest else [44] + ItemsText(items, 1, rest)));
    TreeStarts(stod, items[0].tree, items[0].after +
      (if 1 == |items| then [93] + rest else [44] + ItemsText(items, 1, rest)));
    BlanksSkipped(items[0].before, inner);
    assert ([91] + ItemsText(items, 0, rest))[1..] == ItemsText(items, 0, rest);
    assert SkipBlanks(inner) == inner;
  }

  lemma ObjectOpens(stod: Stod, gap: Text, es: seq<KeyItem>, rest: Text)
    requires es != [] && KeyItemOk(stod, es[0])
    ensures ParseValue(stod, [123] + EntriesText(es, 0, rest)) == ParseMembers(stod, EntriesText(es, 0, rest), [])
  {
    hide ParseItems, ParseMembers, ParseNumber, ParseLiteral, ParseChars, TreeText;
    var s := EntriesText(es, 0, rest);
    KeyStarts(es, 0, rest);
    assert ([123] + s)[1..] == s;
  }

  /** Behind its blanks a member begins with a quotation mark. */
  lemma KeyStarts(es: seq<KeyItem>, i: nat, rest: Text)
    requires i < |es| && Blanks(es[i].before)
    ensures SkipBlanks(EntriesText(es, i, rest)) == [34] + FormsText(es[i].key, [34] + (es[i].after + [58] +
      (es[i].item.before + TreeText(es[i].item.tree, es[i].item.after +
        (if i + 1 == |es| then [125] + rest else [44] + EntriesText(es, i + 1, rest))))))
  {
    hide TreeText, FormsText;
    var inner := [34] + FormsText(es[i].key, [34] + (es[i].after + [58] +
      (es[i].item.before + TreeText(es[i].item.tree, es[i].item.after +
        (if i + 1 == |es| then [125] + rest else [44] + EntriesText(es, i + 1, rest))))));
    assert EntriesText(es, i, rest) == es[i].before + inner;
    BlanksSkipped(es[i].before, inner);
    assert SkipBlanks(inner) == inner;
  }

  /** Blanks in front of a value make no difference. */
  lemma ValueBehindBlanks(stod: Stod, b: Text, s: Text)
    requires Blanks(b)
    ensures ParseValue(stod, b + s) == ParseValue(stod, s)
  {
    hide ParseValue;
    BlanksSkipped(b, s);
    ParseSkips(stod, b + s);
    ParseSkips(stod, s);
  }

  /** A number ends at a blank, a comma or a bracket. */
  lemma EndsAt(t: Tree, after: Text, c: Byte, rest: Text)
    requires Blanks(after) && (c == 44 || c == 93 || c == 125)
    ensures Ended(t, after + ([c] + rest))
  {
    var s := after + ([c] + rest);
    assert s[0] == if after == [] then c else after[0];
  }

  /** One turn of the array loop. */
  lemma ItemTurn(stod: Stod, s: Text, done: seq<Value>, v: Value, behind: Text, c: Byte, more: Text)
    requires ParseValue(stod, s) == Got(v, behind) && SkipBlanks(behind) == [c] + more && (c == 44 || c == 93)
    ensures ParseItems(stod, s, done) == if c == 93 then Got(Array(done + [v]), more) else ParseItems(stod, more, done + [v])
  {
    hide ParseValue;
    assert ([c] + more)[1..] == more;
  }

  /** One turn of the object loop. */
  lemma MemberTurn(stod: Stod, s: Text, done: seq<Member>, key: Text, value: Text, v: Value, behind: Text, c: Byte, more: Text)
    requires ParseKey(s) == Got(key, value) && ParseValue(stod, value) == Got(v, behind)
    requires SkipBlanks(behind) == [c] + more && (c == 44 || c == 125)
    ensures ParseMembers(stod, s, done) ==
      if c == 125 then Got(Object(Insert(done, Member(key, v))), more)
      else ParseMembers(stod, more, Insert(done, Member(key, v)))
  {
    hide ParseValue, ParseKey, Insert;
    assert ([c] + more)[1..] == more;
  }

  /** A value with the blanks around it, up to the byte behind it. */
  lemma ItemLaid(stod: Stod, item: Item, c: Byte, more: Text)
    requires ItemOk(stod, item) && (c == 44 || c == 93 || c == 125)
    ensures var behind := item.after + ([c] + more);
      && ParseValue(stod, item.before + TreeText(item.tree, behind)) == Got(TreeValue(stod, item.tree), behind)
      && SkipBlanks(behind) == [c] + more
    decreases item, 2
  {
    hide ParseValue, TreeText, TreeOk, TreeValue, Ended;
    var behind := item.after + ([c] + more);
    EndsAt(item.tree, item.after, c, more);
    TreeLaid(stod, item.tree, behind);
    ValueBehindBlanks(stod, item.before, TreeText(item.tree, behind));
    BlanksSkipped(item.after, [c] + more);
    assert SkipBlanks([c] + more) == [c] + more;
  }

  lemma {:induction false} ItemsLaid(stod: Stod, items: seq<Item>, i: nat, rest: Text)
    requires i < |items| && forall k :: 0 <= k < |items| ==> ItemOk(stod, items[k])
    ensures ParseItems(stod, ItemsText(items, i, rest), ItemValues(stod, items, i))
         == Got(Array(ItemValues(stod, items, |items|)), rest)
    decreases items, |items| - i
  {
    hide ParseValue, ParseItems, TreeText, TreeOk, TreeValue;
    var last := i + 1 == |items|;
    var c: Byte := if last then 93 else 44;
    var more := if last then rest else ItemsText(items, i + 1, rest);
    ItemLaid(stod, items[i], c, more);
    ItemTurn(stod, ItemsText(items, i, rest), ItemValues(stod, items, i), TreeValue(stod, items[i].tree),
             items[i].after + ([c] + more), c, more);
    if !last {
      ItemsLaid(stod, items, i + 1, rest);
    }
  }

  lemma {:induction false} EntriesLaid(stod: Stod, es: seq<KeyItem>, i: nat, rest: Text)
    requires i < |es| && forall k :: 0 <= k < |es| ==> KeyItemOk(stod, es[k])
    ensures ParseMembers(stod, EntriesText(es, i, rest), EntryValues(stod, [], es, i))
         == Got(Object(EntryValues(stod, [], es, |es|)), rest)
    decreases es, |es| - i
  {
    hide ParseValue, ParseKey, ParseMembers, TreeText, TreeOk, TreeValue, Insert, FormsText, FormsValue, FormsOk, EntriesText;
    var last := i + 1 == |es|;
    var c: Byte := if last then 125 else 44;
    var more := if last then rest else EntriesText(es, i + 1, rest);
    var item := es[i].item;
    assert KeyItemOk(stod, es[i]) && ItemOk(stod, item);
    var behind := item.after + ([c] + more);
    var value := item.before + TreeText(item.tree, behind);
    KeyLaid(es, i, rest, value);
    ItemLaid(stod, item, c, more);
    MemberTurn(stod, EntriesText(es, i, rest), EntryValues(stod, [], es, i), FormsValue(es[i].key), value,
               TreeValue(stod, item.tree), behind, c, more);
    if !last {
      EntriesLaid(stod, es, i + 1, rest);
    }
  }

  lemma KeyLaid(es: seq<KeyItem>, i: nat, rest: Text, value: Text)
    requires i < |es| && Blanks(es[i].before) && Blanks(es[i].after) && FormsOk(es[i].key)
    requires value == es[i].item.before + TreeText(es[i].item.tree, es[i].item.after +
      (if i + 1 == |es| then [125] + rest else [44] + EntriesText(es, i + 1, rest)))
    ensures ParseKey(EntriesText(es, i, rest)) == Got(FormsValue(es[i].key), value)
  {
    hide TreeText, FormsText, ParseChars, FormsValue, FormsOk, EntriesText;
    KeyStarts(es, i, rest);
    var t := es[i].after + [58] + value;
    CharsLaid(es[i].key, [], t);
    assert [] + FormsValue(es[i].key) == FormsValue(es[i].key);
    assert ([34] + FormsText(es[i].key, [34] + t))[1..] == FormsText(es[i].key, [34] + t);
    assert t == es[i].after + ([58] + value);
    BlanksSkipped(es[i].after, [58] + value);
    assert SkipBlanks([58] + value) == [58] + value && ([58] + value)[1..] == value;
  }

  // ---- everything accepted is the text of a tree ----

  lemma {:induction false} ItemsShift(x: Item, more: seq<Item>, i: nat, tail: Text)
    requires i < |more|
    ensures ItemsText([x] + more, i + 1, tail) == ItemsText(more, i, tail)
    decreases |more| - i
  {
    hide TreeText;
    if i + 1 < |more| {
      ItemsShift(x, more, i + 1, tail);
    }
  }

  lemma {:induction false} EntriesShift(x: KeyItem, more: seq<KeyItem>, i: nat, tail: Text)
    requires i < |more|
    ensures EntriesText([x] + more, i + 1, tail) == EntriesText(more, i, tail)
    decreases |more| - i
  {
    hide TreeText, FormsText;
    if i + 1 < |more| {
      EntriesShift(x, more, i + 1, tail);
    }
  }

  lemma AllItemsOk(stod: Stod, x: Item, more: seq<Item>)
    requires ItemOk(stod, x) && forall k :: 0 <= k < |more| ==> ItemOk(stod, more[k])
    ensures forall k :: 0 <= k < |[x] + more| ==> ItemOk(stod, ([x] + more)[k])
  {
    hide ItemOk;
  }

  lemma AllEntriesOk(stod: Stod, x: KeyItem, more: seq<KeyItem>)
    requires KeyItemOk(stod, x) && forall k :: 0 <= k < |more| ==> KeyItemOk(stod, more[k])
    ensures forall k :: 0 <= k < |[x] + more| ==> KeyItemOk(stod, ([x] + more)[k])
  {
    hide KeyItemOk;
  }

  lemma {:induction false} ValuesShift(stod: Stod, x: Item, more: seq<Item>, n: nat)
    requires ItemOk(stod, x) && n <= |more| && forall k :: 0 <= k < |more| ==> ItemOk(stod, more[k])
    requires forall k :: 0 <= k < |[x] + more| ==> ItemOk(stod, ([x] + more)[k])
    ensures ItemValues(stod, [x] + more, n + 1) == [TreeValue(stod, x.tree)] + ItemValues(stod, more, n)
    decreases n
  {
    hide TreeValue, TreeOk;
    var all := [x] + more;
    if n == 0 {
      assert ItemValues(stod, all, 0) == [];
    } else {
      ValuesShift(stod, x, more, n - 1);
      assert all[n] == more[n - 1];
    }
  }

  lemma {:induction false} MembersShift(stod: Stod, done: seq<Member>, x: KeyItem, more: seq<KeyItem>, n: nat)
    requires KeyItemOk(stod, x) && ItemOk(stod, x.item) && n <= |more| && forall k :: 0 <= k < |more| ==> KeyItemOk(stod, more[k])
    requires forall k :: 0 <= k < |[x] + more| ==> KeyItemOk(stod, ([x] + more)[k])
    ensures EntryValues(stod, done, [x] + more, n + 1) ==
      EntryValues(stod, Insert(done, Member(FormsValue(x.key), TreeValue(stod, x.item.tree))), more, n)
    decreases n
  {
    hide TreeValue, TreeOk, FormsValue, FormsOk, Insert;
    var all := [x] + more;
    if n == 0 {
      assert EntryValues(stod, done, all, 0) == done;
    } else {
      MembersShift(stod, done, x, more, n - 1);
      assert all[n] == more[n - 1] && KeyItemOk(stod, more[n - 1]);
    }
  }

  /** A value with the blanks behind it, out of an accepted text. */
  lemma ItemRead(stod: Stod, s: Text) returns (item: Item)
    requires ParseValue(stod, s).Got?
    ensures var r := ParseValue(stod, s);
      && ItemOk(stod, item) && TreeValue(stod, item.tree) == r.value
      && r.rest == item.after + SkipBlanks(r.rest) && s == item.before + TreeText(item.tree, r.rest)
    decreases |s|, 3
  {
    hide ParseValue, TreeText, TreeValue, TreeOk;
    var before, t := TreeRead(stod, s);
    var after := BlanksRead(ParseValue(stod, s).rest);
    item := Item(before, t, after);
  }

  lemma {:induction false} TreeRead(stod: Stod, s: Text) returns (before: Text, t: Tree)
    requires ParseValue(stod, s).Got?
    ensures var r := ParseValue(stod, s);
      && Blanks(before) && TreeOk(stod, t) && Ended(t, r.rest) && TreeValue(stod, t) == r.value
      && s == before + TreeText(t, r.rest)
    decreases |s|, 2
  {
    before := BlanksRead(s);
    var u := SkipBlanks(s);
    ParseSkips(stod, s);
    t := TreeHere(stod, s, u);
  }

  /** The tree that begins an accepted text without blanks in front of it. */
  lemma {:induction false} TreeHere(stod: Stod, s: Text, u: Text) returns (t: Tree)
    requires u == SkipBlanks(s) && ParseValue(stod, s).Got?
    ensures var r := ParseValue(stod, s);
      && TreeOk(stod, t) && Ended(t, r.rest) && TreeValue(stod, t) == r.value && u == TreeText(t, r.rest)
    decreases |s|, 1
  {
    hide ParseItems, ParseMembers, ParseNumber, ParseLiteral, ParseChars, TreeText, TreeValue, TreeOk;
    if u[0] == OPEN_OBJECT {
      t := ObjectHere(stod, s, u);
    } else if u[0] == OPEN_ARRAY {
      t := ArrayHere(stod, s, u);
    } else if u[0] == QUOTE {
      t := StringHere(stod, s, u);
    } else if u[0] == 116 || u[0] == 102 || u[0] == 110 {
      t := WordHere(stod, s, u);
    } else {
      t := NumberHere(stod, s, u);
    }
  }

  lemma WordHere(stod: Stod, s: Text, u: Text) returns (t: Tree)
    requires u == SkipBlanks(s) && ParseValue(stod, s).Got? && (u[0] == 116 || u[0] == 102 || u[0] == 110)
    ensures var r := ParseValue(stod, s);
      && TreeOk(stod, t) && Ended(t, r.rest) && TreeValue(stod, t) == r.value && u == TreeText(t, r.rest)
  {
    hide ParseItems, ParseMembers, ParseNumber, ParseChars;
    t := if u[0] == 116 then BoolTree(true) else if u[0] == 102 then BoolTree(false) else NullTree;
    var n := if u[0] == 102 then 5 else 4;
    assert u == u[..n] + u[n..];
  }

  lemma NumberHere(stod: Stod, s: Text, u: Text) returns (t: Tree)
    requires u == SkipBlanks(s) && ParseValue(stod, s).Got?
    requires u[0] != 116 && u[0] != 102 && u[0] != 110 && u[0] != QUOTE && u[0] != OPEN_ARRAY && u[0] != OPEN_OBJECT
    ensures var r := ParseValue(stod, s);
      && TreeOk(stod, t) && Ended(t, r.rest) && TreeValue(stod, t) == r.value && u == TreeText(t, r.rest)
  {
    hide ParseItems, ParseMembers, ParseNumber, ParseChars, ParseLiteral, DigitsOk, Stops, Token, NumberValue;
    var d := NumberRead(stod, u);
    t := NumberTree(d);
  }

  lemma StringHere(stod: Stod, s: Text, u: Text) returns (t: Tree)
    requires u == SkipBlanks(s) && ParseValue(stod, s).Got? && u[0] == QUOTE
    ensures var r := ParseValue(stod, s);
      && TreeOk(stod, t) && Ended(t, r.rest) && TreeValue(stod, t) == r.value && u == TreeText(t, r.rest)
  {
    hide ParseItems, ParseMembers, ParseNumber, ParseChars, ParseLiteral, FormsOk, FormsText, FormsValue;
    var fs := CharsRead(u[1..], []);
    assert [] + FormsValue(fs) == FormsValue(fs) && u == [34] + u[1..];
    t := StringTree(fs);
  }

  lemma ArrayStep(stod: Stod, s: Text, u: Text)
    requires u == SkipBlanks(s) && u != [] && u[0] == OPEN_ARRAY
    ensures var t := SkipBlanks(u[1..]);
      ParseValue(stod, s) == if t != [] && t[0] == CLOSE_ARRAY then Got(Array([]), t[1..]) else ParseItems(stod, u[1..], [])
  {
    hide ParseItems, ParseMembers, ParseNumber, ParseChars, ParseLiteral;
  }

  lemma ObjectStep(stod: Stod, s: Text, u: Text)
    requires u == SkipBlanks(s) && u != [] && u[0] == OPEN_OBJECT
    ensures var t := SkipBlanks(u[1..]);
      ParseValue(stod, s) == if t != [] && t[0] == CLOSE_OBJECT then Got(Object([]), t[1..]) else ParseMembers(stod, u[1..], [])
  {
    hide ParseItems, ParseMembers, ParseNumber, ParseChars, ParseLiteral;
  }

  lemma EmptyTrees(stod: Stod, gap: Text, rest: Text)
    requires Blanks(gap)
    ensures TreeOk(stod, ArrayTree(gap, [])) && TreeValue(stod, ArrayTree(gap, [])) == Array([])
    ensures TreeOk(stod, ObjectTree(gap, [])) && TreeValue(stod, ObjectTree(gap, [])) == Object([])
    ensures TreeText(ArrayTree(gap, []), rest) == [91] + (gap + ([93] + rest))
    ensures TreeText(ObjectTree(gap, []), rest) == [123] + (gap + ([125] + rest))
  {
    NoItems(stod);
    assert gap + [93] + rest == gap + ([93] + rest) && gap + [125] + rest == gap + ([125] + rest);
  }

  lemma {:induction false} ArrayHere(stod: Stod, s: Text, u: Text) returns (t: Tree)
    requires u == SkipBlanks(s) && u != [] && ParseValue(stod, s).Got? && u[0] == OPEN_ARRAY
    ensures var r := ParseValue(stod, s);
      && TreeOk(stod, t) && Ended(t, r.rest) && TreeValue(stod, t) == r.value && u == TreeText(t, r.rest)
    decreases |s|, 0
  {
    hide ParseValue, ItemsText, ItemValues, ItemOk, Blanks;
    var v, rest := u[1..], ParseValue(stod, s).rest;
    assert u == [91] + v;
    ArrayStep(stod, s, u);
    var gap := BlanksRead(v);
    if SkipBlanks(v) != [] && SkipBlanks(v)[0] == CLOSE_ARRAY {
      assert SkipBlanks(v) == [93] + rest;
      EmptyTrees(stod, gap, rest);
      hide TreeText, TreeValue, TreeOk;
      t := ArrayTree(gap, []);
    } else {
      var items := ItemsRead(stod, v, []);
      assert [] + ItemValues(stod, items, |items|) == ItemValues(stod, items, |items|);
      NoBlanks();
      t := ArrayTree([], items);
    }
  }

  lemma NoBlanks()
    ensures Blanks([])
  {
  }

  lemma NoItems(stod: Stod)
    ensures ItemValues(stod, [], 0) == [] && EntryValues(stod, [], [], 0) == []
  {
  }

  lemma {:induction false} ObjectHere(stod: Stod, s: Text, u: Text) returns (t: Tree)
    requires u == SkipBlanks(s) && u != [] && ParseValue(stod, s).Got? && u[0] == OPEN_OBJECT
    ensures var r := ParseValue(stod, s);
      && TreeOk(stod, t) && Ended(t, r.rest) && TreeValue(stod, t) == r.value && u == TreeText(t, r.rest)
    decreases |s|, 0
  {
    hide ParseValue, EntriesText, EntryValues, KeyItemOk, Blanks;
    var v, rest := u[1..], ParseValue(stod, s).rest;
    assert u == [123] + v;
    ObjectStep(stod, s, u);
    var gap := BlanksRead(v);
    if SkipBlanks(v) != [] && SkipBlanks(v)[0] == CLOSE_OBJECT {
      assert SkipBlanks(v) == [125] + rest;
      EmptyTrees(stod, gap, rest);
      hide TreeText, TreeValue, TreeOk;
      t := ObjectTree(gap, []);
    } else {
      var es := EntriesRead(stod, v, []);
      NoBlanks();
      t := ObjectTree([], es);
    }
  }

  lemma {:induction false} ItemsRead(stod: Stod, s: Text, done: seq<Value>) returns (items: seq<Item>)
    requires ParseItems(stod, s, done).Got?
    ensures items != [] && forall k :: 0 <= k < |items| ==> ItemOk(stod, items[k])
    ensures var r := ParseItems(stod, s, done);
      r.value == Array(done + ItemValues(stod, items, |items|)) && s == ItemsText(items, 0, r.rest)
    decreases |s|, 5
  {
    hide ParseValue, TreeText, TreeValue, TreeOk, ItemsText, ItemValues, Blanks;
    var r := ParseItems(stod, s, done);
    var x := ItemRead(stod, s);
    var u := SkipBlanks(ParseValue(stod, s).rest);
    assert u == [u[0]] + u[1..];
    var v := TreeValue(stod, x.tree);
    if u[0] == CLOSE_ARRAY {
      items := [x];
      LastItem(stod, x, r.rest);
    } else {
      var more := ItemsRead(stod, u[1..], done + [v]);
      items := [x] + more;
      AllItemsOk(stod, x, more);
      NextItem(x, more, r.rest);
      ValuesShift(stod, x, more, |more|);
      assert done + [v] + ItemValues(stod, more, |more|) == done + ItemValues(stod, items, |items|);
    }
  }

  lemma LastItem(stod: Stod, x: Item, rest: Text)
    requires ItemOk(stod, x)
    ensures ItemsText([x], 0, rest) == x.before + TreeText(x.tree, x.after + ([93] + rest))
    ensures ItemValues(stod, [x], 1) == [TreeValue(stod, x.tree)]
  {
    hide TreeText, TreeValue;
    assert ItemValues(stod, [x], 0) == [];
  }

  lemma NextItem(x: Item, more: seq<Item>, rest: Text)
    requires more != []
    ensures ItemsText([x] + more, 0, rest) == x.before + TreeText(x.tree, x.after + ([44] + ItemsText(more, 0, rest)))
  {
    hide TreeText;
    ItemsShift(x, more, 0, rest);
  }

  /** A member with its blanks, out of an accepted text. */
  lemma KeyItemRead(stod: Stod, s: Text) returns (e: KeyItem, value: Text)
    requires ParseKey(s).Got? && ParseValue(stod, ParseKey(s).rest).Got?
    ensures value == ParseKey(s).rest && KeyItemOk(stod, e) && ItemOk(stod, e.item) && FormsValue(e.key) == ParseKey(s).value
    ensures var r := ParseValue(stod, value);
      && TreeValue(stod, e.item.tree) == r.value && r.rest == e.item.after + SkipBlanks(r.rest)
      && s == e.before + [34] + FormsText(e.key, [34] + (e.after + [58] + (e.item.before + TreeText(e.item.tree, r.rest))))
    decreases |s|, 4
  {
    hide ParseValue, ParseKey, TreeText, TreeValue, TreeOk, FormsText, FormsValue, FormsOk, Blanks;
    var before, key, after := KeyRead(s);
    value := ParseKey(s).rest;
    var item := ItemRead(stod, value);
    e := KeyItem(before, key, after, item);
  }

  /** A key with its blanks and its colon. */
  lemma KeyRead(s: Text) returns (before: Text, key: Forms, after: Text)
    requires ParseKey(s).Got?
    ensures Blanks(before) && Blanks(after) && FormsOk(key) && FormsValue(key) == ParseKey(s).value
    ensures s == before + [34] + FormsText(key, [34] + (after + [58] + ParseKey(s).rest))
  {
    hide ParseChars, FormsText, FormsValue, FormsOk, Blanks;
    before := BlanksRead(s);
    var t := SkipBlanks(s);
    assert t == [34] + t[1..];
    key := CharsRead(t[1..], []);
    assert [] + FormsValue(key) == FormsValue(key);
    var s1 := ParseChars(t[1..], []).rest;
    after := ColonRead(s, s1);
    assert s == before + [34] + t[1..];
  }

  lemma ColonRead(s: Text, s1: Text) returns (after: Text)
    requires ParseKey(s).Got? && s1 == ParseChars(SkipBlanks(s)[1..], []).rest
    ensures Blanks(after) && s1 == after + [58] + ParseKey(s).rest
  {
    hide ParseChars, Blanks;
    after := BlanksRead(s1);
    var u := SkipBlanks(s1);
    assert u == [58] + u[1..];
  }

  lemma {:induction false} EntriesRead(stod: Stod, s: Text, done: seq<Member>) returns (es: seq<KeyItem>)
    requires ParseMembers(stod, s, done).Got?
    ensures es != [] && forall k :: 0 <= k < |es| ==> KeyItemOk(stod, es[k])
    ensures var r := ParseMembers(stod, s, done);
      r.value == Object(EntryValues(stod, done, es, |es|)) && s == EntriesText(es, 0, r.rest)
    decreases |s|, 5
  {
    hide ParseValue, ParseKey, TreeText, TreeValue, TreeOk, EntriesText, FormsText, FormsValue, FormsOk, Insert, KeyItemOk;
    var r := ParseMembers(stod, s, done);
    var x, value := KeyItemRead(stod, s);
    var u := SkipBlanks(ParseValue(stod, value).rest);
    assert u == [u[0]] + u[1..];
    KeyItemParts(stod, x);
    if u[0] == CLOSE_OBJECT {
      es := [x];
      LastEntry(stod, done, x, r.rest);
    } else {
      var done' := Insert(done, Member(FormsValue(x.key), TreeValue(stod, x.item.tree)));
      var more := EntriesRead(stod, u[1..], done');
      es := [x] + more;
      AllEntriesOk(stod, x, more);
      NextEntry(x, more, r.rest);
      MembersShift(stod, done, x, more, |more|);
    }
  }

  lemma KeyItemParts(stod: Stod, x: KeyItem)
    requires KeyItemOk(stod, x)
    ensures FormsOk(x.key) && ItemOk(stod, x.item) && TreeOk(stod, x.item.tree)
  {
  }

  lemma LastEntry(stod: Stod, done: seq<Member>, x: KeyItem, rest: Text)
    requires KeyItemOk(stod, x) && ItemOk(stod, x.item)
    ensures EntriesText([x], 0, rest) == x.before + [34] + FormsText(x.key, [34] + (x.after + [58] +
      (x.item.before + TreeText(x.item.tree, x.item.after + ([125] + rest)))))
    ensures EntryValues(stod, done, [x], 1) == Insert(done, Member(FormsValue(x.key), TreeValue(stod, x.item.tree)))
  {
    hide TreeText, TreeValue, FormsText, FormsValue, Insert;
    assert EntryValues(stod, done, [x], 0) == done;
  }

  lemma NextEntry(x: KeyItem, more: seq<KeyItem>, rest: Text)
    requires more != []
    ensures EntriesText([x] + more, 0, rest) == x.before + [34] + FormsText(x.key, [34] + (x.after + [58] +
      (x.item.before + TreeText(x.item.tree, x.item.after + ([44] + EntriesText(more, 0, rest))))))
  {
    hide TreeText, FormsText;
    EntriesShift(x, more, 0, rest);
  }

  // ---- the parser, exactly ----

  /** A text of the tree, with blanks around it. */
  ghost predicate TextOf(stod: Stod, text: Text, t: Tree) {
    TreeOk(stod, t) && exists before, after :: Blanks(before) && Blanks(after) && Ended(t, after)
                                               && text == before + TreeText(t, after)
  }

  /** The parser yields a value for a text iff the text is that of a tree which denotes the value. */
  lemma ParseExact(stod: Stod, text: Text, v: Value)
    ensures Parse(stod, text) == Some(v) <==> exists t :: TextOf(stod, text, t) && TreeValue(stod, t) == v
  {
    hide ParseValue, TreeText, TreeOk, TreeValue, Ended;
    if Parse(stod, text) == Some(v) {
      var before, t := TreeRead(stod, text);
      var after := BlanksRead(ParseValue(stod, text).rest);
      assert after + [] == after;
      assert TextOf(stod, text, t);
    }
    forall t | TextOf(stod, text, t) && TreeValue(stod, t) == v ensures Parse(stod, text) == Some(v) {
      var before, after :| Blanks(before) && Blanks(after) && Ended(t, after) && text == before + TreeText(t, after);
      TreeLaid(stod, t, after);
      ValueBehindBlanks(stod, before, TreeText(t, after));
      BlanksSkipped(after, []);
      assert after + [] == after;
    }
  }

  // ---- what the printer writes ----

  /** In the pretty form a line break and so many blanks; nothing in the compact one. */
  function NewLine(indent: int, depth: nat): (t: Text)
    ensures indent < 0 ==> t == []
    ensures indent >= 0 ==> |t| == 1 + indent * depth && t[0] == 10 && forall i :: 1 <= i < |t| ==> t[i] == 32
  {
    if indent < 0 then []
    else
      assert indent * depth >= 0;
      [10] + seq(indent * depth, i => 32)
  }

  /** How a byte is written in a string: seven by letters, the other control characters by their code. */
  function Written(c: Byte): Form {
    if c == 92 then Esc(92)
    else if c == 8 then Esc(98)
    else if c == 9 then Esc(116)
    else if c == 10 then Esc(110)
    else if c == 12 then Esc(102)
    else if c == 13 then Esc(114)
    else if c < 0x20 then Unit([48, 48, LOWER[c / 16], LOWER[c % 16]])
    else Raw(c)
  }

  function WrittenForms(s: Text): (fs: Forms)
    ensures |fs| == |s| && forall i :: 0 <= i < |s| ==> fs[i] == Written(s[i])
  {
    seq(|s|, i requires 0 <= i < |s| => Written(s[i]))
  }

  /** The tree the printer writes: every item on its own line, one level deeper than its brackets. */
  function Printed(v: Value, indent: int, depth: nat): Tree
    requires Plain(v)
    decreases v, 0
  {
    match v
    case Null => NullTree
    case Bool(b) => BoolTree(b)
    case Number(Whole(n)) => NumberTree(Digits(n < 0, Decimal(if n < 0 then -n else n), [], []))
    case String(s) => StringTree(WrittenForms(s))
    case Array(items) => ArrayTree([], PrintedItems(items, |items|, indent, depth))
    case Object(ms) => ObjectTree([], PrintedMembers(ms, |ms|, indent, depth))
  }

  function PrintedItems(items: seq<Value>, n: nat, indent: int, depth: nat): (r: seq<Item>)
    requires n <= |items| && forall k :: 0 <= k < |items| ==> Plain(items[k])
    ensures |r| == n
    decreases items, n
  {
    if n == 0 then []
    else
      PrintedItems(items, n - 1, indent, depth)
      + [Item(NewLine(indent, depth + 1), Printed(items[n - 1], indent, depth + 1),
              if n == |items| then NewLine(indent, depth) else [])]
  }

  function PrintedMembers(ms: seq<Member>, n: nat, indent: int, depth: nat): (r: seq<KeyItem>)
    requires n <= |ms| && forall k :: 0 <= k < |ms| ==> Plain(ms[k].value)
    ensures |r| == n
    decreases ms, n
  {
    if n == 0 then []
    else
      PrintedMembers(ms, n - 1, indent, depth)
      + [KeyItem(NewLine(indent, depth + 1), WrittenForms(ms[n - 1].key), [],
                 Item(if indent < 0 then [] else [32], Printed(ms[n - 1].value, indent, depth + 1),
                      if n == |ms| then NewLine(indent, depth) else []))]
  }

  lemma {:induction false} ItemAt(items: seq<Value>, n: nat, indent: int, depth: nat, i: nat)
    requires i < n <= |items| && forall k :: 0 <= k < |items| ==> Plain(items[k])
    ensures PrintedItems(items, n, indent, depth)[i] ==
      Item(NewLine(indent, depth + 1), Printed(items[i], indent, depth + 1),
           if i + 1 == |items| then NewLine(indent, depth) else [])
    decreases n
  {
    hide Printed;
    if i + 1 < n {
      ItemAt(items, n - 1, indent, depth, i);
    }
  }

  lemma {:induction false} MemberAt(ms: seq<Member>, n: nat, indent: int, depth: nat, i: nat)
    requires i < n <= |ms| && forall k :: 0 <= k < |ms| ==> Plain(ms[k].value)
    ensures PrintedMembers(ms, n, indent, depth)[i] ==
      KeyItem(NewLine(indent, depth + 1), WrittenForms(ms[i].key), [],
              Item(if indent < 0 then [] else [32], Printed(ms[i].value, indent, depth + 1),
                   if i + 1 == |ms| then NewLine(indent, depth) else []))
    decreases n
  {
    hide Printed;
    if i + 1 < n {
      MemberAt(ms, n - 1, indent, depth, i);
    }
  }

  lemma BreakIs(indent: int, depth: nat, tail: Text)
    ensures Break(indent, depth, tail) == NewLine(indent, depth) + tail
  {
    if indent >= 0 {
      assert indent * depth == depth * indent;
      assert [10] + Spaces(depth * indent) == NewLine(indent, depth);
    }
  }

  lemma WrittenIs(c: Byte)
    requires c != QUOTE
    ensures Escape(c) == FormText(Written(c))
  {
  }

  lemma {:induction false} CharsPrinted(s: Text, i: nat, tail: Text)
    requires i <= |s| && QuoteFreeText(s)
    ensures PrintChars(s, i, tail) == FormsText(WrittenForms(s[i..]), tail)
    decreases |s| - i
  {
    hide Escape, FormText, Written;
    if i < |s| {
      CharsPrinted(s, i + 1, tail);
      WrittenIs(s[i]);
      assert WrittenForms(s[i..]) == [Written(s[i])] + WrittenForms(s[i + 1..]);
      assert WrittenForms(s[i..])[1..] == WrittenForms(s[i + 1..]);
    } else {
      assert WrittenForms(s[i..]) == [];
    }
  }

  lemma StringPrinted(s: Text, tail: Text)
    requires QuoteFreeText(s)
    ensures PrintString(s, tail) == [34] + FormsText(WrittenForms(s), [34] + tail)
  {
    hide PrintChars, FormsText, WrittenForms;
    CharsPrinted(s, 0, [34] + tail);
    assert s[0..] == s;
  }

  /** The printer, exactly: the text of that tree, for every value without a quotation mark in its strings. */
  lemma {:induction false} PrintExact(v: Value, indent: int, depth: nat, tail: Text)
    requires Plain(v) && QuoteFree(v)
    ensures Print(v, indent, depth, tail) == TreeText(Printed(v, indent, depth), tail)
    decreases v, 0, 2
  {
    hide PrintItems, PrintMembers, PrintString, PrintInteger, FormsText, WrittenForms, Token, ItemsText, EntriesText, Decimal;
    match v
    case Null =>
    case Bool(_) =>
    case Number(numeral) => IntegerPrinted(numeral.n, tail);
    case String(s) => StringPrinted(s, tail);
    case Array(items) =>
      if items != [] {
        ItemsPrinted(items, 0, indent, depth, tail);
      }
      ArrayPrints(items, indent, depth, tail);
    case Object(ms) =>
      if ms != [] {
        MembersPrinted(ms, 0, indent, depth, tail);
      }
      ObjectPrints(ms, indent, depth, tail);
  }

  lemma ArrayPrints(items: seq<Value>, indent: int, depth: nat, tail: Text)
    requires forall k :: 0 <= k < |items| ==> Plain(items[k])
    ensures PrintItems(items, 0, indent, depth, tail) ==
      if items == [] then [] + [93] + tail else PrintItem(items, 0, indent, depth, tail)
  {
    hide PrintItem, Print;
  }

  lemma ObjectPrints(ms: seq<Member>, indent: int, depth: nat, tail: Text)
    requires forall k :: 0 <= k < |ms| ==> Plain(ms[k].value)
    ensures PrintMembers(ms, 0, indent, depth, tail) ==
      if ms == [] then [] + [125] + tail else PrintMember(ms, 0, indent, depth, tail)
  {
    hide PrintMember, Print;
  }

  lemma IntegerPrinted(n: int, tail: Text)
    ensures PrintInteger(n, tail) == Token(Digits(n < 0, Decimal(if n < 0 then -n else n), [], [])) + tail
  {
    hide Decimal;
  }

  lemma {:induction false} ItemsPrinted(items: seq<Value>, i: nat, indent: int, depth: nat, tail: Text)
    requires i < |items| && forall k :: 0 <= k < |items| ==> Plain(items[k]) && QuoteFree(items[k])
    ensures PrintItem(items, i, indent, depth, tail) == ItemsText(PrintedItems(items, |items|, indent, depth), i, tail)
    decreases items, |items| - i
  {
    hide Print, TreeText, Printed, Break, NewLine, Plain, QuoteFree;
    var next := PrintItems(items, i + 1, indent, depth, tail);
    ItemAt(items, |items|, indent, depth, i);
    PrintExact(items[i], indent, depth + 1, next);
    BreakIs(indent, depth + 1, Print(items[i], indent, depth + 1, next));
    if i + 1 < |items| {
      ItemsPrinted(items, i + 1, indent, depth, tail);
      assert [] + next == next;
    } else {
      BreakIs(indent, depth, [93] + tail);
    }
  }

  lemma {:induction false} MembersPrinted(ms: seq<Member>, i: nat, indent: int, depth: nat, tail: Text)
    requires i < |ms| && forall k :: 0 <= k < |ms| ==> Plain(ms[k].value) && QuoteFreeText(ms[k].key) && QuoteFree(ms[k].value)
    ensures PrintMember(ms, i, indent, depth, tail) == EntriesText(PrintedMembers(ms, |ms|, indent, depth), i, tail)
    decreases ms, |ms| - i
  {
    hide Print, TreeText, Printed, Break, NewLine, Plain, QuoteFree, PrintString, FormsText, WrittenForms, PrintMember;
    hide PrintMembers;
    var next := PrintMembers(ms, i + 1, indent, depth, tail);
    if i + 1 < |ms| {
      MembersPrinted(ms, i + 1, indent, depth, tail);
    }
    NextIs(ms, i, indent, depth, tail);
    MemberAt(ms, |ms|, indent, depth, i);
    PrintExact(ms[i].value, indent, depth + 1, next);
    MemberPrinted(ms, i, indent, depth, tail, next);
    assert i + 1 < |ms| ==> [] + next == next;
  }

  /** What stands behind a member. */
  lemma NextIs(ms: seq<Member>, i: nat, indent: int, depth: nat, tail: Text)
    requires i < |ms| && forall k :: 0 <= k < |ms| ==> Plain(ms[k].value)
    ensures PrintMembers(ms, i + 1, indent, depth, tail) ==
      if i + 1 == |ms| then NewLine(indent, depth) + ([125] + tail) else [44] + PrintMember(ms, i + 1, indent, depth, tail)
  {
    hide Print, Plain, PrintMember, Break;
    BreakIs(indent, depth, [125] + tail);
  }

  lemma MemberPrinted(ms: seq<Member>, i: nat, indent: int, depth: nat, tail: Text, next: Text)
    requires i < |ms| && forall k :: 0 <= k < |ms| ==> Plain(ms[k].value)
    requires QuoteFreeText(ms[i].key) && next == PrintMembers(ms, i + 1, indent, depth, tail)
    ensures PrintMember(ms, i, indent, depth, tail) ==
      NewLine(indent, depth + 1) + [34] + FormsText(WrittenForms(ms[i].key), [34] + ([] + [58] +
        ((if indent < 0 then [] else [32]) + Print(ms[i].value, indent, depth + 1, next))))
  {
    hide Print, Plain, PrintMembers, FormsText, WrittenForms, PrintString, Break, NewLine;
    var value := Print(ms[i].value, indent, depth + 1, next);
    var t := [58] + Gap(indent, value);
    assert Gap(indent, value) == (if indent < 0 then [] else [32]) + value;
    StringPrinted(ms[i].key, t);
    BreakIs(indent, depth + 1, PrintString(ms[i].key, t));
    assert [] + [58] + Gap(indent, value) == t;
    assert NewLine(indent, depth + 1) + ([34] + FormsText(WrittenForms(ms[i].key), [34] + t))
        == NewLine(indent, depth + 1) + [34] + FormsText(WrittenForms(ms[i].key), [34] + t);
  }
}
