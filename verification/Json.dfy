/** The JSON printer and parser: their grammars as functions, when parsing gives a printed value back,
    and the loops that implement them. */
module Json {
  import opened Basics
  import opened Bytes

  /** An integer below 10^15 in magnitude, or any other numeral by its token (its conversion to a double
      is not part of this model). */
  datatype Numeral = Whole(n: int) | Literal(token: Text)

  /** An object lists its members in ascending key order, as the ordered map of the source does. */
  datatype Value =
    | Null
    | Bool(b: bool)
    | Number(numeral: Numeral)
    | String(s: Text)
    | Array(items: seq<Value>)
    | Object(members: seq<Member>)

  datatype Member = Member(key: Text, value: Value)

  const LIMIT: int := 1_000_000_000_000_000

  const QUOTE: Byte := 34
  const COMMA: Byte := 44
  const COLON: Byte := 58
  const BACKSLASH: Byte := 92
  const OPEN_ARRAY: Byte := 91
  const CLOSE_ARRAY: Byte := 93
  const OPEN_OBJECT: Byte := 123
  const CLOSE_OBJECT: Byte := 125

  const TRUE_TEXT: Text := [116, 114, 117, 101]
  const FALSE_TEXT: Text := [102, 97, 108, 115, 101]
  const NULL_TEXT: Text := [110, 117, 108, 108]

  // ---- what a value may contain ----

  /** Every number is an integer below 10^15 in magnitude. */
  predicate Plain(v: Value) {
    match v
    case Number(Whole(n)) => -LIMIT < n < LIMIT
    case Number(Literal(_)) => false
    case Array(items) => forall i :: 0 <= i < |items| ==> Plain(items[i])
    case Object(members) => forall i :: 0 <= i < |members| ==> Plain(members[i].value)
    case _ => true
  }

  predicate QuoteFreeText(s: Text) {
    QUOTE !in s
  }

  /** No string and no key contains a quotation mark. */
  predicate QuoteFree(v: Value) {
    match v
    case String(s) => QuoteFreeText(s)
    case Array(items) => forall i :: 0 <= i < |items| ==> QuoteFree(items[i])
    case Object(members) =>
      forall i :: 0 <= i < |members| ==> QuoteFreeText(members[i].key) && QuoteFree(members[i].value)
    case _ => true
  }

  /** The order of strings: byte by byte, a prefix first. */
  predicate Before(a: Text, b: Text)
    decreases |a|
  {
    if a == [] then b != []
    else b != [] && (a[0] < b[0] || (a[0] == b[0] && Before(a[1..], b[1..])))
  }

  predicate Ascending(ms: seq<Member>) {
    forall i, j :: 0 <= i < j < |ms| ==> Before(ms[i].key, ms[j].key)
  }

  /** Every object is in the form an ordered map has. */
  predicate Ordered(v: Value) {
    match v
    case Array(items) => forall i :: 0 <= i < |items| ==> Ordered(items[i])
    case Object(members) => Ascending(members) && forall i :: 0 <= i < |members| ==> Ordered(members[i].value)
    case _ => true
  }

  // ---- printing ----

  function HexDigit(d: nat): Byte
    requires d < 16
  {
    if d < 10 then 48 + d else 87 + d
  }

  /** `write_escaped` of one byte.  The quotation mark is emitted bare. */
  function Escape(c: Byte): (e: Text)
    ensures |e| > 0
  {
    if c == QUOTE then [QUOTE]
    else if c == BACKSLASH then [BACKSLASH, BACKSLASH]
    else if c == 8 then [BACKSLASH, 98]
    else if c == 12 then [BACKSLASH, 102]
    else if c == 10 then [BACKSLASH, 110]
    else if c == 13 then [BACKSLASH, 114]
    else if c == 9 then [BACKSLASH, 116]
    else if c < 0x20 then [BACKSLASH, 117, 48, 48, HexDigit(c / 16), HexDigit(c % 16)]
    else [c]
  }

  function PrintChars(s: Text, i: nat, tail: Text): Text
    requires i <= |s|
    decreases |s| - i
  {
    if i == |s| then tail else Escape(s[i]) + PrintChars(s, i + 1, tail)
  }

  function PrintString(s: Text, tail: Text): Text {
    [QUOTE] + PrintChars(s, 0, [QUOTE] + tail)
  }

  function Decimal(n: nat): (ds: Text)
    ensures |ds| > 0
  {
    if n < 10 then [48 + n] else Decimal(n / 10) + [48 + n % 10]
  }

  function PrintInteger(n: int, tail: Text): Text {
    if n < 0 then [45] + Decimal(-n) + tail else Decimal(n) + tail
  }

  function Spaces(n: nat): (s: Text)
    ensures |s| == n && forall i :: 0 <= i < n ==> s[i] == 32
  {
    seq(n, i => 32)
  }

  /** A line break with its indentation, in pretty form only. */
  function Break(indent: int, depth: nat, tail: Text): Text {
    if indent >= 0 then [10] + Spaces(depth * indent) + tail else tail
  }

  function Gap(indent: int, tail: Text): Text {
    if indent >= 0 then [32] + tail else tail
  }

  /** `write_value`, followed by `tail`. */
  function Print(v: Value, indent: int, depth: nat, tail: Text): Text
    requires Plain(v)
    decreases v, 0
  {
    match v
    case Null => NULL_TEXT + tail
    case Bool(b) => (if b then TRUE_TEXT else FALSE_TEXT) + tail
    case Number(numeral) => PrintInteger(numeral.n, tail)
    case String(s) => PrintString(s, tail)
    case Array(items) => [OPEN_ARRAY] + PrintItems(items, 0, indent, depth, tail)
    case Object(members) => [OPEN_OBJECT] + PrintMembers(members, 0, indent, depth, tail)
  }

  /** The items from index i on, with the closing bracket. */
  function PrintItems(items: seq<Value>, i: nat, indent: int, depth: nat, tail: Text): Text
    requires i <= |items| && forall k :: 0 <= k < |items| ==> Plain(items[k])
    decreases items, |items| - i, 1
  {
    if i == |items| then
      if items != [] then Break(indent, depth, [CLOSE_ARRAY] + tail) else [CLOSE_ARRAY] + tail
    else if i > 0 then [COMMA] + PrintItem(items, i, indent, depth, tail)
    else PrintItem(items, i, indent, depth, tail)
  }

  function PrintItem(items: seq<Value>, i: nat, indent: int, depth: nat, tail: Text): Text
    requires i < |items| && forall k :: 0 <= k < |items| ==> Plain(items[k])
    decreases items, |items| - i, 0
  {
    Break(indent, depth + 1, Print(items[i], indent, depth + 1, PrintItems(items, i + 1, indent, depth, tail)))
  }

  function PrintMembers(ms: seq<Member>, i: nat, indent: int, depth: nat, tail: Text): Text
    requires i <= |ms| && forall k :: 0 <= k < |ms| ==> Plain(ms[k].value)
    decreases ms, |ms| - i, 1
  {
    if i == |ms| then
      if ms != [] then Break(indent, depth, [CLOSE_OBJECT] + tail) else [CLOSE_OBJECT] + tail
    else if i > 0 then [COMMA] + PrintMember(ms, i, indent, depth, tail)
    else PrintMember(ms, i, indent, depth, tail)
  }

  function PrintMember(ms: seq<Member>, i: nat, indent: int, depth: nat, tail: Text): Text
    requires i < |ms| && forall k :: 0 <= k < |ms| ==> Plain(ms[k].value)
    decreases ms, |ms| - i, 0
  {
    Break(indent, depth + 1, PrintString(ms[i].key, [COLON] + Gap(indent,
      Print(ms[i].value, indent, depth + 1, PrintMembers(ms, i + 1, indent, depth, tail)))))
  }

  /** `dump`; a negative indent is the compact form. */
  function Dump(v: Value, indent: int): Text
    requires Plain(v)
  {
    Print(v, indent, 0, [])
  }

  // ---- parsing ----

  predicate Blank(c: Byte) {
    c == 32 || c == 9 || c == 10 || c == 13
  }

  function SkipBlanks(s: Text): (r: Text)
    ensures |r| <= |s|
    decreases |s|
  {
    if s != [] && Blank(s[0]) then SkipBlanks(s[1..]) else s
  }

  function HexValue(c: Byte): Option<nat> {
    if 48 <= c <= 57 then Some(c - 48)
    else if 97 <= c <= 102 then Some(c - 87)
    else if 65 <= c <= 70 then Some(c - 55)
    else None
  }

  function Hex4(s: Text): (r: Parsed<nat>)
    ensures r.Got? ==> |r.rest| < |s| && r.value < 0x1_0000
  {
    if |s| < 4 then Fail
    else
      var a, b, c, d := HexValue(s[0]), HexValue(s[1]), HexValue(s[2]), HexValue(s[3]);
      if a.None? || b.None? || c.None? || d.None? then Fail
      else Got(((a.value * 16 + b.value) * 16 + c.value) * 16 + d.value, s[4..])
  }

  /** The code point behind a backslash and a u; a high surrogate must be followed by another escape,
      whose value is not checked further. */
  function CodePoint(s: Text): (r: Parsed<nat>)
    ensures r.Got? ==> |r.rest| < |s|
  {
    match Hex4(s)
    case Fail => Fail
    case Got(high, s1) =>
      if high < 0xD800 || high > 0xDBFF then Got(high, s1)
      else if |s1| < 2 || s1[0] != BACKSLASH || s1[1] != 117 then Fail
      else
        match Hex4(s1[2..])
        case Fail => Fail
        case Got(low, s2) => Got(0x1_0000 + (high - 0xD800) * 0x400 + low - 0xDC00, s2)
  }

  /** `append_utf8`: casts keep the low byte. */
  function Utf8(u: nat): Text {
    if u < 0x80 then [u]
    else if u < 0x800 then [0xC0 + u / 0x40, 0x80 + u % 0x40]
    else if u < 0x1_0000 then [0xE0 + u / 0x1000, 0x80 + u / 0x40 % 0x40, 0x80 + u % 0x40]
    else [0xF0 + u / 0x4_0000 % 0x10, 0x80 + u / 0x1000 % 0x40, 0x80 + u / 0x40 % 0x40, 0x80 + u % 0x40]
  }

  function SimpleEscape(e: Byte): Option<Byte> {
    if e == QUOTE then Some(QUOTE)
    else if e == BACKSLASH then Some(BACKSLASH)
    else if e == 47 then Some(47)
    else if e == 98 then Some(8)
    else if e == 102 then Some(12)
    else if e == 110 then Some(10)
    else if e == 114 then Some(13)
    else if e == 116 then Some(9)
    else None
  }

  /** The rest of a string, its opening quote taken and `out` already read. */
  function ParseChars(s: Text, out: Text): (r: Parsed<Text>)
    ensures r.Got? ==> |r.rest| < |s|
    decreases |s|
  {
    if s == [] then Fail
    else if s[0] == QUOTE then Got(out, s[1..])
    else if s[0] == BACKSLASH then
      if |s| < 2 then Fail
      else if SimpleEscape(s[1]).Some? then ParseChars(s[2..], out + [SimpleEscape(s[1]).value])
      else if s[1] != 117 then Fail
      else
        match CodePoint(s[2..])
        case Fail => Fail
        case Got(u, rest) => ParseChars(rest, out + Utf8(u))
    else if s[0] < 0x20 then Fail
    else ParseChars(s[1..], out + [s[0]])
  }

  predicate Digit(c: Byte) {
    48 <= c <= 57
  }

  /** How many digits the text starts with. */
  function DigitRun(s: Text): (n: nat)
    ensures n <= |s| && forall i :: 0 <= i < n ==> Digit(s[i])
    decreases |s|
  {
    if s != [] && Digit(s[0]) then 1 + DigitRun(s[1..]) else 0
  }

  function DecimalValue(ds: Text): int
    decreases |ds|
  {
    if ds == [] then 0 else DecimalValue(ds[..|ds| - 1]) * 10 + ds[|ds| - 1] - 48
  }

  /** Length of the integer digits: a zero alone, or a run not starting with zero. */
  function WholePart(s: Text): (n: Option<nat>)
    ensures n.Some? ==> 0 < n.value <= |s|
  {
    if s == [] then None
    else if s[0] == 48 then Some(1)
    else if Digit(s[0]) then Some(DigitRun(s))
    else None
  }

  /** Length of an optional fraction; None when the point lacks a digit. */
  function Fraction(s: Text): (n: Option<nat>)
    ensures n.Some? ==> n.value <= |s|
  {
    if s == [] || s[0] != 46 then Some(0)
    else if |s| < 2 || !Digit(s[1]) then None
    else Some(1 + DigitRun(s[1..]))
  }

  /** Length of an optional exponent; None when it lacks a digit. */
  function Exponent(s: Text): (n: Option<nat>)
    ensures n.Some? ==> n.value <= |s|
  {
    if s == [] || (s[0] != 101 && s[0] != 69) then Some(0)
    else
      var sign := if |s| >= 2 && (s[1] == 43 || s[1] == 45) then 1 else 0;
      if |s| < 2 + sign || !Digit(s[1 + sign]) then None
      else Some(1 + sign + DigitRun(s[1 + sign..]))
  }

  /** What the token of a number denotes. */
  function NumeralOf(token: Text, whole: bool): Numeral
    requires token != []
  {
    var negative := token[0] == 45;
    var n := if negative then -DecimalValue(token[1..]) else DecimalValue(token);
    if whole && -LIMIT < n < LIMIT then Whole(n) else Literal(token)
  }

  /** Which tokens `std::stod` converts without a range error; the others are refused.  The range is that of
      the C library, so it is a parameter; an integer below 10^15 in magnitude is always in range. */
  type Stod = Text -> bool

  function Converted(stod: Stod, token: Text, whole: bool): (v: Option<Value>)
    requires token != []
    ensures v.Some? ==> v.value.Number?
  {
    var numeral := NumeralOf(token, whole);
    if numeral.Literal? && !stod(token) then None else Some(Number(numeral))
  }

  function ParseNumber(stod: Stod, s: Text): (r: Parsed<Value>)
    ensures r.Got? ==> |r.rest| < |s|
  {
    var a := s[if s != [] && s[0] == 45 then 1 else 0..];
    match WholePart(a)
    case None => Fail
    case Some(n) =>
      var b := a[n..];
      match Fraction(b)
      case None => Fail
      case Some(f) =>
        var c := b[f..];
        match Exponent(c)
        case None => Fail
        case Some(e) =>
          var rest := c[e..];
          match Converted(stod, s[..|s| - |rest|], f == 0 && e == 0)
          case None => Fail
          case Some(v) => Got(v, rest)
  }

  function ParseLiteral(s: Text, text: Text, v: Value): (r: Parsed<Value>)
    ensures r.Got? ==> |r.rest| + |text| == |s|
  {
    if text <= s then Got(v, s[|text|..]) else Fail
  }

  /** The assignment `members[key] = value` of an ordered map. */
  function Insert(ms: seq<Member>, m: Member): (r: seq<Member>)
    ensures r != []
    decreases |ms|
  {
    if ms == [] then [m]
    else
      var last := ms[|ms| - 1];
      if Before(last.key, m.key) then ms + [m]
      else if last.key == m.key then ms[..|ms| - 1] + [m]
      else Insert(ms[..|ms| - 1], m) + [last]
  }

  function ParseValue(stod: Stod, text: Text): (r: Parsed<Value>)
    ensures r.Got? ==> |r.rest| < |text|
    decreases |text|, 0
  {
    var s := SkipBlanks(text);
    if s == [] then Fail
    else if s[0] == OPEN_OBJECT then
      var t := SkipBlanks(s[1..]);
      if t != [] && t[0] == CLOSE_OBJECT then Got(Object([]), t[1..]) else ParseMembers(stod, s[1..], [])
    else if s[0] == OPEN_ARRAY then
      var t := SkipBlanks(s[1..]);
      if t != [] && t[0] == CLOSE_ARRAY then Got(Array([]), t[1..]) else ParseItems(stod, s[1..], [])
    else if s[0] == QUOTE then
      match ParseChars(s[1..], [])
      case Fail => Fail
      case Got(str, rest) => Got(String(str), rest)
    else if s[0] == 116 then ParseLiteral(s, TRUE_TEXT, Bool(true))
    else if s[0] == 102 then ParseLiteral(s, FALSE_TEXT, Bool(false))
    else if s[0] == 110 then ParseLiteral(s, NULL_TEXT, Null)
    else ParseNumber(stod, s)
  }

  /** The loop of `parse_array` behind its opening bracket. */
  function ParseItems(stod: Stod, s: Text, done: seq<Value>): (r: Parsed<Value>)
    ensures r.Got? ==> |r.rest| < |s|
    decreases |s|, 1
  {
    match ParseValue(stod, s)
    case Fail => Fail
    case Got(v, s1) =>
      var t := SkipBlanks(s1);
      if t == [] then Fail
      else if t[0] == CLOSE_ARRAY then Got(Array(done + [v]), t[1..])
      else if t[0] == COMMA then ParseItems(stod, t[1..], done + [v])
      else Fail
  }

  /** A key with its colon. */
  function ParseKey(s: Text): (r: Parsed<Text>)
    ensures r.Got? ==> |r.rest| < |s|
  {
    var t := SkipBlanks(s);
    if t == [] || t[0] != QUOTE then Fail
    else
      match ParseChars(t[1..], [])
      case Fail => Fail
      case Got(key, s1) =>
        var u := SkipBlanks(s1);
        if u == [] || u[0] != COLON then Fail else Got(key, u[1..])
  }

  /** The loop of `parse_object` behind its opening brace. */
  function ParseMembers(stod: Stod, s: Text, done: seq<Member>): (r: Parsed<Value>)
    ensures r.Got? ==> |r.rest| < |s|
    decreases |s|, 1
  {
    match ParseKey(s)
    case Fail => Fail
    case Got(key, s1) =>
      match ParseValue(stod, s1)
      case Fail => Fail
      case Got(v, s2) =>
        var t := SkipBlanks(s2);
        if t == [] then Fail
        else if t[0] == CLOSE_OBJECT then Got(Object(Insert(done, Member(key, v))), t[1..])
        else if t[0] == COMMA then ParseMembers(stod, t[1..], Insert(done, Member(key, v)))
        else Fail
  }

  /** `Value::parse`: one value and nothing but blanks around it. */
  function Parse(stod: Stod, text: Text): Option<Value> {
    match ParseValue(stod, text)
    case Fail => None
    case Got(v, rest) => if SkipBlanks(rest) == [] then Some(v) else None
  }

  // ---- blanks ----

  lemma {:induction false} SkipRun(blanks: Text, s: Text)
    requires (forall i :: 0 <= i < |blanks| ==> Blank(blanks[i])) && (s == [] || !Blank(s[0]))
    ensures SkipBlanks(blanks + s) == s
    decreases |blanks|
  {
    if blanks == [] {
      assert blanks + s == s;
    } else {
      assert (blanks + s)[1..] == blanks[1..] + s;
      SkipRun(blanks[1..], s);
    }
  }

  lemma SkipBreak(indent: int, depth: nat, s: Text)
    requires s != [] && !Blank(s[0])
    ensures SkipBlanks(Break(indent, depth, s)) == s
  {
    if indent >= 0 {
      SkipRun([10] + Spaces(depth * indent), s);
    }
  }

  lemma SkipGap(indent: int, s: Text)
    requires s != [] && !Blank(s[0])
    ensures SkipBlanks(Gap(indent, s)) == s
  {
    SkipRun([32], s);
  }

  /** Blanks in front of a value make no difference. */
  lemma ParseSkips(stod: Stod, s: Text)
    ensures ParseValue(stod, SkipBlanks(s)) == ParseValue(stod, s)
  {
    SkipTwice(s);
  }

  lemma {:induction false} SkipTwice(s: Text)
    ensures SkipBlanks(SkipBlanks(s)) == SkipBlanks(s)
    decreases |s|
  {
    if s != [] && Blank(s[0]) {
      SkipTwice(s[1..]);
    }
  }

  // ---- numbers ----

  predicate Digits(ds: Text) {
    forall i :: 0 <= i < |ds| ==> Digit(ds[i])
  }

  lemma {:induction false} DecimalBack(n: nat)
    ensures Digits(Decimal(n)) && DecimalValue(Decimal(n)) == n
    ensures Decimal(n)[0] == 48 ==> Decimal(n) == [48]
  {
    if n < 10 {
      assert Decimal(n)[..0] == [];
    } else {
      DecimalBack(n / 10);
      var ds := Decimal(n);
      assert ds[..|ds| - 1] == Decimal(n / 10);
      assert ds[0] == Decimal(n / 10)[0];
      NotZero(n / 10);
    }
  }

  lemma NotZero(n: nat)
    requires n > 0
    ensures Decimal(n) != [48]
  {
    if n >= 10 {
      assert |Decimal(n)| == |Decimal(n / 10)| + 1 > 1;
    }
  }

  /** What may follow a number without becoming part of it. */
  predicate Ends(tail: Text) {
    tail == [] || !(Digit(tail[0]) || tail[0] == 46 || tail[0] == 101 || tail[0] == 69)
  }

  lemma {:induction false} RunOf(ds: Text, tail: Text)
    requires Digits(ds) && Ends(tail)
    ensures DigitRun(ds + tail) == |ds|
    decreases |ds|
  {
    if ds == [] {
      assert ds + tail == tail;
    } else {
      assert (ds + tail)[1..] == ds[1..] + tail;
      RunOf(ds[1..], tail);
    }
  }

  lemma WholePartOf(n: nat, tail: Text)
    requires Ends(tail)
    ensures WholePart(Decimal(n) + tail) == Some(|Decimal(n)|)
  {
    DecimalBack(n);
    RunOf(Decimal(n), tail);
    assert (Decimal(n) + tail)[0] == Decimal(n)[0];
  }

  lemma NumberBack(stod: Stod, n: int, tail: Text)
    requires -LIMIT < n < LIMIT && Ends(tail)
    ensures ParseNumber(stod, PrintInteger(n, tail)) == Got(Number(Whole(n)), tail)
  {
    hide Decimal, DecimalValue, WholePart, Converted;
    var m := if n < 0 then -n else n;
    var s := PrintInteger(n, tail);
    var sign := if n < 0 then 1 else 0;
    DecimalBack(m);
    WholePartOf(m, tail);
    assert s[sign..] == Decimal(m) + tail;
    var end := sign + |Decimal(m)|;
    assert s[end..] == tail;
    assert s[..end] == (if n < 0 then [45] else []) + Decimal(m);
    assert n >= 0 ==> s[0] == Decimal(m)[0] && Digit(s[0]);
    TokenBack(stod, n);
  }

  lemma TokenBack(stod: Stod, n: int)
    requires -LIMIT < n < LIMIT
    ensures var m := if n < 0 then -n else n;
            Converted(stod, (if n < 0 then [45] else []) + Decimal(m), true) == Some(Number(Whole(n)))
  {
    hide Decimal, DecimalValue;
    var m := if n < 0 then -n else n;
    DecimalBack(m);
    assert ([45] + Decimal(m))[1..] == Decimal(m);
    assert [] + Decimal(m) == Decimal(m) && Digit(Decimal(m)[0]);
  }

  // ---- strings ----

  lemma HexBack(d: nat)
    requires d < 16
    ensures HexValue(HexDigit(d)) == Some(d)
  {
  }

  lemma ControlBack(c: Byte, rest: Text)
    requires c < 0x20
    ensures CodePoint([48, 48, HexDigit(c / 16), HexDigit(c % 16)] + rest) == Got(c, rest)
  {
    HexBack(c / 16);
    HexBack(c % 16);
    var s := [48, 48, HexDigit(c / 16), HexDigit(c % 16)] + rest;
    assert s[4..] == rest;
    assert HexValue(48) == Some(0);
    hide HexDigit;
  }

  /** An escaped byte reads as that byte, unless it is a quotation mark. */
  lemma EscapeBack(c: Byte, rest: Text, out: Text)
    requires c != QUOTE
    ensures ParseChars(Escape(c) + rest, out) == ParseChars(rest, out + [c])
  {
    hide CodePoint, HexDigit;
    var s := Escape(c) + rest;
    if c < 0x20 && SimpleEscape(s[1]).None? {
      assert s[2..] == [48, 48, HexDigit(c / 16), HexDigit(c % 16)] + rest;
      ControlBack(c, rest);
    } else if s[0] == BACKSLASH {
      assert s[2..] == rest;
    } else {
      assert s[1..] == rest;
    }
  }

  lemma {:induction false} CharsBack(s: Text, i: nat, tail: Text)
    requires i <= |s| && QuoteFreeText(s)
    ensures ParseChars(PrintChars(s, i, [QUOTE] + tail), s[..i]) == Got(s, tail)
    decreases |s| - i
  {
    hide Escape;
    if i == |s| {
      assert s[..i] == s && ([QUOTE] + tail)[1..] == tail;
    } else {
      CharsBack(s, i + 1, tail);
      EscapeBack(s[i], PrintChars(s, i + 1, [QUOTE] + tail), s[..i]);
      assert s[..i] + [s[i]] == s[..i + 1];
      hide ParseChars;
    }
  }

  lemma StringBack(s: Text, tail: Text)
    requires QuoteFreeText(s)
    ensures PrintString(s, tail)[0] == QUOTE && ParseChars(PrintString(s, tail)[1..], []) == Got(s, tail)
  {
    hide ParseChars, PrintChars;
    CharsBack(s, 0, tail);
    assert s[..0] == [];
    assert PrintString(s, tail)[1..] == PrintChars(s, 0, [QUOTE] + tail);
  }

  // ---- values ----

  predicate Starts(s: Text) {
    s != [] && !Blank(s[0]) && s[0] != CLOSE_ARRAY && s[0] != CLOSE_OBJECT
  }

  lemma PrintStarts(v: Value, indent: int, depth: nat, tail: Text)
    requires Plain(v)
    ensures Starts(Print(v, indent, depth, tail))
  {
    match v
    case Number(numeral) =>
      var m := if numeral.n < 0 then -numeral.n else numeral.n;
      DecimalBack(m);
      assert (Decimal(m) + tail)[0] == Decimal(m)[0];
      assert Digit(Decimal(m)[0]);
    case _ =>
  }

  lemma ItemsEnd(items: seq<Value>, i: nat, indent: int, depth: nat, tail: Text)
    requires 0 < i <= |items| && forall k :: 0 <= k < |items| ==> Plain(items[k])
    ensures Ends(PrintItems(items, i, indent, depth, tail))
  {
    hide Print;
  }

  lemma MembersEnd(ms: seq<Member>, i: nat, indent: int, depth: nat, tail: Text)
    requires 0 < i <= |ms| && forall k :: 0 <= k < |ms| ==> Plain(ms[k].value)
    ensures Ends(PrintMembers(ms, i, indent, depth, tail))
  {
    hide Print, PrintString;
  }

  lemma NumberValueBack(stod: Stod, n: int, tail: Text)
    requires -LIMIT < n < LIMIT && Ends(tail)
    ensures ParseValue(stod, PrintInteger(n, tail)) == Got(Number(Whole(n)), tail)
  {
    hide ParseNumber;
    var s := PrintInteger(n, tail);
    var m := if n < 0 then -n else n;
    DecimalBack(m);
    assert (Decimal(m) + tail)[0] == Decimal(m)[0];
    assert Digit(Decimal(m)[0]);
    assert s[0] == 45 || Digit(s[0]);
    NumberBack(stod, n, tail);
  }

  lemma LiteralBack(text: Text, v: Value, tail: Text)
    ensures ParseLiteral(text + tail, text, v) == Got(v, tail)
  {
    assert (text + tail)[|text|..] == tail;
  }

  lemma WordBack(stod: Stod, v: Value, indent: int, depth: nat, tail: Text)
    requires v.Null? || v.Bool?
    ensures ParseValue(stod, Print(v, indent, depth, tail)) == Got(v, tail)
  {
    hide ParseLiteral;
    LiteralBack(NULL_TEXT, Null, tail);
    LiteralBack(TRUE_TEXT, Bool(true), tail);
    LiteralBack(FALSE_TEXT, Bool(false), tail);
  }

  lemma StringValueBack(stod: Stod, s: Text, tail: Text)
    requires QuoteFreeText(s)
    ensures ParseValue(stod, PrintString(s, tail)) == Got(String(s), tail)
  {
    hide ParseChars, PrintChars;
    StringBack(s, tail);
  }

  /** A value with the properties that make it readable. */
  predicate Sound(v: Value) {
    Plain(v) && QuoteFree(v) && Ordered(v)
  }

  predicate SoundItems(items: seq<Value>) {
    forall i :: 0 <= i < |items| ==> Sound(items[i])
  }

  predicate SoundMembers(ms: seq<Member>) {
    Ascending(ms) && forall i :: 0 <= i < |ms| ==> QuoteFreeText(ms[i].key) && Sound(ms[i].value)
  }

  lemma {:induction false} ValueBack(stod: Stod, v: Value, indent: int, depth: nat, tail: Text)
    requires Sound(v) && Ends(tail)
    ensures ParseValue(stod, Print(v, indent, depth, tail)) == Got(v, tail)
    decreases v, 0, 2
  {
    match v
    case Null => WordBack(stod, v, indent, depth, tail);
    case Bool(_) => WordBack(stod, v, indent, depth, tail);
    case Number(numeral) => NumberValueBack(stod, numeral.n, tail);
    case String(s) => StringValueBack(stod, s, tail);
    case Array(items) =>
      if items == [] {
        EmptyBack(stod, indent, depth, tail);
      } else {
        ItemsBack(stod, items, 0, indent, depth, tail);
        OpenArray(stod, items, indent, depth, tail);
      }
    case Object(ms) =>
      if ms == [] {
        EmptyBack(stod, indent, depth, tail);
      } else {
        MembersBack(stod, ms, 0, indent, depth, tail);
        OpenObject(stod, ms, indent, depth, tail);
      }
  }

  lemma EmptyBack(stod: Stod, indent: int, depth: nat, tail: Text)
    ensures ParseValue(stod, Print(Array([]), indent, depth, tail)) == Got(Array([]), tail)
    ensures ParseValue(stod, Print(Object([]), indent, depth, tail)) == Got(Object([]), tail)
  {
    hide ParseItems, ParseMembers;
    assert ([CLOSE_ARRAY] + tail)[1..] == tail && ([CLOSE_OBJECT] + tail)[1..] == tail;
    assert ([OPEN_ARRAY] + ([CLOSE_ARRAY] + tail))[1..] == [CLOSE_ARRAY] + tail;
    assert ([OPEN_OBJECT] + ([CLOSE_OBJECT] + tail))[1..] == [CLOSE_OBJECT] + tail;
  }

  lemma OpenArray(stod: Stod, items: seq<Value>, indent: int, depth: nat, tail: Text)
    requires SoundItems(items) && items != []
    ensures ParseValue(stod, [OPEN_ARRAY] + PrintItems(items, 0, indent, depth, tail))
         == ParseItems(stod, PrintItem(items, 0, indent, depth, tail), [])
  {
    hide ParseItems, ParseMembers, Print;
    var inner := Print(items[0], indent, depth + 1, PrintItems(items, 1, indent, depth, tail));
    PrintStarts(items[0], indent, depth + 1, PrintItems(items, 1, indent, depth, tail));
    SkipBreak(indent, depth + 1, inner);
    var s := [OPEN_ARRAY] + PrintItem(items, 0, indent, depth, tail);
    assert s[1..] == PrintItem(items, 0, indent, depth, tail);
  }

  lemma OpenObject(stod: Stod, ms: seq<Member>, indent: int, depth: nat, tail: Text)
    requires SoundMembers(ms) && ms != []
    ensures ParseValue(stod, [OPEN_OBJECT] + PrintMembers(ms, 0, indent, depth, tail))
         == ParseMembers(stod, PrintMember(ms, 0, indent, depth, tail), [])
  {
    hide ParseItems, ParseMembers, Print;
    var inner := PrintString(ms[0].key, [COLON] + Gap(indent,
      Print(ms[0].value, indent, depth + 1, PrintMembers(ms, 1, indent, depth, tail))));
    SkipBreak(indent, depth + 1, inner);
    var s := [OPEN_OBJECT] + PrintMember(ms, 0, indent, depth, tail);
    assert s[1..] == PrintMember(ms, 0, indent, depth, tail);
  }

  /** One item, read from behind the opening bracket or a comma. */
  lemma ItemStep(stod: Stod, items: seq<Value>, i: nat, indent: int, depth: nat, tail: Text)
    requires SoundItems(items) && i < |items|
    requires ParseValue(stod, Print(items[i], indent, depth + 1, PrintItems(items, i + 1, indent, depth, tail)))
          == Got(items[i], PrintItems(items, i + 1, indent, depth, tail))
    ensures ParseItems(stod, PrintItem(items, i, indent, depth, tail), items[..i]) ==
      if i + 1 == |items| then Got(Array(items), tail)
      else ParseItems(stod, PrintItem(items, i + 1, indent, depth, tail), items[..i + 1])
  {
    hide ParseValue, Print;
    var more := PrintItems(items, i + 1, indent, depth, tail);
    var inner := Print(items[i], indent, depth + 1, more);
    PrintStarts(items[i], indent, depth + 1, more);
    SkipBreak(indent, depth + 1, inner);
    ParseSkips(stod, PrintItem(items, i, indent, depth, tail));
    assert items[..i] + [items[i]] == items[..i + 1];
    if i + 1 == |items| {
      SkipBreak(indent, depth, [CLOSE_ARRAY] + tail);
      assert ([CLOSE_ARRAY] + tail)[1..] == tail;
      assert items[..i + 1] == items;
    } else {
      assert SkipBlanks(more) == more;
      assert more[1..] == PrintItem(items, i + 1, indent, depth, tail);
    }
  }

  lemma {:induction false} ItemsBack(stod: Stod, items: seq<Value>, i: nat, indent: int, depth: nat, tail: Text)
    requires SoundItems(items) && i < |items|
    ensures ParseItems(stod, PrintItem(items, i, indent, depth, tail), items[..i]) == Got(Array(items), tail)
    decreases items, |items| - i, 1
  {
    hide ParseValue, ParseItems, Print, PrintItems, PrintItem;
    ItemsEnd(items, i + 1, indent, depth, tail);
    ValueBack(stod, items[i], indent, depth + 1, PrintItems(items, i + 1, indent, depth, tail));
    ItemStep(stod, items, i, indent, depth, tail);
    if i + 1 < |items| {
      ItemsBack(stod, items, i + 1, indent, depth, tail);
    }
  }

  lemma KeyBack(key: Text, indent: int, depth: nat, rest: Text)
    requires QuoteFreeText(key)
    ensures ParseKey(Break(indent, depth, PrintString(key, [COLON] + rest))) == Got(key, rest)
  {
    hide ParseChars, PrintChars;
    var inner := PrintString(key, [COLON] + rest);
    SkipBreak(indent, depth, inner);
    StringBack(key, [COLON] + rest);
    assert ([COLON] + rest)[1..] == rest;
  }

  lemma InsertLast(ms: seq<Member>, i: nat)
    requires i < |ms| && Ascending(ms)
    ensures Insert(ms[..i], ms[i]) == ms[..i + 1]
  {
    assert ms[..i] + [ms[i]] == ms[..i + 1];
    if i > 0 {
      assert Before(ms[i - 1].key, ms[i].key);
      assert ms[..i][i - 1] == ms[i - 1];
    }
  }

  lemma MemberStep(stod: Stod, ms: seq<Member>, i: nat, indent: int, depth: nat, tail: Text)
    requires SoundMembers(ms) && i < |ms|
    requires ParseValue(stod, Print(ms[i].value, indent, depth + 1, PrintMembers(ms, i + 1, indent, depth, tail)))
          == Got(ms[i].value, PrintMembers(ms, i + 1, indent, depth, tail))
    ensures ParseMembers(stod, PrintMember(ms, i, indent, depth, tail), ms[..i]) ==
      if i + 1 == |ms| then Got(Object(ms), tail)
      else ParseMembers(stod, PrintMember(ms, i + 1, indent, depth, tail), ms[..i + 1])
  {
    hide ParseValue, Print, ParseKey, Insert, Ascending;
    var more := PrintMembers(ms, i + 1, indent, depth, tail);
    var inner := Print(ms[i].value, indent, depth + 1, more);
    PrintStarts(ms[i].value, indent, depth + 1, more);
    SkipGap(indent, inner);
    ParseSkips(stod, Gap(indent, inner));
    KeyBack(ms[i].key, indent, depth + 1, Gap(indent, inner));
    InsertLast(ms, i);
    assert Member(ms[i].key, ms[i].value) == ms[i];
    if i + 1 == |ms| {
      SkipBreak(indent, depth, [CLOSE_OBJECT] + tail);
      assert ([CLOSE_OBJECT] + tail)[1..] == tail;
      assert ms[..i + 1] == ms;
    } else {
      assert SkipBlanks(more) == more;
      assert more[1..] == PrintMember(ms, i + 1, indent, depth, tail);
    }
  }

  lemma {:induction false} MembersBack(stod: Stod, ms: seq<Member>, i: nat, indent: int, depth: nat, tail: Text)
    requires SoundMembers(ms) && i < |ms|
    ensures ParseMembers(stod, PrintMember(ms, i, indent, depth, tail), ms[..i]) == Got(Object(ms), tail)
    decreases ms, |ms| - i, 1
  {
    hide ParseValue, ParseMembers, Print, PrintMembers, PrintMember, Ascending;
    MembersEnd(ms, i + 1, indent, depth, tail);
    ValueBack(stod, ms[i].value, indent, depth + 1, PrintMembers(ms, i + 1, indent, depth, tail));
    MemberStep(stod, ms, i, indent, depth, tail);
    if i + 1 < |ms| {
      MembersBack(stod, ms, i + 1, indent, depth, tail);
    }
  }

  /** Parsing a printed value gives it back, at any indentation: pretty and compact forms denote the same. */
  lemma ParseDump(stod: Stod, v: Value, indent: int)
    requires Plain(v) && QuoteFree(v) && Ordered(v)
    ensures Parse(stod, Dump(v, indent)) == Some(v)
  {
    hide ParseValue, Print;
    ValueBack(stod, v, indent, 0, []);
  }

  // ---- and only quote-free values come back ----

  /** Every backslash opens one of the escapes the printer emits; none of them denotes a quotation mark. */
  predicate PrinterEscapes(s: Text)
    decreases |s|
  {
    if s == [] then true
    else if s[0] != BACKSLASH then PrinterEscapes(s[1..])
    else if |s| < 2 then false
    else if s[1] == BACKSLASH || (SimpleEscape(s[1]).Some? && s[1] != QUOTE && s[1] != 47) then PrinterEscapes(s[2..])
    else
      && s[1] == 117 && |s| >= 6 && s[2] == 48 && s[3] == 48 && 48 <= s[4] <= 49 && HexValue(s[5]).Some?
      && PrinterEscapes(s[6..])
  }

  lemma {:induction false} PlainPrefix(p: Text, s: Text)
    requires BACKSLASH !in p
    ensures PrinterEscapes(p + s) == PrinterEscapes(s)
    decreases |p|
  {
    if p == [] {
      assert p + s == s;
    } else {
      assert (p + s)[1..] == p[1..] + s;
      PlainPrefix(p[1..], s);
    }
  }

  lemma EscapeEscapes(c: Byte, s: Text)
    ensures PrinterEscapes(Escape(c) + s) == PrinterEscapes(s)
  {
    hide HexDigit;
    var t := Escape(c) + s;
    if t[0] != BACKSLASH {
      assert t[1..] == s;
    } else if t[1] != 117 {
      assert t[2..] == s;
    } else {
      HexBack(c / 16);
      HexBack(c % 16);
      assert t[6..] == s;
      TopHex(c);
    }
  }

  lemma TopHex(c: Byte)
    requires c < 0x20
    ensures 48 <= HexDigit(c / 16) <= 49
  {
  }

  lemma {:induction false} CharsEscapes(s: Text, i: nat, tail: Text)
    requires i <= |s|
    ensures PrinterEscapes(PrintChars(s, i, tail)) == PrinterEscapes(tail)
    decreases |s| - i
  {
    hide PrinterEscapes, Escape;
    if i < |s| {
      CharsEscapes(s, i + 1, tail);
      EscapeEscapes(s[i], PrintChars(s, i + 1, tail));
    }
  }

  lemma StringEscapes(s: Text, tail: Text)
    ensures PrinterEscapes(PrintString(s, tail)) == PrinterEscapes(tail)
  {
    hide PrinterEscapes, PrintChars;
    CharsEscapes(s, 0, [QUOTE] + tail);
    PlainPrefix([QUOTE], tail);
    PlainPrefix([QUOTE], PrintChars(s, 0, [QUOTE] + tail));
  }

  lemma BreakEscapes(indent: int, depth: nat, tail: Text)
    ensures PrinterEscapes(Break(indent, depth, tail)) == PrinterEscapes(tail)
  {
    hide PrinterEscapes;
    if indent >= 0 {
      PlainPrefix([10] + Spaces(depth * indent), tail);
    }
  }

  lemma GapEscapes(indent: int, tail: Text)
    ensures PrinterEscapes(Gap(indent, tail)) == PrinterEscapes(tail)
  {
    hide PrinterEscapes;
    PlainPrefix([32], tail);
  }

  lemma IntegerEscapes(n: int, tail: Text)
    ensures PrinterEscapes(PrintInteger(n, tail)) == PrinterEscapes(tail)
  {
    hide PrinterEscapes, Decimal, DecimalValue;
    var m := if n < 0 then -n else n;
    DecimalBack(m);
    assert BACKSLASH !in Decimal(m) by {
      assert forall i :: 0 <= i < |Decimal(m)| ==> Digit(Decimal(m)[i]);
    }
    PlainPrefix([45] + Decimal(m), tail);
    PlainPrefix(Decimal(m), tail);
  }

  /** The printer escapes nothing else, whatever it prints. */
  lemma {:induction false} PrintEscapes(v: Value, indent: int, depth: nat, tail: Text)
    requires Plain(v)
    ensures PrinterEscapes(Print(v, indent, depth, tail)) == PrinterEscapes(tail)
    decreases v, 0, 2
  {
    hide PrinterEscapes;
    match v
    case Null => PlainPrefix(NULL_TEXT, tail);
    case Bool(b) => PlainPrefix(if b then TRUE_TEXT else FALSE_TEXT, tail);
    case Number(numeral) => IntegerEscapes(numeral.n, tail);
    case String(s) => StringEscapes(s, tail);
    case Array(items) =>
      ItemsEscapes(items, 0, indent, depth, tail);
      PlainPrefix([OPEN_ARRAY], PrintItems(items, 0, indent, depth, tail));
    case Object(ms) =>
      MembersEscapes(ms, 0, indent, depth, tail);
      PlainPrefix([OPEN_OBJECT], PrintMembers(ms, 0, indent, depth, tail));
  }

  lemma {:induction false} ItemsEscapes(items: seq<Value>, i: nat, indent: int, depth: nat, tail: Text)
    requires i <= |items| && forall k :: 0 <= k < |items| ==> Plain(items[k])
    ensures PrinterEscapes(PrintItems(items, i, indent, depth, tail)) == PrinterEscapes(tail)
    decreases items, |items| - i, 1
  {
    hide PrinterEscapes, Print, Break;
    if i == |items| {
      BreakEscapes(indent, depth, [CLOSE_ARRAY] + tail);
      PlainPrefix([CLOSE_ARRAY], tail);
    } else {
      var more := PrintItems(items, i + 1, indent, depth, tail);
      ItemsEscapes(items, i + 1, indent, depth, tail);
      PrintEscapes(items[i], indent, depth + 1, more);
      BreakEscapes(indent, depth + 1, Print(items[i], indent, depth + 1, more));
      PlainPrefix([COMMA], PrintItem(items, i, indent, depth, tail));
    }
  }

  lemma {:induction false} MembersEscapes(ms: seq<Member>, i: nat, indent: int, depth: nat, tail: Text)
    requires i <= |ms| && forall k :: 0 <= k < |ms| ==> Plain(ms[k].value)
    ensures PrinterEscapes(PrintMembers(ms, i, indent, depth, tail)) == PrinterEscapes(tail)
    decreases ms, |ms| - i, 1
  {
    hide PrinterEscapes, Print, Break, Gap, PrintString;
    if i == |ms| {
      BreakEscapes(indent, depth, [CLOSE_OBJECT] + tail);
      PlainPrefix([CLOSE_OBJECT], tail);
    } else {
      var more := PrintMembers(ms, i + 1, indent, depth, tail);
      var inner := Print(ms[i].value, indent, depth + 1, more);
      MembersEscapes(ms, i + 1, indent, depth, tail);
      PrintEscapes(ms[i].value, indent, depth + 1, more);
      GapEscapes(indent, inner);
      PlainPrefix([COLON], Gap(indent, inner));
      StringEscapes(ms[i].key, [COLON] + Gap(indent, inner));
      BreakEscapes(indent, depth + 1, PrintString(ms[i].key, [COLON] + Gap(indent, inner)));
      PlainPrefix([COMMA], PrintMember(ms, i, indent, depth, tail));
    }
  }

  // what the parser reads from such a text

  lemma DropPlain(s: Text, k: nat)
    requires PrinterEscapes(s) && k <= |s| && BACKSLASH !in s[..k]
    ensures PrinterEscapes(s[k..])
  {
    assert s == s[..k] + s[k..];
    PlainPrefix(s[..k], s[k..]);
  }

  lemma {:induction false} SkipKeeps(s: Text)
    requires PrinterEscapes(s)
    ensures PrinterEscapes(SkipBlanks(s))
    decreases |s|
  {
    if s != [] && Blank(s[0]) {
      SkipKeeps(s[1..]);
    }
  }

  lemma UnicodeIsControl(s: Text)
    requires |s| >= 4 && s[0] == 48 && s[1] == 48 && 48 <= s[2] <= 49 && HexValue(s[3]).Some?
    ensures CodePoint(s).Got? && CodePoint(s).rest == s[4..]
    ensures QUOTE !in Utf8(CodePoint(s).value)
  {
    var x := HexValue(s[3]).value;
    assert 0 <= x < 16;
    assert CodePoint(s).value == (s[2] - 48) * 16 + x < 0x20;
  }

  lemma {:induction false} CharsQuoteFree(s: Text, out: Text)
    requires PrinterEscapes(s) && QuoteFreeText(out) && ParseChars(s, out).Got?
    ensures QuoteFreeText(ParseChars(s, out).value) && PrinterEscapes(ParseChars(s, out).rest)
    decreases |s|
  {
    hide CodePoint, Utf8, HexValue;
    if s[0] == QUOTE {
    } else if s[0] == BACKSLASH {
      if SimpleEscape(s[1]).Some? {
        CharsQuoteFree(s[2..], out + [SimpleEscape(s[1]).value]);
      } else {
        assert s[2..][4..] == s[6..];
        UnicodeIsControl(s[2..]);
        CharsQuoteFree(CodePoint(s[2..]).rest, out + Utf8(CodePoint(s[2..]).value));
      }
    } else {
      CharsQuoteFree(s[1..], out + [s[0]]);
    }
  }

  lemma SignKeeps(s: Text)
    requires PrinterEscapes(s)
    ensures PrinterEscapes(s[if s != [] && s[0] == 45 then 1 else 0..])
  {
  }

  lemma WholeKeeps(s: Text)
    requires PrinterEscapes(s) && WholePart(s).Some?
    ensures PrinterEscapes(s[WholePart(s).value..])
  {
    hide PrinterEscapes;
    DropPlain(s, WholePart(s).value);
  }

  lemma FractionKeeps(s: Text)
    requires PrinterEscapes(s) && Fraction(s).Some?
    ensures PrinterEscapes(s[Fraction(s).value..])
  {
    hide PrinterEscapes, Fraction;
    FractionPlain(s);
    DropPlain(s, Fraction(s).value);
  }

  lemma ExponentKeeps(s: Text)
    requires PrinterEscapes(s) && Exponent(s).Some?
    ensures PrinterEscapes(s[Exponent(s).value..])
  {
    hide PrinterEscapes, Exponent;
    ExponentPlain(s);
    DropPlain(s, Exponent(s).value);
  }

  lemma NumberQuoteFree(stod: Stod, s: Text)
    requires PrinterEscapes(s) && ParseNumber(stod, s).Got?
    ensures QuoteFree(ParseNumber(stod, s).value) && PrinterEscapes(ParseNumber(stod, s).rest)
  {
    hide Converted, PrinterEscapes, WholePart, Fraction, Exponent;
    var a := s[if s != [] && s[0] == 45 then 1 else 0..];
    SignKeeps(s);
    var b := a[WholePart(a).value..];
    WholeKeeps(a);
    var c := b[Fraction(b).value..];
    FractionKeeps(b);
    ExponentKeeps(c);
  }

  lemma FractionPlain(s: Text)
    requires Fraction(s).Some?
    ensures BACKSLASH !in s[..Fraction(s).value]
  {
    var f := Fraction(s).value;
    forall i | 0 <= i < f ensures s[i] != BACKSLASH {
      if i > 0 {
        assert s[1..][i - 1] == s[i];
      }
    }
  }

  lemma ExponentPlain(s: Text)
    requires Exponent(s).Some?
    ensures BACKSLASH !in s[..Exponent(s).value]
  {
    var e := Exponent(s).value;
    var sign := if |s| >= 2 && (s[1] == 43 || s[1] == 45) then 1 else 0;
    forall i | 0 <= i < e ensures s[i] != BACKSLASH {
      if i > sign {
        assert s[1 + sign..][i - 1 - sign] == s[i];
      }
    }
  }

  lemma LiteralKeeps(s: Text, text: Text, v: Value)
    requires PrinterEscapes(s) && BACKSLASH !in text && ParseLiteral(s, text, v).Got?
    ensures PrinterEscapes(ParseLiteral(s, text, v).rest) && ParseLiteral(s, text, v).value == v
  {
    DropPlain(s, |text|);
  }

  lemma InsertQuoteFree(ms: seq<Member>, m: Member)
    requires QuoteFree(Object(ms)) && QuoteFreeText(m.key) && QuoteFree(m.value)
    ensures QuoteFree(Object(Insert(ms, m)))
    decreases |ms|
  {
    hide Before;
    if ms != [] {
      InsertQuoteFree(ms[..|ms| - 1], m);
    }
  }

  lemma {:induction false} ValueQuoteFree(stod: Stod, text: Text)
    requires PrinterEscapes(text) && ParseValue(stod, text).Got?
    ensures QuoteFree(ParseValue(stod, text).value) && PrinterEscapes(ParseValue(stod, text).rest)
    decreases |text|, 0
  {
    hide PrinterEscapes, ParseNumber, ParseLiteral, ParseItems, ParseMembers, ParseChars;
    SkipKeeps(text);
    var s := SkipBlanks(text);
    if s[0] == 116 {
      LiteralKeeps(s, TRUE_TEXT, Bool(true));
    } else if s[0] == 102 {
      LiteralKeeps(s, FALSE_TEXT, Bool(false));
    } else if s[0] == 110 {
      LiteralKeeps(s, NULL_TEXT, Null);
    } else if s[0] == QUOTE {
      DropPlain(s, 1);
      CharsQuoteFree(s[1..], []);
    } else if s[0] == OPEN_ARRAY {
      DropPlain(s, 1);
      SkipKeeps(s[1..]);
      var t := SkipBlanks(s[1..]);
      if t != [] && t[0] == CLOSE_ARRAY {
        DropPlain(t, 1);
      } else {
        ItemsQuoteFree(stod, s[1..], []);
      }
    } else if s[0] == OPEN_OBJECT {
      DropPlain(s, 1);
      SkipKeeps(s[1..]);
      var t := SkipBlanks(s[1..]);
      if t != [] && t[0] == CLOSE_OBJECT {
        DropPlain(t, 1);
      } else {
        MembersQuoteFree(stod, s[1..], []);
      }
    } else {
      NumberQuoteFree(stod, s);
    }
  }

  lemma {:induction false} ItemsQuoteFree(stod: Stod, s: Text, done: seq<Value>)
    requires PrinterEscapes(s) && QuoteFree(Array(done)) && ParseItems(stod, s, done).Got?
    ensures QuoteFree(ParseItems(stod, s, done).value) && PrinterEscapes(ParseItems(stod, s, done).rest)
    decreases |s|, 1
  {
    hide PrinterEscapes, ParseValue;
    ValueQuoteFree(stod, s);
    var r := ParseValue(stod, s);
    SkipKeeps(r.rest);
    var t := SkipBlanks(r.rest);
    DropPlain(t, 1);
    if t[0] == COMMA {
      ItemsQuoteFree(stod, t[1..], done + [r.value]);
    }
  }

  lemma KeyQuoteFree(s: Text)
    requires PrinterEscapes(s) && ParseKey(s).Got?
    ensures QuoteFreeText(ParseKey(s).value) && PrinterEscapes(ParseKey(s).rest)
  {
    hide PrinterEscapes, ParseChars;
    SkipKeeps(s);
    var t := SkipBlanks(s);
    DropPlain(t, 1);
    CharsQuoteFree(t[1..], []);
    var r := ParseChars(t[1..], []);
    SkipKeeps(r.rest);
    DropPlain(SkipBlanks(r.rest), 1);
  }

  lemma {:induction false} MembersQuoteFree(stod: Stod, s: Text, done: seq<Member>)
    requires PrinterEscapes(s) && QuoteFree(Object(done)) && ParseMembers(stod, s, done).Got?
    ensures QuoteFree(ParseMembers(stod, s, done).value) && PrinterEscapes(ParseMembers(stod, s, done).rest)
    decreases |s|, 1
  {
    hide PrinterEscapes, ParseValue, ParseKey, Insert, QuoteFree, QuoteFreeText;
    KeyQuoteFree(s);
    var k := ParseKey(s);
    ValueQuoteFree(stod, k.rest);
    var r := ParseValue(stod, k.rest);
    InsertQuoteFree(done, Member(k.value, r.value));
    SkipKeeps(r.rest);
    var t := SkipBlanks(r.rest);
    DropPlain(t, 1);
    if t[0] == COMMA {
      MembersQuoteFree(stod, t[1..], Insert(done, Member(k.value, r.value)));
    }
  }

  /** A printed value with integer numbers is read back as itself exactly when none of its strings and
      keys contains a quotation mark. */
  lemma ReadsBackIffQuoteFree(stod: Stod, v: Value, indent: int)
    requires Plain(v) && Ordered(v)
    ensures Parse(stod, Dump(v, indent)) == Some(v) <==> QuoteFree(v)
  {
    hide ParseValue, Print, QuoteFree;
    if QuoteFree(v) {
      ParseDump(stod, v, indent);
    }
    PrintEscapes(v, indent, 0, []);
    if Parse(stod, Dump(v, indent)) == Some(v) {
      ValueQuoteFree(stod, Dump(v, indent));
    }
  }

  /** The shortest failing document: the string holding one quotation mark is printed as three of them,
      which is an empty string followed by a stray mark. */
  lemma BareQuoteBreaks(stod: Stod)
    ensures Dump(String([QUOTE]), -1) == [QUOTE, QUOTE, QUOTE]
    ensures Parse(stod, [QUOTE, QUOTE, QUOTE]).None?
  {
    var s: Text := [QUOTE, QUOTE, QUOTE];
    assert [QUOTE] + [] == [QUOTE];
    assert s[1..] == [QUOTE, QUOTE];
    assert s[1..][1..] == [QUOTE];
    assert PrintChars([QUOTE], 0, [QUOTE]) == Escape(QUOTE) + PrintChars([QUOTE], 1, [QUOTE]);
    assert ParseChars(s[1..], []) == Got([], [QUOTE]);
  }

  // ---- the ordered map ----

  lemma {:induction false} BeforeTransitive(a: Text, b: Text, c: Text)
    requires Before(a, b) && Before(b, c)
    ensures Before(a, c)
    decreases |a|
  {
    if a != [] && a[0] == b[0] == c[0] {
      BeforeTransitive(a[1..], b[1..], c[1..]);
    }
  }

  lemma {:induction false} BeforeTotal(a: Text, b: Text)
    ensures Before(a, b) || a == b || Before(b, a)
    ensures !(Before(a, b) && Before(b, a)) && !Before(a, a)
    decreases |a|
  {
    if a != [] && b != [] && a[0] == b[0] {
      BeforeTotal(a[1..], b[1..]);
      assert a == [a[0]] + a[1..] && b == [b[0]] + b[1..];
    }
    if a != [] {
      BeforeTotal(a[1..], a[1..]);
    }
  }

  function Find(ms: seq<Member>, key: Text): Option<Value>
    decreases |ms|
  {
    if ms == [] then None
    else if ms[|ms| - 1].key == key then Some(ms[|ms| - 1].value)
    else Find(ms[..|ms| - 1], key)
  }

  /** Assigning a member changes what is found under its key, and nothing else. */
  lemma {:induction false} InsertAssigns(ms: seq<Member>, m: Member, key: Text)
    ensures Find(Insert(ms, m), key) == if key == m.key then Some(m.value) else Find(ms, key)
    decreases |ms|
  {
    hide Before;
    var r := Insert(ms, m);
    if ms != [] {
      var rest, last := ms[..|ms| - 1], ms[|ms| - 1];
      if Before(last.key, m.key) {
        assert r[..|r| - 1] == ms;
      } else if last.key == m.key {
        assert r[..|r| - 1] == rest;
      } else {
        InsertAssigns(rest, m, key);
        assert r[..|r| - 1] == Insert(rest, m);
      }
    }
  }

  /** Assigning a member keeps the keys ascending. */
  lemma {:induction false} InsertAscending(ms: seq<Member>, m: Member)
    requires Ascending(ms)
    ensures Ascending(Insert(ms, m))
    ensures forall k :: 0 <= k < |Insert(ms, m)| ==>
      Insert(ms, m)[k].key == m.key || exists i :: 0 <= i < |ms| && ms[i] == Insert(ms, m)[k]
    decreases |ms|
  {
    hide Before;
    if ms != [] {
      var n := |ms| - 1;
      var rest, last := ms[..n], ms[n];
      BeforeTotal(last.key, m.key);
      if Before(last.key, m.key) {
        forall i | 0 <= i < n ensures Before(ms[i].key, m.key) {
          BeforeTransitive(ms[i].key, last.key, m.key);
        }
      } else if last.key != m.key {
        InsertAscending(rest, m);
        forall k | 0 <= k < |Insert(rest, m)| ensures Before(Insert(rest, m)[k].key, last.key) {
          if Insert(rest, m)[k].key != m.key {
            var i :| 0 <= i < n && rest[i] == Insert(rest, m)[k];
            assert Before(ms[i].key, ms[n].key);
          }
        }
      }
    }
  }
}
