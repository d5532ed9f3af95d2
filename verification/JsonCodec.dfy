/** The JSON printer appending to its output, and the recursive-descent parser advancing its cursor. */
module JsonCodec {
  import opened Basics
  import opened Bytes
  import opened Json

  class Printer {
    var out: Text

    constructor ()
      ensures out == []
    {
      out := [];
    }

    method Append(t: Text)
      modifies this
      ensures forall tail {:trigger t + tail} :: out + tail == old(out) + (t + tail)
    {
      out := out + t;
      forall tail ensures out + tail == old(out) + (t + tail) {
        assert (old(out) + t) + tail == old(out) + (t + tail);
      }
    }

    /** `write_escaped`. */
    method WriteEscaped(s: Text)
      modifies this
      ensures forall tail {:trigger PrintString(s, tail)} ::
        out + tail == old(out) + PrintString(s, tail)
    {
      hide Escape;
      Append([QUOTE]);
      for i := 0 to |s|
        invariant forall tail :: out + PrintChars(s, i, [QUOTE] + tail) == old(out) + PrintString(s, tail)
      {
        Append(Escape(s[i]));
      }
      Append([QUOTE]);
    }

    method WriteBreak(indent: int, depth: nat)
      modifies this
      ensures forall tail {:trigger Break(indent, depth, tail)} ::
        out + tail == old(out) + Break(indent, depth, tail)
    {
      if indent >= 0 {
        Append([10] + Spaces(depth * indent));
      } else {
        forall tail ensures Break(indent, depth, tail) == tail {
        }
      }
    }

    method WriteInteger(n: int)
      modifies this
      ensures forall tail {:trigger PrintInteger(n, tail)} ::
        out + tail == old(out) + PrintInteger(n, tail)
    {
      hide Decimal;
      if n < 0 {
        Append([45] + Decimal(-n));
      } else {
        Append(Decimal(n));
      }
    }

    /** `write_value`. */
    method WriteValue(v: Value, indent: int, depth: nat)
      requires Plain(v)
      modifies this
      ensures forall tail {:trigger Print(v, indent, depth, tail)} ::
        out + tail == old(out) + Print(v, indent, depth, tail)
      decreases v, 2
    {
      hide PrintString, PrintInteger, PrintItems, PrintMembers;
      match v
      case Null => Append(NULL_TEXT);
      case Bool(b) => Append(if b then TRUE_TEXT else FALSE_TEXT);
      case Number(numeral) => WriteInteger(numeral.n);
      case String(s) => WriteEscaped(s);
      case Array(items) =>
        Append([OPEN_ARRAY]);
        WriteItems(items, indent, depth);
      case Object(members) =>
        Append([OPEN_OBJECT]);
        WriteMembers(members, indent, depth);
    }

    method WriteItem(items: seq<Value>, i: nat, indent: int, depth: nat)
      requires i < |items| && forall k :: 0 <= k < |items| ==> Plain(items[k])
      modifies this
      ensures forall tail {:trigger PrintItem(items, i, indent, depth, tail)} ::
        out + PrintItems(items, i + 1, indent, depth, tail) == old(out) + PrintItem(items, i, indent, depth, tail)
      decreases items, 0
    {
      hide Print, Break, PrintItems;
      WriteBreak(indent, depth + 1);
      WriteValue(items[i], indent, depth + 1);
    }

    method WriteItems(items: seq<Value>, indent: int, depth: nat)
      requires forall k :: 0 <= k < |items| ==> Plain(items[k])
      modifies this
      ensures forall tail {:trigger PrintItems(items, 0, indent, depth, tail)} ::
        out + tail == old(out) + PrintItems(items, 0, indent, depth, tail)
      decreases items, 1
    {
      hide Print, Break, PrintItem;
      for i := 0 to |items|
        invariant forall tail ::
          out + PrintItems(items, i, indent, depth, tail) == old(out) + PrintItems(items, 0, indent, depth, tail)
      {
        if i > 0 {
          Append([COMMA]);
        }
        WriteItem(items, i, indent, depth);
      }
      if items != [] {
        WriteBreak(indent, depth);
      }
      Append([CLOSE_ARRAY]);
    }

    method WriteMember(ms: seq<Member>, i: nat, indent: int, depth: nat)
      requires i < |ms| && forall k :: 0 <= k < |ms| ==> Plain(ms[k].value)
      modifies this
      ensures forall tail {:trigger PrintMember(ms, i, indent, depth, tail)} ::
        out + PrintMembers(ms, i + 1, indent, depth, tail) == old(out) + PrintMember(ms, i, indent, depth, tail)
      decreases ms, 0
    {
      hide Print, Break, PrintString, PrintMembers, Gap;
      WriteBreak(indent, depth + 1);
      WriteEscaped(ms[i].key);
      Append([COLON]);
      WriteGap(indent);
      WriteValue(ms[i].value, indent, depth + 1);
    }

    method WriteGap(indent: int)
      modifies this
      ensures forall tail {:trigger Gap(indent, tail)} ::
        out + tail == old(out) + Gap(indent, tail)
    {
      if indent >= 0 {
        Append([32]);
      } else {
        forall tail ensures Gap(indent, tail) == tail {
        }
      }
    }

    method WriteMembers(ms: seq<Member>, indent: int, depth: nat)
      requires forall k :: 0 <= k < |ms| ==> Plain(ms[k].value)
      modifies this
      ensures forall tail {:trigger PrintMembers(ms, 0, indent, depth, tail)} ::
        out + tail == old(out) + PrintMembers(ms, 0, indent, depth, tail)
      decreases ms, 1
    {
      hide Print, Break, PrintMember;
      for i := 0 to |ms|
        invariant forall tail ::
          out + PrintMembers(ms, i, indent, depth, tail) == old(out) + PrintMembers(ms, 0, indent, depth, tail)
      {
        if i > 0 {
          Append([COMMA]);
        }
        WriteMember(ms, i, indent, depth);
      }
      if ms != [] {
        WriteBreak(indent, depth);
      }
      Append([CLOSE_OBJECT]);
    }
  }

  /** `dump`. */
  method DumpValue(v: Value, indent: int) returns (text: Text)
    requires Plain(v)
    ensures text == Dump(v, indent)
  {
    hide Print;
    var p := new Printer();
    p.WriteValue(v, indent, 0);
    text := p.out;
    assert text == p.out + [] == [] + Print(v, indent, 0, []);
  }

  class Parser {
    const stod: Stod
    const s: Text
    var i: nat

    ghost predicate Valid()
      reads this
    {
      i <= |s|
    }

    function Rest(): Text
      reads this
      requires Valid()
    {
      s[i..]
    }

    constructor (stod: Stod, s: Text)
      ensures Valid() && Rest() == s && this.stod == stod
    {
      this.stod := stod;
      this.s := s;
      i := 0;
    }

    method SkipWs()
      requires Valid()
      modifies this
      ensures Valid() && Rest() == SkipBlanks(old(Rest()))
      ensures i >= old(i)
    {
      while i < |s| && Blank(s[i])
        invariant Valid() && old(i) <= i
        invariant SkipBlanks(Rest()) == SkipBlanks(old(Rest()))
        decreases |s| - i
      {
        assert Rest()[1..] == s[i + 1..];
        i := i + 1;
      }
    }

    /** Whether the next byte is c. */
    predicate Peek(c: Byte)
      reads this
    {
      i < |s| && s[i] == c
    }

    /** Takes the next byte if it is c. */
    method Expect(c: Byte) returns (ok: bool)
      requires Valid()
      modifies this
      ensures Valid() && i >= old(i)
      ensures ok == (old(Rest()) != [] && old(Rest())[0] == c)
      ensures if ok then Rest() == old(Rest())[1..] else Rest() == old(Rest())
    {
      ok := Peek(c);
      if ok {
        i := i + 1;
      }
    }

    method Literal(text: Text, v: Value) returns (ok: bool, r: Value)
      requires Valid()
      modifies this
      ensures Valid() && Agrees(ok, r, Rest(), ParseLiteral(old(Rest()), text, v))
    {
      r := v;
      ghost var start := Rest();
      for k := 0 to |text|
        invariant Valid() && i == old(i) + k
        invariant text[..k] == s[old(i)..i]
      {
        if i >= |s| || s[i] != text[k] {
          assert i < |s| ==> start[k] == s[i];
          return false, v;
        }
        assert text[..k + 1] == text[..k] + [text[k]];
        assert s[old(i)..i + 1] == s[old(i)..i] + [s[i]];
        i := i + 1;
      }
      assert text[..|text|] == text;
      assert text == s[old(i)..i] == start[..|text|];
      ok := true;
    }

    method Hex() returns (ok: bool, v: nat)
      requires Valid()
      modifies this
      ensures Valid() && Agrees(ok, v, Rest(), Hex4(old(Rest())))
    {
      hide HexValue;
      v := 0;
      ghost var start := Rest();
      for k := 0 to 4
        invariant Valid() && i == old(i) + k
        invariant forall j :: 0 <= j < k ==> HexValue(start[j]).Some?
        invariant v == HexPrefix(start, k)
      {
        if i >= |s| || HexValue(s[i]).None? {
          assert i < |s| ==> start[k] == s[i];
          assert k == 0 || k == 1 || k == 2 || k == 3;
          return false, v;
        }
        assert start[k] == s[i];
        v := v * 16 + HexValue(s[i]).value;
        i := i + 1;
      }
      assert HexPrefix(start, 4) == HexPrefix(start, 2) * 256 + HexValue(start[2]).value * 16 + HexValue(start[3]).value;
      assert start[4..] == Rest();
      ok := true;
    }

    ghost function HexPrefix(t: Text, k: nat): nat
      requires k <= 4 && k <= |t| && forall j :: 0 <= j < k ==> HexValue(t[j]).Some?
    {
      if k == 0 then 0 else HexPrefix(t, k - 1) * 16 + HexValue(t[k - 1]).value
    }

    method Unicode() returns (ok: bool, u: nat)
      requires Valid()
      modifies this
      ensures Valid() && Agrees(ok, u, Rest(), CodePoint(old(Rest())))
    {
      hide Hex4;
      ok, u := Hex();
      if !ok || u < 0xD800 || u > 0xDBFF {
        return;
      }
      if !(i + 1 < |s| && s[i] == BACKSLASH && s[i + 1] == 117) {
        return false, u;
      }
      assert Rest()[2..] == s[i + 2..];
      i := i + 2;
      var low: nat;
      ok, low := Hex();
      if ok {
        u := 0x1_0000 + (u - 0xD800) * 0x400 + low - 0xDC00;
      }
    }

    /** `parse_string` behind its opening quote. */
    method Chars() returns (ok: bool, text: Text)
      requires Valid()
      modifies this
      ensures Valid() && Agrees(ok, text, Rest(), ParseChars(old(Rest()), []))
    {
      hide CodePoint, Utf8;
      text := [];
      while true
        invariant Valid()
        invariant ParseChars(Rest(), text) == ParseChars(old(Rest()), [])
        decreases |s| - i
      {
        if i >= |s| {
          return false, text;
        }
        var c := s[i];
        assert Rest()[1..] == s[i + 1..];
        i := i + 1;
        if c == QUOTE {
          return true, text;
        }
        if c == BACKSLASH {
          if i >= |s| {
            return false, text;
          }
          var e := s[i];
          assert Rest()[1..] == s[i + 1..];
          i := i + 1;
          if SimpleEscape(e).Some? {
            text := text + [SimpleEscape(e).value];
          } else {
            if e != 117 {
              return false, text;
            }
            var u: nat;
            ok, u := Unicode();
            if !ok {
              return;
            }
            text := text + Utf8(u);
          }
        } else {
          if c < 0x20 {
            return false, text;
          }
          text := text + [c];
        }
      }
    }

    method SkipDigits()
      requires Valid()
      modifies this
      ensures Valid() && i == old(i) + DigitRun(old(Rest()))
    {
      while i < |s| && Digit(s[i])
        invariant Valid() && old(i) <= i
        invariant i + DigitRun(Rest()) == old(i) + DigitRun(old(Rest()))
        decreases |s| - i
      {
        assert Rest()[1..] == s[i + 1..];
        i := i + 1;
      }
    }

    method SkipWhole() returns (ok: bool)
      requires Valid()
      modifies this
      ensures Valid() && ok == WholePart(old(Rest())).Some?
      ensures ok ==> Rest() == old(Rest())[WholePart(old(Rest())).value..]
    {
      if Peek(48) {
        i := i + 1;
        return true;
      }
      if i < |s| && 49 <= s[i] <= 57 {
        SkipDigits();
        return true;
      }
      ok := false;
    }

    method SkipFraction() returns (ok: bool)
      requires Valid()
      modifies this
      ensures Valid() && ok == Fraction(old(Rest())).Some?
      ensures ok ==> Rest() == old(Rest())[Fraction(old(Rest())).value..]
    {
      if Peek(46) {
        assert Rest()[1..] == s[i + 1..];
        i := i + 1;
        if !(i < |s| && Digit(s[i])) {
          return false;
        }
        SkipDigits();
      }
      ok := true;
    }

    method SkipExponent() returns (ok: bool)
      requires Valid()
      modifies this
      ensures Valid() && ok == Exponent(old(Rest())).Some?
      ensures ok ==> Rest() == old(Rest())[Exponent(old(Rest())).value..]
    {
      if Peek(101) || Peek(69) {
        ghost var start := Rest();
        i := i + 1;
        if Peek(43) || Peek(45) {
          i := i + 1;
        }
        assert Rest() == start[i - old(i)..];
        if !(i < |s| && Digit(s[i])) {
          return false;
        }
        SkipDigits();
      }
      ok := true;
    }

    /** `parse_number`. */
    method Numeral() returns (ok: bool, v: Value)
      requires Valid()
      modifies this
      ensures Valid() && Agrees(ok, v, Rest(), ParseNumber(stod, old(Rest())))
    {
      hide WholePart, Fraction, Exponent, Converted;
      v := Null;
      var start := i;
      ghost var text := Rest();
      if Peek(45) {
        i := i + 1;
      }
      ghost var a := Rest();
      assert a == text[if text != [] && text[0] == 45 then 1 else 0..];
      ok := SkipWhole();
      if !ok {
        return;
      }
      var whole := i;
      ghost var b := Rest();
      ok := SkipFraction();
      if !ok {
        return;
      }
      ghost var c := Rest();
      ok := SkipExponent();
      if ok {
        assert s[start..i] == text[..|text| - |Rest()|];
        assert i == whole <==> Fraction(b) == Some(0) && Exponent(c) == Some(0);
        match Converted(stod, s[start..i], i == whole) {
          case None => ok := false;
          case Some(number) => v := number;
        }
      }
    }

    /** `parse_value`. */
    method ParseValue() returns (ok: bool, v: Value)
      requires Valid()
      modifies this
      ensures Valid() && Agrees(ok, v, Rest(), Json.ParseValue(stod, old(Rest())))
      decreases |s| - i, 1
    {
      hide ParseChars, ParseNumber, ParseLiteral, Json.ParseItems, Json.ParseMembers;
      SkipWs();
      v := Null;
      if Peek(OPEN_OBJECT) {
        assert Rest()[1..] == s[i + 1..];
        i := i + 1;
        ok, v := ParseObject();
      } else if Peek(OPEN_ARRAY) {
        assert Rest()[1..] == s[i + 1..];
        i := i + 1;
        ok, v := ParseArray();
      } else if Peek(QUOTE) {
        assert Rest()[1..] == s[i + 1..];
        i := i + 1;
        var text: Text;
        ok, text := Chars();
        v := String(text);
      } else if Peek(116) {
        ok, v := Literal(TRUE_TEXT, Bool(true));
      } else if Peek(102) {
        ok, v := Literal(FALSE_TEXT, Bool(false));
      } else if Peek(110) {
        ok, v := Literal(NULL_TEXT, Null);
      } else {
        ghost var here := Rest();
        NothingToParse();
        ok, v := Numeral();
      }
    }

    /** `parse_array` behind its bracket. */
    method ParseArray() returns (ok: bool, v: Value)
      requires Valid()
      modifies this
      ensures Valid() && Agrees(ok, v, Rest(), ArrayBody(stod, old(Rest())))
      decreases |s| - i, 3
    {
      hide Json.ParseItems;
      ghost var body := Rest();
      ParseItemsSkips(stod, body);
      SkipWs();
      var closed := Expect(CLOSE_ARRAY);
      if closed {
        return true, Array([]);
      }
      ok, v := ParseItems();
    }

    method ParseItems() returns (ok: bool, v: Value)
      requires Valid()
      modifies this
      ensures Valid() && Agrees(ok, v, Rest(), Json.ParseItems(stod, old(Rest()), []))
      decreases |s| - i, 2
    {
      hide Json.ParseValue;
      var items: seq<Value> := [];
      v := Null;
      while true
        invariant Valid() && i >= old(i)
        invariant Json.ParseItems(stod, Rest(), items) == Json.ParseItems(stod, old(Rest()), [])
        decreases |s| - i
      {
        ghost var before := Rest();
        var item: Value;
        ok, item := ParseValue();
        if !ok {
          return;
        }
        SkipWs();
        var closed := Expect(CLOSE_ARRAY);
        if closed {
          return true, Array(items + [item]);
        }
        ok := Expect(COMMA);
        if !ok {
          return;
        }
        items := items + [item];
      }
    }

    /** `parse_object` behind its brace. */
    method ParseObject() returns (ok: bool, v: Value)
      requires Valid()
      modifies this
      ensures Valid() && Agrees(ok, v, Rest(), ObjectBody(stod, old(Rest())))
      decreases |s| - i, 3
    {
      hide Json.ParseMembers;
      ghost var body := Rest();
      ParseMembersSkips(stod, body);
      SkipWs();
      var closed := Expect(CLOSE_OBJECT);
      if closed {
        return true, Object([]);
      }
      ok, v := ParseMembers();
    }

    method Key() returns (ok: bool, key: Text)
      requires Valid()
      modifies this
      ensures Valid() && Agrees(ok, key, Rest(), ParseKey(old(Rest())))
    {
      hide ParseChars;
      key := [];
      SkipWs();
      ok := Expect(QUOTE);
      if !ok {
        return;
      }
      ok, key := Chars();
      if !ok {
        return;
      }
      SkipWs();
      ok := Expect(COLON);
    }

    method ParseMembers() returns (ok: bool, v: Value)
      requires Valid()
      modifies this
      ensures Valid() && Agrees(ok, v, Rest(), Json.ParseMembers(stod, old(Rest()), []))
      decreases |s| - i, 2
    {
      hide Json.ParseValue, ParseKey, Insert;
      var members: seq<Member> := [];
      v := Null;
      while true
        invariant Valid() && i >= old(i)
        invariant Json.ParseMembers(stod, Rest(), members) == Json.ParseMembers(stod, old(Rest()), [])
        decreases |s| - i
      {
        ghost var before := Rest();
        var key: Text;
        var value: Value;
        ok, key := Key();
        if !ok {
          return;
        }
        ok, value := ParseValue();
        if !ok {
          return;
        }
        members := Insert(members, Member(key, value));
        SkipWs();
        var closed := Expect(CLOSE_OBJECT);
        if closed {
          return true, Object(members);
        }
        ok := Expect(COMMA);
        if !ok {
          return;
        }
      }
    }

    lemma NothingToParse()
      requires Valid()
      ensures Rest() == [] ==> ParseNumber(stod, Rest()).Fail?
    {
    }
  }

  function ArrayBody(stod: Stod, s: Text): Parsed<Value> {
    var t := SkipBlanks(s);
    if t != [] && t[0] == CLOSE_ARRAY then Got(Array([]), t[1..]) else Json.ParseItems(stod, s, [])
  }

  function ObjectBody(stod: Stod, s: Text): Parsed<Value> {
    var t := SkipBlanks(s);
    if t != [] && t[0] == CLOSE_OBJECT then Got(Object([]), t[1..]) else Json.ParseMembers(stod, s, [])
  }

  lemma ParseItemsSkips(stod: Stod, s: Text)
    ensures Json.ParseItems(stod, SkipBlanks(s), []) == Json.ParseItems(stod, s, [])
  {
    hide Json.ParseValue;
    ParseSkips(stod, s);
  }

  lemma ParseMembersSkips(stod: Stod, s: Text)
    ensures Json.ParseMembers(stod, SkipBlanks(s), []) == Json.ParseMembers(stod, s, [])
  {
    hide Json.ParseValue, ParseChars;
    SkipTwice(s);
  }

  /** `Value::parse`. */
  method ParseText(stod: Stod, text: Text) returns (v: Option<Value>)
    ensures v == Parse(stod, text)
  {
    hide Json.ParseValue;
    var p := new Parser(stod, text);
    p.SkipWs();
    ParseSkips(stod, text);
    var ok, value := p.ParseValue();
    if !ok {
      return None;
    }
    p.SkipWs();
    if p.i != |p.s| {
      return None;
    }
    v := Some(value);
  }
}
