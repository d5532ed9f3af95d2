/** Big-endian byte strings: how the writers lay values out and the readers take them off again.

    `PutX(v, tail)` is the encoding of v followed by the bytes `tail`; `GetX(s)` is what a reader
    positioned at s obtains together with the bytes left over. */
module Bytes {
  import opened Basics

  datatype Parsed<+T> = Fail | Got(value: T, rest: seq<Byte>) {
    predicate IsFailure() {
      Fail?
    }

    function PropagateFailure<U>(): Parsed<U>
      requires Fail?
    {
      Fail
    }

    function Extract(): (T, seq<Byte>)
      requires Got?
    {
      (value, rest)
    }
  }

  // ---- fixed-width numbers ----

  function Pow256(n: nat): (p: nat)
    ensures p > 0
  {
    if n == 0 then 1 else 256 * Pow256(n - 1)
  }

  /** The n low bytes of v, most significant first. */
  function Put(v: nat, n: nat, tail: seq<Byte>): (s: seq<Byte>)
    ensures |s| == n + |tail|
    decreases n, |tail|
  {
    if n == 0 then tail else [v / Pow256(n - 1) % 256] + Put(v, n - 1, tail)
  }

  /** n bytes shifted into an accumulator. */
  function Get(s: seq<Byte>, n: nat, acc: nat): (r: Parsed<nat>)
    ensures r.Got? <==> |s| >= n
    ensures r.Got? ==> r.rest == s[n..] && r.value < (acc + 1) * Pow256(n)
    decreases n, |s|
  {
    if n == 0 then Got(acc, s)
    else if |s| < n then Fail
    else
      ShiftBound(acc, s[0], Pow256(n - 1));
      assert s[1..][n - 1..] == s[n..];
      Get(s[1..], n - 1, acc * 256 + s[0])
  }

  lemma ShiftBound(acc: nat, b: Byte, p: nat)
    ensures (acc * 256 + b + 1) * p <= (acc + 1) * (256 * p)
  {
    assert (acc + 1) * (256 * p) - (acc * 256 + b + 1) * p == (255 - b) * p;
  }

  lemma DigitSplit(v: int, p: int, q: int, r: int, h: int, d: int)
    requires p > 0 && v == q * p + r && 0 <= r < p && q == h * 256 + d && 0 <= d < 256
    ensures v == h * (256 * p) + (d * p + r) && 0 <= d * p + r < 256 * p
  {
    assert q * p == h * (256 * p) + d * p by {
      assert (h * 256 + d) * p == h * 256 * p + d * p;
      assert h * 256 * p == h * (256 * p);
    }
    assert 0 <= d * p <= 255 * p;
  }

  lemma TopDigit(v: nat, p: nat)
    requires p > 0
    ensures v % (256 * p) == v / p % 256 * p + v % p
  {
    var q, r := v / p, v % p;
    var h, d := q / 256, q % 256;
    DigitSplit(v, p, q, r, h, d);
    Remainder(v, h, 256 * p, d * p + r);
  }

  lemma Remainder(v: int, q: int, d: int, r: int)
    requires d > 0 && 0 <= r < d && v == q * d + r
    ensures v % d == r
  {
    var e := v / d - q;
    assert v == v / d * d + v % d;
    assert e * d == r - v % d;
    assert e >= 1 ==> e * d >= d;
    assert e <= -1 ==> e * d <= -d;
  }

  lemma ShiftIn(acc: nat, v: nat, p: nat)
    requires p > 0
    ensures (acc * 256 + v / p % 256) * p + v % p == acc * (256 * p) + v % (256 * p)
  {
    TopDigit(v, p);
    var d := v / p % 256;
    assert (acc * 256 + d) * p == acc * (256 * p) + d * p;
  }

  lemma {:induction false} GetPut(v: nat, n: nat, acc: nat, tail: seq<Byte>)
    ensures Get(Put(v, n, tail), n, acc) == Got(acc * Pow256(n) + v % Pow256(n), tail)
    decreases n
  {
    if n > 0 {
      var d := v / Pow256(n - 1) % 256;
      GetPut(v, n - 1, acc * 256 + d, tail);
      GetStep(d, Put(v, n - 1, tail), n, acc);
      ShiftIn(acc, v, Pow256(n - 1));
    }
  }

  lemma GetStep(b: Byte, s: seq<Byte>, n: nat, acc: nat)
    requires 0 < n <= 1 + |s|
    ensures Get([b] + s, n, acc) == Get(s, n - 1, acc * 256 + b)
  {
    assert ([b] + s)[1..] == s;
  }

  lemma Widths()
    ensures Pow256(2) == 0x1_0000 && Pow256(4) == 0x1_0000_0000
    ensures Pow256(8) == 0x1_0000_0000_0000_0000
    ensures Pow256(16) == 0x1_0000_0000_0000_0000_0000_0000_0000_0000
  {
    assert Pow256(4) == 256 * 256 * Pow256(2);
    assert Pow256(8) == 256 * 256 * 256 * 256 * Pow256(4);
    assert Pow256(12) == 256 * 256 * 256 * 256 * Pow256(8);
    assert Pow256(16) == 256 * 256 * 256 * 256 * Pow256(12);
  }

  function PutU8(v: Byte, tail: seq<Byte>): (s: seq<Byte>)
    ensures |s| == 1 + |tail| && GetU8(s) == Got(v, tail)
  {
    assert ([v] + tail)[1..] == tail;
    [v] + tail
  }

  function GetU8(s: seq<Byte>): (r: Parsed<Byte>)
    ensures r.Got? <==> |s| >= 1
    ensures r.Got? ==> |s| == 1 + |r.rest|
  {
    if |s| < 1 then Fail else Got(s[0], s[1..])
  }

  function PutU32(v: Word32, tail: seq<Byte>): (s: seq<Byte>)
    ensures |s| == 4 + |tail| && GetU32(s) == Got(v, tail)
  {
    U32Back(v, tail);
    Put(v, 4, tail)
  }

  function GetU32(s: seq<Byte>): (r: Parsed<Word32>)
    ensures r.Got? <==> |s| >= 4
    ensures r.Got? ==> |s| == 4 + |r.rest|
  {
    Widths();
    var (v, rest) :- Get(s, 4, 0);
    Got(v, rest)
  }

  function PutU64(v: Word64, tail: seq<Byte>): (s: seq<Byte>)
    ensures |s| == 8 + |tail| && GetU64(s) == Got(v, tail)
  {
    U64Back(v, tail);
    Put(v, 8, tail)
  }

  function GetU64(s: seq<Byte>): (r: Parsed<Word64>)
    ensures r.Got? <==> |s| >= 8
    ensures r.Got? ==> |s| == 8 + |r.rest|
  {
    Widths();
    var (v, rest) :- Get(s, 8, 0);
    Got(v, rest)
  }

  /** An identity: high word, then low word. */
  function PutId(v: Id128, tail: seq<Byte>): (s: seq<Byte>)
    ensures |s| == 16 + |tail| && GetId(s) == Got(v, tail)
  {
    IdBack(v, tail);
    Put(v, 16, tail)
  }

  function GetId(s: seq<Byte>): (r: Parsed<Id128>)
    ensures r.Got? <==> |s| >= 16
    ensures r.Got? ==> |s| == 16 + |r.rest|
  {
    Widths();
    var (v, rest) :- Get(s, 16, 0);
    Got(v, rest)
  }

  /** The two's complement word of a signed time. */
  function TimeWord(t: Timestamp): Word64 {
    if t < 0 then t + U64_LIMIT else t
  }

  function WordTime(v: Word64): Timestamp {
    if v < 0x8000_0000_0000_0000 then v else v - U64_LIMIT
  }

  // ---- length-prefixed strings ----

  /** The prefix is the length cast to 32 bits. */
  function PutText(t: Text, tail: seq<Byte>): (s: seq<Byte>)
    ensures |s| == 4 + |t| + |tail| && (|t| < U32_LIMIT ==> GetText(s) == Got(t, tail))
  {
    assert (t + tail)[..|t|] == t && (t + tail)[|t|..] == tail;
    PutU32(|t| % U32_LIMIT, t + tail)
  }

  function GetText(s: seq<Byte>): (r: Parsed<Text>)
    ensures r.Got? ==> |s| == 4 + |r.value| + |r.rest| && |r.value| < U32_LIMIT
  {
    var (n, rest) :- GetU32(s);
    if n > |rest| then Fail else Got(rest[..n], rest[n..])
  }

  // ---- reading back what was written ----

  lemma U32Back(v: Word32, tail: seq<Byte>)
    ensures GetU32(Put(v, 4, tail)) == Got(v, tail)
  {
    hide Put, Get, Pow256;
    Widths();
    GetPut(v, 4, 0, tail);
  }

  lemma U64Back(v: Word64, tail: seq<Byte>)
    ensures GetU64(Put(v, 8, tail)) == Got(v, tail)
  {
    hide Put, Get, Pow256;
    Widths();
    GetPut(v, 8, 0, tail);
  }

  lemma IdBack(v: Id128, tail: seq<Byte>)
    ensures GetId(Put(v, 16, tail)) == Got(v, tail)
  {
    hide Put, Get, Pow256;
    Widths();
    GetPut(v, 16, 0, tail);
  }

  // ---- the bytes are determined by what is read ----

  lemma QuotientStep(v: nat, acc: nat, b: Byte, p: nat)
    requires p > 0 && v / p == acc * 256 + b
    ensures v / (256 * p) == acc
  {
    assert v == (acc * 256 + b) * p + v % p;
    assert (acc * 256 + b) * p == acc * (256 * p) + b * p;
    assert b * p <= 255 * p;
    Quotient(v, acc, 256 * p, b * p + v % p);
  }

  lemma Quotient(v: int, q: int, d: int, r: int)
    requires d > 0 && 0 <= r < d && v == q * d + r
    ensures v / d == q
  {
    Remainder(v, q, d, r);
    assert v == v / d * d + r;
    assert (v / d - q) * d == 0;
  }

  lemma PutStep(v: nat, n: nat, acc: nat, b: Byte, tail: seq<Byte>)
    requires n > 0 && v / Pow256(n - 1) == acc * 256 + b
    ensures Put(v, n, tail) == [b] + Put(v, n - 1, tail)
    ensures Pow256(n) == 256 * Pow256(n - 1)
  {
    assert (acc * 256 + b) % 256 == b;
  }

  lemma {:induction false} PutGet(s: seq<Byte>, n: nat, acc: nat)
    requires |s| >= n
    ensures Get(s, n, acc).Got? && Get(s, n, acc).value / Pow256(n) == acc
    ensures Put(Get(s, n, acc).value, n, Get(s, n, acc).rest) == s
    decreases n
  {
    if n > 0 {
      hide Get, Put, Pow256;
      var b := s[0];
      PutGet(s[1..], n - 1, acc * 256 + b);
      assert s == [b] + s[1..];
      GetStep(b, s[1..], n, acc);
      var r := Get(s, n, acc);
      QuotientStep(r.value, acc, b, Pow256(n - 1));
      PutStep(r.value, n, acc, b, r.rest);
    }
  }

  lemma U32Bytes(s: seq<Byte>)
    requires GetU32(s).Got?
    ensures s == PutU32(GetU32(s).value, GetU32(s).rest)
  {
    hide Put, Get;
    PutGet(s, 4, 0);
  }

  lemma U8Bytes(s: seq<Byte>)
    requires GetU8(s).Got?
    ensures s == PutU8(GetU8(s).value, GetU8(s).rest)
  {
  }

  lemma {:induction false} PutTail(v: nat, n: nat, tail: seq<Byte>, more: seq<Byte>)
    ensures Put(v, n, tail + more) == Put(v, n, tail) + more
    decreases n
  {
    if n > 0 {
      PutTail(v, n - 1, tail, more);
    }
  }

  // ---- the reader and the writer ----

  /** What a reading method reports, compared with the grammar. */
  predicate Agrees<T(==)>(ok: bool, v: T, rest: seq<Byte>, p: Parsed<T>) {
    ok == p.Got? && (ok ==> v == p.value && rest == p.rest)
  }

  class ByteReader {
    const s: seq<Byte>
    var i: nat

    ghost predicate Valid()
      reads this
    {
      i <= |s|
    }

    function Rest(): seq<Byte>
      reads this
      requires Valid()
    {
      s[i..]
    }

    constructor (s: seq<Byte>)
      ensures Valid() && Rest() == s
    {
      this.s := s;
      i := 0;
    }

    function Remaining(): nat
      reads this
      requires Valid()
    {
      |s| - i
    }

    method BigEndian(n: nat) returns (ok: bool, v: nat)
      requires Valid()
      modifies this`i
      ensures Valid() && Agrees(ok, v, Rest(), Get(old(Rest()), n, 0))
    {
      v := 0;
      if n > Remaining() {
        return false, v;
      }
      ghost var start := Rest();
      var k := 0;
      while k < n
        invariant 0 <= k <= n && Valid() && n - k <= Remaining()
        invariant Get(Rest(), n - k, v) == Get(start, n, 0)
      {
        assert Rest()[1..] == s[i + 1..];
        v := v * 256 + s[i];
        i := i + 1;
        k := k + 1;
      }
      ok := true;
    }

    method U8() returns (ok: bool, v: Byte)
      requires Valid()
      modifies this`i
      ensures Valid() && Agrees(ok, v, Rest(), GetU8(old(Rest())))
    {
      if 1 > Remaining() {
        return false, 0;
      }
      ok, v := true, s[i];
      i := i + 1;
    }

    method U32() returns (ok: bool, v: Word32)
      requires Valid()
      modifies this`i
      ensures Valid() && Agrees(ok, v, Rest(), GetU32(old(Rest())))
    {
      var word: nat;
      Widths();
      ok, word := BigEndian(4);
      v := if ok then word else 0;
    }

    method U64() returns (ok: bool, v: Word64)
      requires Valid()
      modifies this`i
      ensures Valid() && Agrees(ok, v, Rest(), GetU64(old(Rest())))
    {
      var word: nat;
      Widths();
      ok, word := BigEndian(8);
      v := if ok then word else 0;
    }

    method Id() returns (ok: bool, v: Id128)
      requires Valid()
      modifies this`i
      ensures Valid() && Agrees(ok, v, Rest(), GetId(old(Rest())))
    {
      var word: nat;
      Widths();
      ok, word := BigEndian(16);
      v := if ok then word else 0;
    }

    method Str() returns (ok: bool, v: Text)
      requires Valid()
      modifies this`i
      ensures Valid() && Agrees(ok, v, Rest(), GetText(old(Rest())))
    {
      hide GetU32;
      var n: Word32;
      ok, n := U32();
      if !ok || n > Remaining() {
        return false, [];
      }
      v := s[i..i + n];
      assert Rest()[..n] == v && Rest()[n..] == s[i + n..];
      i := i + n;
    }
  }

  class ByteWriter {
    var buf: seq<Byte>

    constructor ()
      ensures buf == []
    {
      buf := [];
    }

    method U8(v: Byte)
      modifies this
      ensures forall tail :: buf + tail == old(buf) + PutU8(v, tail)
    {
      buf := buf + [v];
      forall tail ensures buf + tail == old(buf) + PutU8(v, tail) {
        assert (old(buf) + [v]) + tail == old(buf) + ([v] + tail);
      }
    }

    /** The n low bytes of v, shifted out from the top. */
    method BigEndian(v: nat, n: nat)
      modifies this
      ensures forall tail :: buf + tail == old(buf) + Put(v, n, tail)
    {
      var k := n;
      while k > 0
        invariant forall tail :: buf + Put(v, k, tail) == old(buf) + Put(v, n, tail)
      {
        ghost var before := buf;
        k := k - 1;
        var b: Byte := v / Pow256(k) % 256;
        buf := buf + [b];
        forall tail ensures buf + Put(v, k, tail) == old(buf) + Put(v, n, tail) {
          assert before + Put(v, k + 1, tail) == old(buf) + Put(v, n, tail);
          assert (before + [b]) + Put(v, k, tail) == before + ([b] + Put(v, k, tail));
        }
      }
    }

    method U32(v: Word32)
      modifies this
      ensures forall tail :: buf + tail == old(buf) + PutU32(v, tail)
    {
      BigEndian(v, 4);
    }

    method U64(v: Word64)
      modifies this
      ensures forall tail :: buf + tail == old(buf) + PutU64(v, tail)
    {
      BigEndian(v, 8);
    }

    method Id(v: Id128)
      modifies this
      ensures forall tail :: buf + tail == old(buf) + PutId(v, tail)
    {
      BigEndian(v, 16);
    }

    method Str(t: Text)
      modifies this
      ensures forall tail :: buf + tail == old(buf) + PutText(t, tail)
    {
      hide PutU32;
      U32(|t| % U32_LIMIT);
      ghost var before := buf;
      buf := buf + t;
      forall tail ensures buf + tail == old(buf) + PutText(t, tail) {
        assert before + (t + tail) == old(buf) + PutU32(|t| % U32_LIMIT, t + tail);
        assert (before + t) + tail == before + (t + tail);
      }
    }
  }
}
