/** CRC-32: the 256-entry table form, the bit-serial register it implements (section 8 of RFC 1952),
    and the corruption it is guaranteed to detect. */
module Crc32 {
  import opened Basics

  const SEED: bv32 := 0xFFFF_FFFF

  // ---- the register, one bit at a time ----

  function Xor(a: bv32, b: bv32): bv32 {
    a ^ b
  }

  /** One shift of the reflected register: the bit leaving it feeds the polynomial back. */
  function Shift(c: bv32): bv32 {
    if c & 1 == 1 then 0xEDB8_8320 ^ (c >> 1) else c >> 1
  }

  function Shifts(c: bv32, n: nat): bv32
    decreases n
  {
    if n == 0 then c else Shifts(Shift(c), n - 1)
  }

  function BitWord(b: bool): bv32 {
    if b then 1 else 0
  }

  /** Division of a bit string by the polynomial: each message bit enters at the low end. */
  function Serial(c: bv32, bits: seq<bool>): bv32
    decreases |bits|
  {
    if bits == [] then c else Serial(Shift(Xor(c, BitWord(bits[0]))), bits[1..])
  }

  function Octet(b: Byte): bv8 {
    b as bv8
  }

  predicate OddByte(w: bv8) {
    w & 1 == 1
  }

  function HalvedByte(w: bv8): bv8 {
    w >> 1
  }

  /** The n low bits of a byte, least significant first. */
  function LowBits(w: bv8, n: nat): (s: seq<bool>)
    ensures |s| == n
    decreases n
  {
    if n == 0 then [] else [OddByte(w)] + LowBits(HalvedByte(w), n - 1)
  }

  /** The bits of a byte in the order RFC 1952 transmits them. */
  function BitsOfByte(b: Byte): (s: seq<bool>)
    ensures |s| == 8
  {
    LowBits(Octet(b), 8)
  }

  function BitsOf(data: seq<Byte>): (s: seq<bool>)
    ensures |s| == 8 * |data|
  {
    if data == [] then [] else BitsOfByte(data[0]) + BitsOf(data[1..])
  }

  /** The checksum by definition. */
  function Checksum(data: seq<Byte>): Word32 {
    Xor(Serial(SEED, BitsOf(data)), 0xFFFF_FFFF) as int
  }

  // ---- facts about words ----

  lemma XorAssociates(a: bv32, b: bv32, c: bv32)
    ensures Xor(Xor(a, b), c) == Xor(a, Xor(b, c))
  {
  }

  lemma XorCommutes(a: bv32, b: bv32)
    ensures Xor(a, b) == Xor(b, a)
  {
  }

  lemma XorSelf(a: bv32)
    ensures Xor(a, a) == 0
  {
  }

  lemma XorMoves(p: bv32, a: bv32, b: bv32)
    ensures Xor(Xor(p, a), b) == Xor(p, Xor(a, b))
    ensures Xor(a, Xor(p, b)) == Xor(p, Xor(a, b))
    ensures Xor(Xor(p, a), Xor(p, b)) == Xor(a, b)
  {
    hide Xor;
    XorAssociates(p, a, b);
    XorAssociates(a, p, b);
    XorCommutes(a, p);
    XorAssociates(Xor(p, a), p, b);
    XorAssociates(a, p, p);
    XorSelf(p);
    XorZero(a);
  }

  lemma XorZero(a: bv32)
    ensures Xor(a, 0) == a
  {
  }

  lemma XorCancels(a: bv32, b: bv32, w: bv32)
    requires Xor(a, w) == Xor(b, w) || Xor(w, a) == Xor(w, b)
    ensures a == b
  {
  }

  // ---- the register is linear and invertible ----

  predicate Odd(w: bv32) {
    w & 1 == 1
  }

  function Halved(w: bv32): bv32 {
    w >> 1
  }

  lemma HalvedLinear(a: bv32, b: bv32)
    ensures Halved(Xor(a, b)) == Xor(Halved(a), Halved(b))
  {
  }

  lemma OddLinear(a: bv32, b: bv32)
    ensures Odd(Xor(a, b)) <==> Odd(a) != Odd(b)
  {
  }

  lemma ShiftOfOdd(w: bv32)
    requires Odd(w)
    ensures Shift(w) == Xor(0xEDB8_8320, Halved(w))
  {
  }

  lemma ShiftOfEven(w: bv32)
    requires !Odd(w)
    ensures Shift(w) == Halved(w)
  {
  }

  lemma ShiftLinear(a: bv32, b: bv32)
    ensures Shift(Xor(a, b)) == Xor(Shift(a), Shift(b))
  {
    hide Shift, Xor, Odd, Halved;
    HalvedLinear(a, b);
    OddLinear(a, b);
    XorMoves(0xEDB8_8320, Halved(a), Halved(b));
    if Odd(a) {
      ShiftOfOdd(a);
    } else {
      ShiftOfEven(a);
    }
    if Odd(b) {
      ShiftOfOdd(b);
    } else {
      ShiftOfEven(b);
    }
    if Odd(Xor(a, b)) {
      ShiftOfOdd(Xor(a, b));
    } else {
      ShiftOfEven(Xor(a, b));
    }
  }

  lemma {:induction false} ShiftsLinear(a: bv32, b: bv32, n: nat)
    ensures Shifts(Xor(a, b), n) == Xor(Shifts(a, n), Shifts(b, n))
    decreases n
  {
    hide Shift, Xor;
    if n > 0 {
      ShiftLinear(a, b);
      ShiftsLinear(Shift(a), Shift(b), n - 1);
    }
  }

  /** The inverse of a shift: the polynomial has its top bit set, so the bit that left can be read off. */
  function Unshift(c: bv32): bv32 {
    if c & 0x8000_0000 != 0 then ((c ^ 0xEDB8_8320) << 1) | 1 else c << 1
  }

  lemma ShiftFeedback(c: bv32)
    requires c & 1 == 1
    ensures Unshift(0xEDB8_8320 ^ (c >> 1)) == c
  {
  }

  lemma UnshiftPlain(c: bv32)
    requires c & 1 == 0
    ensures Unshift(c >> 1) == c
  {
  }

  /** A shift loses nothing: the state before it can be computed from the state after it. */
  lemma UnshiftInverts(c: bv32)
    ensures Unshift(Shift(c)) == c
  {
    hide Unshift;
    assert c & 1 == 0 || c & 1 == 1;
    if c & 1 == 1 {
      ShiftFeedback(c);
    } else {
      UnshiftPlain(c);
    }
  }

  lemma UnshiftFeeds(c: bv32)
    requires c & 0x8000_0000 != 0
    ensures Shift(((c ^ 0xEDB8_8320) << 1) | 1) == c
  {
  }

  lemma UnshiftKeeps(c: bv32)
    requires c & 0x8000_0000 == 0
    ensures Shift(c << 1) == c
  {
  }

  /** ... and every state is reached, so a shift is a bijection of the 2^32 register states. */
  lemma ShiftInverts(c: bv32)
    ensures Shift(Unshift(c)) == c
  {
    hide Shift;
    if c & 0x8000_0000 != 0 {
      UnshiftFeeds(c);
    } else {
      UnshiftKeeps(c);
    }
  }

  lemma ShiftInjective(a: bv32, b: bv32)
    requires Shift(a) == Shift(b)
    ensures a == b
  {
    hide Shift, Unshift;
    UnshiftInverts(a);
    UnshiftInverts(b);
  }

  lemma {:induction false} ShiftsInjective(a: bv32, b: bv32, n: nat)
    requires Shifts(a, n) == Shifts(b, n)
    ensures a == b
    decreases n
  {
    hide Shift;
    if n > 0 {
      ShiftsInjective(Shift(a), Shift(b), n - 1);
      ShiftInjective(a, b);
    }
  }

  /** For a fixed message, different register states stay different. */
  lemma {:induction false} SerialInjective(a: bv32, b: bv32, bits: seq<bool>)
    requires Serial(a, bits) == Serial(b, bits)
    ensures a == b
    decreases |bits|
  {
    hide Shift, Xor, BitWord;
    if bits != [] {
      var w := BitWord(bits[0]);
      SerialInjective(Shift(Xor(a, w)), Shift(Xor(b, w)), bits[1..]);
      ShiftInjective(Xor(a, w), Xor(b, w));
      XorCancels(a, b, w);
    }
  }

  lemma {:induction false} SerialConcat(c: bv32, a: seq<bool>, b: seq<bool>)
    ensures Serial(c, a + b) == Serial(Serial(c, a), b)
    decreases |a|
  {
    hide Shift, Xor, BitWord;
    if a == [] {
      assert a + b == b;
    } else {
      assert (a + b)[1..] == a[1..] + b;
      SerialConcat(Shift(Xor(c, BitWord(a[0]))), a[1..], b);
    }
  }

  // ---- up to 32 bits at once ----

  /** A word made one bit longer at its low end. */
  function Feed(b: bool, p: bv32): bv32 {
    if b then (p << 1) | 1 else p << 1
  }

  /** The first bit of the string at the low end of the word. */
  function Pack(bits: seq<bool>): bv32
    decreases |bits|
  {
    if bits == [] then 0 else Feed(bits[0], Pack(bits[1..]))
  }

  /** The n low bits set. */
  function Mask(n: nat): bv32 {
    if n == 0 then 0 else Feed(true, Mask(n - 1))
  }

  predicate Within(w: bv32, m: bv32) {
    w & !m == 0
  }

  lemma ZeroWithin(m: bv32)
    ensures Within(0, m)
  {
  }

  lemma FeedTrue(p: bv32)
    ensures Feed(true, p) == (p << 1) | 1
  {
  }

  lemma FeedFalse(p: bv32)
    ensures Feed(false, p) == p << 1
  {
  }

  lemma DoubleWithin(p: bv32, m: bv32)
    requires Within(p, m)
    ensures Within(p << 1, (m << 1) | 1)
    ensures Within((p << 1) | 1, (m << 1) | 1)
  {
  }

  lemma FeedWithin(b: bool, p: bv32, m: bv32)
    requires Within(p, m)
    ensures Within(Feed(b, p), Feed(true, m))
  {
    hide Feed, Within;
    DoubleWithin(p, m);
    FeedTrue(m);
    if b {
      FeedTrue(p);
    } else {
      FeedFalse(p);
    }
  }

  lemma {:induction false} PackWithin(bits: seq<bool>)
    ensures Within(Pack(bits), Mask(|bits|))
    decreases |bits|
  {
    hide Within, Feed;
    if bits == [] {
      ZeroWithin(Mask(0));
    } else {
      PackWithin(bits[1..]);
      FeedWithin(bits[0], Pack(bits[1..]), Mask(|bits| - 1));
    }
  }

  lemma {:induction false} MaskMonotone(n: nat, k: nat)
    requires n <= k
    ensures Within(Mask(n), Mask(k))
  {
    hide Within, Feed;
    if n == 0 {
      ZeroWithin(Mask(k));
    } else {
      MaskMonotone(n - 1, k - 1);
      FeedWithin(true, Mask(n - 1), Mask(k - 1));
    }
  }

  lemma Mask31()
    ensures Mask(31) == 0x7FFF_FFFF
  {
    assert Mask(8) == 0xFF;
    assert Mask(16) == 0xFFFF;
    assert Mask(24) == 0xFF_FFFF;
  }

  lemma WithinTwice(p: bv32, m: bv32)
    requires Within(p, m) && Within(m, 0x7FFF_FFFF)
    ensures TopClear(p)
  {
  }

  predicate TopClear(p: bv32) {
    p & 0x8000_0000 == 0
  }

  /** At most 31 bits leave the top of the word clear. */
  lemma PackTopClear(bits: seq<bool>)
    requires |bits| <= 31
    ensures TopClear(Pack(bits))
  {
    hide Within, Feed, TopClear, Pack, Mask;
    PackWithin(bits);
    MaskMonotone(|bits|, 31);
    Mask31();
    WithinTwice(Pack(bits), Mask(|bits|));
  }

  lemma LowBitIsXor(p: bv32)
    ensures (p << 1) | 1 == Xor(p << 1, 1)
  {
  }

  lemma XorSwaps(c: bv32, a: bv32, b: bv32)
    ensures Xor(c, Xor(a, b)) == Xor(Xor(c, b), a)
  {
    hide Xor;
    XorAssociates(c, b, a);
    XorCommutes(a, b);
  }

  lemma FeedTrueIsXor(c: bv32, p: bv32)
    ensures Xor(c, Feed(true, p)) == Xor(Xor(c, 1), p << 1)
  {
    hide Feed, Xor;
    FeedTrue(p);
    LowBitIsXor(p);
    XorSwaps(c, p << 1, 1);
  }

  lemma FeedFalseIsXor(c: bv32, p: bv32)
    ensures Xor(c, Feed(false, p)) == Xor(Xor(c, 0), p << 1)
  {
    hide Feed, Xor;
    FeedFalse(p);
    XorZero(c);
  }

  lemma FeedIsXor(c: bv32, b: bool, p: bv32)
    ensures Xor(c, Feed(b, p)) == Xor(Xor(c, BitWord(b)), p << 1)
  {
    hide Feed, Xor;
    if b {
      FeedTrueIsXor(c, p);
    } else {
      FeedFalseIsXor(c, p);
    }
  }

  lemma ShiftDoubled(p: bv32)
    requires TopClear(p)
    ensures Shift(p << 1) == p
  {
  }

  /** Feeding one bit now and the rest later is feeding them together. */
  lemma ShiftAbsorbs(c: bv32, b: bool, p: bv32)
    requires TopClear(p)
    ensures Shift(Xor(c, Feed(b, p))) == Xor(Shift(Xor(c, BitWord(b))), p)
  {
    hide Shift, Xor, BitWord, Feed, TopClear;
    FeedIsXor(c, b, p);
    ShiftLinear(Xor(c, BitWord(b)), p << 1);
    ShiftDoubled(p);
  }

  /** Up to 32 message bits act on the register as one word: xor it in, then shift that often. */
  lemma {:induction false} SerialWord(c: bv32, bits: seq<bool>)
    requires |bits| <= 32
    ensures Serial(c, bits) == Shifts(Xor(c, Pack(bits)), |bits|)
    decreases |bits|
  {
    hide Shift, Xor, BitWord, Feed, TopClear;
    if bits == [] {
      XorZero(c);
    } else {
      var rest := bits[1..];
      SerialWord(Shift(Xor(c, BitWord(bits[0]))), rest);
      PackTopClear(rest);
      ShiftAbsorbs(c, bits[0], Pack(rest));
    }
  }

  lemma DoubleParts(p: bv32)
    requires TopClear(p)
    ensures Halved(p << 1) == p && !Odd(p << 1)
    ensures Halved((p << 1) | 1) == p && Odd((p << 1) | 1)
  {
  }

  lemma FeedParts(b: bool, p: bv32)
    requires TopClear(p)
    ensures Halved(Feed(b, p)) == p && Odd(Feed(b, p)) == b
  {
    hide Feed, Halved, Odd, TopClear;
    DoubleParts(p);
    if b {
      FeedTrue(p);
    } else {
      FeedFalse(p);
    }
  }

  lemma FeedInjective(b: bool, p: bv32, d: bool, q: bv32)
    requires TopClear(p) && TopClear(q) && Feed(b, p) == Feed(d, q)
    ensures b == d && p == q
  {
    hide Feed, Halved, Odd, TopClear;
    FeedParts(b, p);
    FeedParts(d, q);
  }

  lemma {:induction false} PackInjective(u: seq<bool>, v: seq<bool>)
    requires |u| == |v| <= 32 && Pack(u) == Pack(v)
    ensures u == v
    decreases |u|
  {
    hide Feed, TopClear;
    if u != [] {
      PackTopClear(u[1..]);
      PackTopClear(v[1..]);
      FeedInjective(u[0], Pack(u[1..]), v[0], Pack(v[1..]));
      PackInjective(u[1..], v[1..]);
      assert u == [u[0]] + u[1..] && v == [v[0]] + v[1..];
    }
  }

  /** Burst detection: two messages that differ, but only within 32 consecutive bits, never leave the
      register in the same state. */
  lemma BurstDetected(c: bv32, before: seq<bool>, u: seq<bool>, v: seq<bool>, after: seq<bool>)
    requires |u| == |v| <= 32 && u != v
    ensures Serial(c, before + u + after) != Serial(c, before + v + after)
  {
    hide Shift, Shifts, Serial, Pack, Xor;
    var d := Serial(c, before);
    forall w | w == u || w == v
      ensures Serial(c, before + w + after) == Serial(Shifts(Xor(d, Pack(w)), |u|), after)
    {
      SerialConcat(c, before + w, after);
      SerialConcat(c, before, w);
      SerialWord(d, w);
    }
    if Serial(c, before + u + after) == Serial(c, before + v + after) {
      SerialInjective(Shifts(Xor(d, Pack(u)), |u|), Shifts(Xor(d, Pack(v)), |u|), after);
      ShiftsInjective(Xor(d, Pack(u)), Xor(d, Pack(v)), |u|);
      XorCancels(Pack(u), Pack(v), d);
      PackInjective(u, v);
    }
  }

  // ---- bytes ----

  function Wide(w: bv8): bv32 {
    w as bv32
  }

  /** A byte at the low end of a register-sized word. */
  function ByteWord(b: Byte): bv32 {
    Wide(Octet(b))
  }

  /** The low byte of a word, as the number that indexes the table. */
  function LowByte(w: bv32): Byte {
    ((w & 0xFF) as bv8) as int
  }

  lemma ByteOfInt(w: bv8)
    ensures (w as int) as bv8 == w
  {
  }

  function LowPart(w: bv32): bv32 {
    w & 0xFF
  }

  function HighPart(w: bv32): bv32 {
    w & 0xFFFF_FF00
  }

  function Above(w: bv32): bv32 {
    w >> 8
  }

  lemma Narrow(w: bv32)
    ensures ((w & 0xFF) as bv8) as bv32 == w & 0xFF
  {
  }

  lemma OctetOfLowByte(w: bv32)
    ensures Octet(LowByte(w)) == (w & 0xFF) as bv8
  {
    ByteOfInt((w & 0xFF) as bv8);
  }

  lemma LowByteWord(w: bv32)
    ensures ByteWord(LowByte(w)) == LowPart(w)
  {
    hide Octet, LowByte;
    OctetOfLowByte(w);
    Narrow(w);
  }

  function Halves(w: bv32, n: nat): bv32
    decreases n
  {
    if n == 0 then w else Halves(Halved(w), n - 1)
  }

  lemma HalfSteps(w: bv32)
    ensures Halved(w) == w >> 1
    ensures Halved(w >> 1) == w >> 2 && Halved(w >> 2) == w >> 3 && Halved(w >> 3) == w >> 4
    ensures Halved(w >> 4) == w >> 5 && Halved(w >> 5) == w >> 6 && Halved(w >> 6) == w >> 7
    ensures Halved(w >> 7) == Above(w)
  {
  }

  lemma {:induction false} HalvesNext(w: bv32, n: nat)
    ensures Halves(w, n + 1) == Halved(Halves(w, n))
    decreases n
  {
    hide Halved;
    if n > 0 {
      HalvesNext(Halved(w), n - 1);
    }
  }

  lemma HalvesOdd(w: bv32)
    ensures Halves(w, 0) == w && Halves(w, 8) == Above(w)
    ensures Odd(Halves(w, 1)) == Odd(w >> 1) && Odd(Halves(w, 2)) == Odd(w >> 2) && Odd(Halves(w, 3)) == Odd(w >> 3)
    ensures Odd(Halves(w, 4)) == Odd(w >> 4) && Odd(Halves(w, 5)) == Odd(w >> 5) && Odd(Halves(w, 6)) == Odd(w >> 6)
    ensures Odd(Halves(w, 7)) == Odd(w >> 7)
  {
    hide Halved, Odd, Above;
    HalfSteps(w);
    HalvesNext(w, 0);
    HalvesNext(w, 1);
    HalvesNext(w, 2);
    HalvesNext(w, 3);
    HalvesNext(w, 4);
    HalvesNext(w, 5);
    HalvesNext(w, 6);
    HalvesNext(w, 7);
  }

  lemma FeedRebuilds(w: bv32)
    ensures Feed(Odd(w), Halved(w)) == w
  {
  }

  lemma Widen(w: bv8)
    ensures OddByte(w) == Odd(Wide(w)) && Wide(HalvedByte(w)) == Halved(Wide(w))
  {
  }

  lemma WideInjective(a: bv8, b: bv8)
    requires Wide(a) == Wide(b)
    ensures a == b
  {
  }

  lemma NothingAbove(w: bv8)
    ensures Above(Wide(w)) == 0
  {
  }

  /** Reading a word's bits off from the low end and packing them gives the word back. */
  lemma {:induction false} PackRebuilds(w: bv8, n: nat)
    requires Halves(Wide(w), n) == 0
    ensures Pack(LowBits(w, n)) == Wide(w)
    decreases n
  {
    hide Feed, Odd, OddByte, Halved, HalvedByte, Wide;
    if n > 0 {
      Widen(w);
      PackRebuilds(HalvedByte(w), n - 1);
      assert LowBits(w, n)[1..] == LowBits(HalvedByte(w), n - 1);
      FeedRebuilds(Wide(w));
    }
  }

  lemma PackOfByte(b: Byte)
    ensures Pack(BitsOfByte(b)) == ByteWord(b)
  {
    hide Octet, Wide, Odd, Pack, LowBits, Halves, Above;
    NothingAbove(Octet(b));
    HalvesOdd(ByteWord(b));
    PackRebuilds(Octet(b), 8);
  }

  // Counting up to a number reaches its word, so the conversion loses nothing.

  function Number(w: bv8): int {
    w as int
  }

  function Next(w: bv8): bv8 {
    w + 1
  }

  function Count(n: nat): bv8 {
    if n == 0 then 0 else Next(Count(n - 1))
  }

  lemma NextNumber(w: bv8)
    requires Number(w) < 255
    ensures Number(Next(w)) == Number(w) + 1
  {
  }

  lemma OctetOfNumber(w: bv8)
    ensures 0 <= Number(w) < 256 && Octet(Number(w)) == w
  {
    ByteOfInt(w);
  }

  lemma ZeroNumber()
    ensures Number(0) == 0
  {
  }

  lemma {:induction false} NumberOfCount(n: nat)
    requires n < 256
    ensures Number(Count(n)) == n
  {
    hide Number, Next;
    if n == 0 {
      ZeroNumber();
    } else {
      NumberOfCount(n - 1);
      NextNumber(Count(n - 1));
    }
  }

  lemma NumberOfOctet(b: Byte)
    ensures Number(Octet(b)) == b
  {
    hide Number, Next, Octet;
    NumberOfCount(b);
    OctetOfNumber(Count(b));
  }

  lemma OctetInjective(a: Byte, b: Byte)
    requires Octet(a) == Octet(b)
    ensures a == b
  {
    hide Number, Octet;
    NumberOfOctet(a);
    NumberOfOctet(b);
  }

  lemma BitsOfByteInjective(a: Byte, b: Byte)
    requires BitsOfByte(a) == BitsOfByte(b)
    ensures a == b
  {
    hide BitsOfByte, Octet, Wide, Pack;
    PackOfByte(a);
    PackOfByte(b);
    WideInjective(Octet(a), Octet(b));
    OctetInjective(a, b);
  }

  lemma ClearBits(w: bv32)
    ensures !Odd(HighPart(w)) && !Odd(HighPart(w) >> 1) && !Odd(HighPart(w) >> 2) && !Odd(HighPart(w) >> 3)
    ensures !Odd(HighPart(w) >> 4) && !Odd(HighPart(w) >> 5) && !Odd(HighPart(w) >> 6) && !Odd(HighPart(w) >> 7)
    ensures Above(HighPart(w)) == Above(w)
  {
  }

  /** As long as only zeros leave the register, nothing is fed back. */
  lemma {:induction false} EvenShifts(w: bv32, n: nat)
    requires forall k :: 0 <= k < n ==> !Odd(Halves(w, k))
    ensures Shifts(w, n) == Halves(w, n)
    decreases n
  {
    hide Shift, Odd, Halved;
    if n > 0 {
      assert !Odd(Halves(w, 0));
      ShiftOfEven(w);
      forall k | 0 <= k < n - 1 ensures !Odd(Halves(Halved(w), k)) {
        assert Halves(w, k + 1) == Halves(Halved(w), k);
        assert !Odd(Halves(w, k + 1));
      }
      EvenShifts(Halved(w), n - 1);
    }
  }

  lemma ShiftsOfHighPart(w: bv32)
    ensures Shifts(HighPart(w), 8) == Above(w)
  {
    hide Shifts, Shift, Odd, Halves, Halved, Above, HighPart;
    ClearBits(w);
    HalvesOdd(HighPart(w));
    forall k | 0 <= k < 8 ensures !Odd(Halves(HighPart(w), k)) {
      assert k == 0 || k == 1 || k == 2 || k == 3 || k == 4 || k == 5 || k == 6 || k == 7;
    }
    EvenShifts(HighPart(w), 8);
  }

  lemma SplitLow(w: bv32)
    ensures Xor(LowPart(w), HighPart(w)) == w
  {
  }

  lemma XorAboveByte(c: bv32, b: bv8)
    ensures Above(Xor(c, Wide(b))) == Above(c)
  {
  }

  /** One step of the table form is eight bits of the polynomial division. */
  lemma TableStep(c: bv32, b: Byte)
    ensures Xor(Shifts(ByteWord(LowByte(Xor(c, ByteWord(b)))), 8), Above(c)) == Serial(c, BitsOfByte(b))
  {
    hide Shift, Shifts, Serial, Xor, Pack, LowByte, LowPart, HighPart, Above, BitsOfByte, ByteWord;
    SerialWord(c, BitsOfByte(b));
    PackOfByte(b);
    var x := Xor(c, ByteWord(b));
    SplitLow(x);
    ShiftsLinear(LowPart(x), HighPart(x), 8);
    ShiftsOfHighPart(x);
    ByteAbove(c, b);
    LowByteWord(x);
  }

  lemma ByteAbove(c: bv32, b: Byte)
    ensures Above(Xor(c, ByteWord(b))) == Above(c)
  {
    hide Above, Xor, Wide, Octet;
    XorAboveByte(c, Octet(b));
  }

  // ---- detection ----

  lemma {:induction false} BitsOfConcat(a: seq<Byte>, b: seq<Byte>)
    ensures BitsOf(a + b) == BitsOf(a) + BitsOf(b)
    decreases |a|
  {
    if a == [] {
      assert a + b == b;
    } else {
      assert (a + b)[1..] == a[1..] + b;
      BitsOfConcat(a[1..], b);
    }
  }

  lemma {:induction false} BitsOfInjective(a: seq<Byte>, b: seq<Byte>)
    requires |a| == |b| && BitsOf(a) == BitsOf(b)
    ensures a == b
    decreases |a|
  {
    if a != [] {
      assert BitsOfByte(a[0]) == BitsOf(a)[..8] == BitsOf(b)[..8] == BitsOfByte(b[0]);
      assert BitsOf(a[1..]) == BitsOf(a)[8..] == BitsOf(b)[8..] == BitsOf(b[1..]);
      BitsOfByteInjective(a[0], b[0]);
      BitsOfInjective(a[1..], b[1..]);
      assert a == [a[0]] + a[1..] && b == [b[0]] + b[1..];
    }
  }

  lemma AsIntInjective(a: bv32, b: bv32)
    requires a as int == b as int
    ensures a == b
  {
    assert (a as int) as bv32 == a;
    assert (b as int) as bv32 == b;
  }

  /** Any corruption confined to four consecutive bytes changes the checksum. */
  lemma FourByteCorruptionDetected(before: seq<Byte>, u: seq<Byte>, v: seq<Byte>, after: seq<Byte>)
    requires |u| == |v| <= 4 && u != v
    ensures Checksum(before + u + after) != Checksum(before + v + after)
  {
    forall w | w == u || w == v ensures BitsOf(before + w + after) == BitsOf(before) + BitsOf(w) + BitsOf(after) {
      BitsOfConcat(before + w, after);
      BitsOfConcat(before, w);
    }
    if BitsOf(u) == BitsOf(v) {
      BitsOfInjective(u, v);
    }
    BurstDetected(SEED, BitsOf(before), BitsOf(u), BitsOf(v), BitsOf(after));
    if Checksum(before + u + after) == Checksum(before + v + after) {
      var x, y := Serial(SEED, BitsOf(before + u + after)), Serial(SEED, BitsOf(before + v + after));
      AsIntInjective(Xor(x, 0xFFFF_FFFF), Xor(y, 0xFFFF_FFFF));
      XorCancels(x, y, 0xFFFF_FFFF);
    }
  }

  // ---- the loops of the source ----

  predicate IsTable(t: seq<bv32>) {
    |t| == 256 && forall i: Byte :: t[i] == Shifts(ByteWord(i), 8)
  }

  lemma {:induction false} ShiftsNext(c: bv32, n: nat)
    ensures Shifts(c, n + 1) == Shift(Shifts(c, n))
    decreases n
  {
    hide Shift;
    if n > 0 {
      ShiftsNext(Shift(c), n - 1);
    }
  }

  method BuildTable() returns (table: array<bv32>)
    ensures fresh(table) && IsTable(table[..])
  {
    hide Shift, Shifts, ByteWord;
    table := new bv32[256];
    for i := 0 to 256
      invariant forall j: Byte :: j < i ==> table[j] == Shifts(ByteWord(j), 8)
    {
      var c := ByteWord(i);
      assert c == Shifts(ByteWord(i), 0) by { NoShifts(c); }
      for k := 0 to 8
        invariant c == Shifts(ByteWord(i), k)
        invariant forall j: Byte :: j < i ==> table[j] == Shifts(ByteWord(j), 8)
      {
        ShiftsNext(ByteWord(i), k);
        c := Shift(c);
      }
      table[i] := c;
    }
  }

  lemma NoShifts(c: bv32)
    ensures Shifts(c, 0) == c
  {
  }

  lemma BitsOfSnoc(data: seq<Byte>, b: Byte)
    ensures BitsOf(data + [b]) == BitsOf(data) + BitsOfByte(b)
  {
    hide BitsOfByte;
    BitsOfConcat(data, [b]);
    assert BitsOf([b]) == BitsOfByte(b) + BitsOf([]);
  }

  lemma SerialByte(data: seq<Byte>, b: Byte)
    ensures Serial(SEED, BitsOf(data + [b])) == Serial(Serial(SEED, BitsOf(data)), BitsOfByte(b))
  {
    hide Serial, BitsOf, BitsOfByte;
    BitsOfSnoc(data, b);
    SerialConcat(SEED, BitsOf(data), BitsOfByte(b));
  }

  /** The table-driven loop computes the polynomial division of the whole message. */
  method Compute(data: seq<Byte>) returns (crc: Word32)
    ensures crc == Checksum(data)
  {
    hide Shift, Shifts, Serial, ByteWord, LowByte, Xor, BitsOfByte, BitsOf, Above;
    var table := BuildTable();
    var c := SEED;
    assert c == Serial(SEED, BitsOf(data[..0])) by { SerialOfNothing(SEED); }
    for i := 0 to |data|
      invariant IsTable(table[..])
      invariant c == Serial(SEED, BitsOf(data[..i]))
    {
      TableStep(c, data[i]);
      SerialByte(data[..i], data[i]);
      assert data[..i] + [data[i]] == data[..i + 1];
      var index := LowByte(Xor(c, ByteWord(data[i])));
      assert table[index] == table[..][index];
      c := Xor(table[index], Above(c));
    }
    assert data[..|data|] == data;
    crc := Xor(c, 0xFFFF_FFFF) as int;
  }

  lemma SerialOfNothing(c: bv32)
    ensures Serial(c, BitsOf([])) == c
  {
  }
}
