/** IEEE 754 binary64 values kept as their 64-bit patterns, as the codecs copy them. */
module Doubles {
  import opened Basics

  const SIGN_BIT: int := 0x8000_0000_0000_0000
  const INFINITY: int := 0x7FF0_0000_0000_0000
  const ONE: Word64 := 0x3FF0_0000_0000_0000
  const ZERO: Word64 := 0

  function Magnitude(d: Word64): int {
    if d < SIGN_BIT then d else d - SIGN_BIT
  }

  predicate IsNaN(d: Word64) {
    Magnitude(d) > INFINITY
  }

  predicate IsInfinite(d: Word64) {
    Magnitude(d) == INFINITY
  }

  predicate Finite(d: Word64) {
    !IsNaN(d) && !IsInfinite(d)
  }

  /** The fields of binary64: an exponent field of all ones means infinite or, with a fraction, not a number. */
  lemma ExponentFields(d: Word64)
    ensures Finite(d) <==> d / 0x10_0000_0000_0000 % 0x800 != 0x7FF
    ensures IsNaN(d) <==> d / 0x10_0000_0000_0000 % 0x800 == 0x7FF && d % 0x10_0000_0000_0000 != 0
  {
  }

  /** Position on the number line: both zeros are 0, the sign bit mirrors the magnitude. */
  function Key(d: Word64): int {
    if d < SIGN_BIT then d else SIGN_BIT - d
  }

  /** The `<` of doubles: false when either side is NaN. */
  predicate Less(a: Word64, b: Word64) {
    !IsNaN(a) && !IsNaN(b) && Key(a) < Key(b)
  }

  /** `clamp_unit`: NaN and negative zero pass through. */
  function ClampUnit(d: Word64): Word64 {
    if Less(d, ZERO) then ZERO else if Less(ONE, d) then ONE else d
  }

  lemma ClampUnitIdempotent(d: Word64)
    ensures ClampUnit(ClampUnit(d)) == ClampUnit(d)
    ensures Finite(d) ==> Finite(ClampUnit(d))
  {
  }

  function Pow2(e: int): real
    decreases if e < 0 then -e else e
  {
    if e == 0 then 1.0 else if e > 0 then 2.0 * Pow2(e - 1) else Pow2(e + 1) / 2.0
  }

  /** The value of a non-negative pattern. */
  function Size(m: nat): real {
    var exponent := m / 0x10_0000_0000_0000;
    var fraction := m % 0x10_0000_0000_0000;
    if exponent == 0 then fraction as real * Pow2(-1074)
    else (0x10_0000_0000_0000 + fraction) as real * Pow2(exponent - 1075)
  }

  /** The exact real value of a finite pattern. */
  function Value(d: Word64): real
    requires Finite(d)
  {
    if d < SIGN_BIT then Size(Magnitude(d)) else -Size(Magnitude(d))
  }

  // ---- the order of the patterns is the order of the numbers ----

  lemma {:induction false} Pow2Positive(e: int)
    ensures Pow2(e) > 0.0
    decreases if e < 0 then -e else e
  {
    if e > 0 {
      Pow2Positive(e - 1);
    } else if e < 0 {
      Pow2Positive(e + 1);
    }
  }

  lemma Pow2Next(e: int)
    ensures Pow2(e + 1) == 2.0 * Pow2(e)
  {
  }

  lemma ScaleUp(a: real, b: real, p: real)
    requires a < b && p > 0.0
    ensures a * p < b * p
  {
    assert (b - a) * p > 0.0;
  }

  /** The next pattern is a larger number, also across a change of exponent. */
  lemma SizeStep(m: nat)
    ensures Size(m) < Size(m + 1)
  {
    hide Pow2;
    var k := 0x10_0000_0000_0000;
    var e, f := m / k, m % k;
    Pow2Positive(-1074);
    Pow2Positive(e - 1075);
    if f + 1 < k {
      assert (m + 1) / k == e && (m + 1) % k == f + 1;
      if e == 0 {
        ScaleUp(f as real, (f + 1) as real, Pow2(-1074));
      } else {
        ScaleUp((k + f) as real, (k + f + 1) as real, Pow2(e - 1075));
      }
    } else {
      assert (m + 1) / k == e + 1 && (m + 1) % k == 0;
      if e == 0 {
        ScaleUp(f as real, k as real, Pow2(-1074));
      } else {
        Pow2Next(e - 1075);
        ScaleUp((k + f) as real, (2 * k) as real, Pow2(e - 1075));
      }
    }
  }

  lemma {:induction false} SizeMonotone(m: nat, n: nat)
    requires m < n
    ensures Size(m) < Size(n)
    decreases n - m
  {
    hide Size;
    SizeStep(n - 1);
    if m < n - 1 {
      SizeMonotone(m, n - 1);
    }
  }

  lemma SizeZero()
    ensures Size(0) == 0.0
  {
    hide Pow2;
    var k := 0x10_0000_0000_0000;
    assert 0 / k == 0 && 0 % k == 0;
    assert (0 as real) * Pow2(-1074) == 0.0;
  }

  lemma SizeOrder(m: nat, n: nat)
    ensures Size(m) < Size(n) <==> m < n
    ensures Size(m) >= 0.0 && (Size(m) == 0.0 <==> m == 0)
  {
    hide Size;
    SizeZero();
    if m > 0 {
      SizeMonotone(0, m);
    }
    if m < n {
      SizeMonotone(m, n);
    } else if n < m {
      SizeMonotone(n, m);
    }
  }

  /** For finite doubles the comparison of patterns is the comparison of the real numbers they denote. */
  lemma LessIsRealOrder(a: Word64, b: Word64)
    requires Finite(a) && Finite(b)
    ensures Less(a, b) <==> Value(a) < Value(b)
  {
    hide Size;
    SizeOrder(Magnitude(a), Magnitude(b));
    SizeOrder(Magnitude(b), Magnitude(a));
  }

  /** Clamping yields the unit interval, moves nothing that is already in it, and lets NaN through. */
  lemma ClampUnitIsClamp(d: Word64)
    ensures IsNaN(d) ==> ClampUnit(d) == d
    ensures !IsNaN(d) ==> !Less(ClampUnit(d), ZERO) && !Less(ONE, ClampUnit(d))
    ensures !Less(d, ZERO) && !Less(ONE, d) ==> ClampUnit(d) == d
  {
  }

  /** `elapsed_seconds(start, end) >= d`, with the quotient by 1000 taken over the reals. */
  predicate ElapsedAtLeast(start: Timestamp, end: Timestamp, d: Word64) {
    var millis := if end - start <= 0 then 0 else end - start;
    if IsNaN(d) then false
    else if IsInfinite(d) then d >= SIGN_BIT
    else millis as real / 1000.0 >= Value(d)
  }

  lemma ElapsedMonotone(start: Timestamp, end: Timestamp, later: Timestamp, d: Word64)
    requires end <= later && ElapsedAtLeast(start, end, d)
    ensures ElapsedAtLeast(start, later, d)
  {
  }
}
