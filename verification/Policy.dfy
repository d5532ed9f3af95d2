/** Policy record: decay thresholds and weights as double patterns, budgets as words. */
module Policies {
  import opened Basics
  import opened Doubles

  datatype BudgetKind =
    | DEVICE_MEMORY | PINNED_HOST_MEMORY | HOST_MEMORY | STORAGE_FOOTPRINT
    | CONCURRENT_WARMING_OPS | TRANSFER_BANDWIDTH | ACTIVE_ENGINES | WARM_REPLICAS

  type Words = seq<Word64>

  function KindIndex(k: BudgetKind): (i: nat)
    ensures i < 8
  {
    match k
    case DEVICE_MEMORY => 0
    case PINNED_HOST_MEMORY => 1
    case HOST_MEMORY => 2
    case STORAGE_FOOTPRINT => 3
    case CONCURRENT_WARMING_OPS => 4
    case TRANSFER_BANDWIDTH => 5
    case ACTIVE_ENGINES => 6
    case WARM_REPLICAS => 7
  }

  /** One limit per budget kind, in the order of the enumeration; zero means unlimited. */
  type Limits = s: seq<Word64> | |s| == 8 witness [0, 0, 0, 0, 0, 0, 0, 0]

  const UNLIMITED: Limits := [0, 0, 0, 0, 0, 0, 0, 0]

  datatype DecayPolicy = DecayPolicy(
    hotToWarm: Word64,
    warmToStale: Word64,
    staleToInvalidated: Word64,
    warmToPartial: Word64,
    partialToCold: Word64,
    onMemoryPressure: bool,
    onProcessRestart: bool,
    onDeviceReset: bool,
    onDependencyChange: bool,
    onPolicyChange: bool)

  type Weights = s: seq<Word64> | |s| == 12 witness DEFAULT_WEIGHTS

  datatype Policy = Policy(generation: Word64, decay: DecayPolicy, budgets: Limits, weights: Weights) {
    predicate FiniteNumbers() {
      && Finite(decay.hotToWarm) && Finite(decay.warmToStale) && Finite(decay.staleToInvalidated)
      && Finite(decay.warmToPartial) && Finite(decay.partialToCold)
      && (forall i :: 0 <= i < 12 ==> Finite(weights[i]))
    }
  }

  // 300, 1200, 600, 1800 and 3600 seconds
  const DEFAULT_DECAY := DecayPolicy(0x4072_C000_0000_0000, 0x4092_C000_0000_0000, 0x4082_C000_0000_0000,
                                     0x409C_2000_0000_0000, 0x40AC_2000_0000_0000,
                                     true, true, true, true, true)

  // 1, 2, 1.5, 3, 1, -1, -1, -1.5, -1, 2, 2, 2.5
  const DEFAULT_WEIGHTS: seq<Word64> :=
    [0x3FF0_0000_0000_0000, 0x4000_0000_0000_0000, 0x3FF8_0000_0000_0000, 0x4008_0000_0000_0000,
     0x3FF0_0000_0000_0000, 0xBFF0_0000_0000_0000, 0xBFF0_0000_0000_0000, 0xBFF8_0000_0000_0000,
     0xBFF0_0000_0000_0000, 0x4000_0000_0000_0000, 0x4000_0000_0000_0000, 0x4004_0000_0000_0000]

  function DefaultPolicy(generation: Word64): Policy {
    Policy(generation, DEFAULT_DECAY, UNLIMITED, DEFAULT_WEIGHTS)
  }

  // ---- what the default patterns denote ----

  function TwoTo(n: nat): (p: nat)
    ensures p > 0
  {
    if n == 0 then 1 else 2 * TwoTo(n - 1)
  }

  lemma {:induction false} Pow2Inverse(n: int)
    requires 0 <= n
    ensures Pow2(-n) * TwoTo(n) as real == 1.0
  {
    if n > 0 {
      Pow2Inverse(n - 1);
      Pow2Next(-n);
      var a, b := Pow2(-n), TwoTo(n - 1) as real;
      assert (2.0 * a) * b == a * (2.0 * b);
    }
  }

  lemma {:induction false} TwoToSum(m: nat, n: nat)
    ensures TwoTo(m + n) == TwoTo(m) * TwoTo(n)
    decreases m
  {
    hide TwoTo;
    if m == 0 {
      TwoToZero();
    } else {
      TwoToSum(m - 1, n);
      TwoToNext(m - 1);
      TwoToNext(m - 1 + n);
      Doubled(TwoTo(m - 1), TwoTo(n));
    }
  }

  lemma TwoToZero()
    ensures TwoTo(0) == 1
  {
  }

  lemma Doubled(a: int, b: int)
    ensures 2 * (a * b) == (2 * a) * b
  {
  }

  lemma TwoToForties()
    ensures TwoTo(40) == 0x100_0000_0000
    ensures TwoTo(41) == 0x200_0000_0000 && TwoTo(42) == 0x400_0000_0000 && TwoTo(43) == 0x800_0000_0000
    ensures TwoTo(44) == 0x1000_0000_0000
    ensures TwoTo(50) == 0x4_0000_0000_0000 && TwoTo(51) == 0x8_0000_0000_0000 && TwoTo(52) == 0x10_0000_0000_0000
  {
    assert TwoTo(5) == 32;
    TwoToSum(5, 5);
    TwoToSum(10, 10);
    TwoToSum(20, 20);
    TwoToSum(10, 40);
    hide TwoTo;
    TwoToNext(40);
    TwoToNext(41);
    TwoToNext(42);
    TwoToNext(43);
    TwoToNext(50);
    TwoToNext(51);
  }

  lemma TwoToNext(n: nat)
    ensures TwoTo(n + 1) == 2 * TwoTo(n)
  {
  }

  /** A normal pattern denotes x if the significand is x times the power of two it is divided by. */
  lemma Denotes(d: Word64, n: int, x: real)
    requires 0 <= n < 1075 && d < INFINITY && d / 0x10_0000_0000_0000 == 1075 - n
    requires (0x10_0000_0000_0000 + d % 0x10_0000_0000_0000) as real == x * TwoTo(n) as real
    ensures Finite(d) && Value(d) == x
  {
    hide Pow2, TwoTo;
    Pow2Inverse(n);
    var m := (0x10_0000_0000_0000 + d % 0x10_0000_0000_0000) as real;
    assert Value(d) == m * Pow2(-n);
    assert (x * TwoTo(n) as real) * Pow2(-n) == x * (Pow2(-n) * TwoTo(n) as real);
  }

  /** The default thresholds are 5, 20, 10, 30 and 60 minutes. */
  lemma DefaultThresholds()
    ensures var d := DEFAULT_DECAY;
      && Finite(d.hotToWarm) && Value(d.hotToWarm) == 300.0
      && Finite(d.warmToStale) && Value(d.warmToStale) == 1200.0
      && Finite(d.staleToInvalidated) && Value(d.staleToInvalidated) == 600.0
      && Finite(d.warmToPartial) && Value(d.warmToPartial) == 1800.0
      && Finite(d.partialToCold) && Value(d.partialToCold) == 3600.0
  {
    hide Value, TwoTo;
    TwoToForties();
    Denotes(DEFAULT_DECAY.hotToWarm, 44, 300.0);
    Denotes(DEFAULT_DECAY.warmToStale, 42, 1200.0);
    Denotes(DEFAULT_DECAY.staleToInvalidated, 43, 600.0);
    Denotes(DEFAULT_DECAY.warmToPartial, 42, 1800.0);
    Denotes(DEFAULT_DECAY.partialToCold, 41, 3600.0);
  }

  lemma Negative(d: Word64)
    requires d < INFINITY
    ensures Finite(d + SIGN_BIT) && Value(d + SIGN_BIT) == -Value(d)
  {
    hide Size;
  }

  /** The default weights, in the order of their declaration. */
  lemma DefaultWeights()
    ensures forall i :: 0 <= i < 12 ==> Finite(DEFAULT_WEIGHTS[i])
    ensures var w := DEFAULT_WEIGHTS;
      && Value(w[0]) == 1.0 && Value(w[1]) == 2.0 && Value(w[2]) == 1.5 && Value(w[3]) == 3.0
      && Value(w[4]) == 1.0 && Value(w[5]) == -1.0 && Value(w[6]) == -1.0 && Value(w[7]) == -1.5
      && Value(w[8]) == -1.0 && Value(w[9]) == 2.0 && Value(w[10]) == 2.0 && Value(w[11]) == 2.5
  {
    hide Value, TwoTo, Finite;
    TwoToForties();
    Denotes(0x3FF0_0000_0000_0000, 52, 1.0);
    Denotes(0x3FF8_0000_0000_0000, 52, 1.5);
    Denotes(0x4000_0000_0000_0000, 51, 2.0);
    Denotes(0x4004_0000_0000_0000, 51, 2.5);
    Denotes(0x4008_0000_0000_0000, 51, 3.0);
    Negative(0x3FF0_0000_0000_0000);
    Negative(0x3FF8_0000_0000_0000);
  }
}
