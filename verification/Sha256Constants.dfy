/** The constants of SHA-256 are the first 32 bits of the fractions of roots of the first primes. */
module Sha256Constants {
  import opened Basics
  import opened Bytes
  import opened Sha256
  import KnownAnswers

  // ---- the first 64 primes ----

  predicate IsPrime(n: nat) {
    n >= 2 && forall d: nat :: 2 <= d < n ==> n % d != 0
  }

  // eight to a row
  const P_0: seq<nat> := [2, 3, 5, 7, 11, 13, 17, 19]
  const P_8: seq<nat> := [23, 29, 31, 37, 41, 43, 47, 53]
  const P_16: seq<nat> := [59, 61, 67, 71, 73, 79, 83, 89]
  const P_24: seq<nat> := [97, 101, 103, 107, 109, 113, 127, 131]
  const P_32: seq<nat> := [137, 139, 149, 151, 157, 163, 167, 173]
  const P_40: seq<nat> := [179, 181, 191, 193, 197, 199, 211, 223]
  const P_48: seq<nat> := [227, 229, 233, 239, 241, 251, 257, 263]
  const P_56: seq<nat> := [269, 271, 277, 281, 283, 293, 307, 311]

  type FirstPrimes = s: seq<nat> | |s| == 64 witness seq(64, i => 0)

  /** Shown below to be the first 64 primes. */
  const PRIMES: FirstPrimes := ((P_0 + P_8) + (P_16 + P_24)) + ((P_32 + P_40) + (P_48 + P_56))

  function Prime(t: nat): nat
    requires t < 64
  {
    PRIMES[t]
  }

  predicate Tried(n: nat) {
    n % 2 != 0 && n % 3 != 0 && n % 5 != 0 && n % 7 != 0 && n % 11 != 0 && n % 13 != 0 && n % 17 != 0
  }

  /** Below 18 * 18 trial division by the primes up to 17 decides. */
  lemma TriedIsPrime(n: nat)
    requires 18 <= n < 324
    ensures Tried(n) <==> IsPrime(n)
  {
    forall d: nat | 2 <= d < n && n % d == 0 ensures !Tried(n) {
      FactorFound(n, d, n / d);
    }
  }

  /** One of the two factors is at most 17. */
  lemma FactorFound(n: nat, d: nat, e: nat)
    requires n == d * e && 2 <= d < n < 324
    ensures !Tried(n)
  {
    assert e >= 2;
    if d <= 17 {
      SmallFactorFound(n, d, e);
    } else {
      assert e >= 18 ==> d * e >= 18 * 18;
      SmallFactorFound(n, e, d);
    }
  }

  /** Any factor from 2 to 17 has a prime factor that is tried. */
  lemma SmallFactorFound(n: nat, d: nat, e: nat)
    requires n == d * e && 2 <= d <= 17
    ensures !Tried(n)
  {
    hide Tried;
    var q := TriedFactor(d);
    Multiple(n, d, e, q);
    MultipleFails(n, q);
  }

  lemma TriedFactor(d: nat) returns (q: nat)
    requires 2 <= d <= 17
    ensures q == 2 || q == 3 || q == 5 || q == 7 || q == 11 || q == 13 || q == 17
    ensures d % q == 0
  {
    q := if d % 2 == 0 then 2 else if d % 3 == 0 then 3 else if d % 5 == 0 then 5 else d;
  }

  lemma Multiple(n: nat, d: nat, e: nat, q: nat)
    requires n == d * e && q > 0 && d % q == 0
    ensures n % q == 0
  {
    var r := d / q;
    assert d == r * q;
    assert (r * q) * e == (r * e) * q;
    Remainder(n, r * e, q, 0);
  }

  lemma MultipleFails(n: nat, q: nat)
    requires q == 2 || q == 3 || q == 5 || q == 7 || q == 11 || q == 13 || q == 17
    requires n % q == 0
    ensures !Tried(n)
  {
  }

  predicate In0(n: nat) {
    n == 2 || n == 3 || n == 5 || n == 7 || n == 11 || n == 13 || n == 17 || n == 19
  }

  predicate In8(n: nat) {
    n == 23 || n == 29 || n == 31 || n == 37 || n == 41 || n == 43 || n == 47 || n == 53
  }

  predicate In16(n: nat) {
    n == 59 || n == 61 || n == 67 || n == 71 || n == 73 || n == 79 || n == 83 || n == 89
  }

  predicate In24(n: nat) {
    n == 97 || n == 101 || n == 103 || n == 107 || n == 109 || n == 113 || n == 127 || n == 131
  }

  predicate In32(n: nat) {
    n == 137 || n == 139 || n == 149 || n == 151 || n == 157 || n == 163 || n == 167 || n == 173
  }

  predicate In40(n: nat) {
    n == 179 || n == 181 || n == 191 || n == 193 || n == 197 || n == 199 || n == 211 || n == 223
  }

  predicate In48(n: nat) {
    n == 227 || n == 229 || n == 233 || n == 239 || n == 241 || n == 251 || n == 257 || n == 263
  }

  predicate In56(n: nat) {
    n == 269 || n == 271 || n == 277 || n == 281 || n == 283 || n == 293 || n == 307 || n == 311
  }

  predicate Listed(n: nat) {
    In0(n) || In8(n) || In16(n) || In24(n) || In32(n) || In40(n) || In48(n) || In56(n)
  }

  lemma Sieve8Part0(n: nat)
    requires 19 < n <= 43
    ensures Tried(n) <==> n == 23 || n == 29 || n == 31 || n == 37 || n == 41 || n == 43
  {
  }

  lemma Sieve8Part1(n: nat)
    requires 43 < n <= 53
    ensures Tried(n) <==> n == 47 || n == 53
  {
  }

  lemma Sieve8(n: nat)
    requires 19 < n <= 53
    ensures Tried(n) <==> In8(n)
  {
    hide Tried;
    if n <= 43 {
      Sieve8Part0(n);
    } else {
      Sieve8Part1(n);
    }
  }

  lemma Sieve16Part0(n: nat)
    requires 53 < n <= 77
    ensures Tried(n) <==> n == 59 || n == 61 || n == 67 || n == 71 || n == 73
  {
  }

  lemma Sieve16Part1(n: nat)
    requires 77 < n <= 89
    ensures Tried(n) <==> n == 79 || n == 83 || n == 89
  {
  }

  lemma Sieve16(n: nat)
    requires 53 < n <= 89
    ensures Tried(n) <==> In16(n)
  {
    hide Tried;
    if n <= 77 {
      Sieve16Part0(n);
    } else {
      Sieve16Part1(n);
    }
  }

  lemma Sieve24Part0(n: nat)
    requires 89 < n <= 113
    ensures Tried(n) <==> n == 97 || n == 101 || n == 103 || n == 107 || n == 109 || n == 113
  {
  }

  lemma Sieve24Part1(n: nat)
    requires 113 < n <= 131
    ensures Tried(n) <==> n == 127 || n == 131
  {
  }

  lemma Sieve24(n: nat)
    requires 89 < n <= 131
    ensures Tried(n) <==> In24(n)
  {
    hide Tried;
    if n <= 113 {
      Sieve24Part0(n);
    } else {
      Sieve24Part1(n);
    }
  }

  lemma Sieve32Part0(n: nat)
    requires 131 < n <= 155
    ensures Tried(n) <==> n == 137 || n == 139 || n == 149 || n == 151
  {
  }

  lemma Sieve32Part1(n: nat)
    requires 155 < n <= 173
    ensures Tried(n) <==> n == 157 || n == 163 || n == 167 || n == 173
  {
  }

  lemma Sieve32(n: nat)
    requires 131 < n <= 173
    ensures Tried(n) <==> In32(n)
  {
    hide Tried;
    if n <= 155 {
      Sieve32Part0(n);
    } else {
      Sieve32Part1(n);
    }
  }

  lemma Sieve40Part0(n: nat)
    requires 173 < n <= 197
    ensures Tried(n) <==> n == 179 || n == 181 || n == 191 || n == 193 || n == 197
  {
  }

  lemma Sieve40Part1(n: nat)
    requires 197 < n <= 221
    ensures Tried(n) <==> n == 199 || n == 211
  {
  }

  lemma Sieve40Part2(n: nat)
    requires 221 < n <= 223
    ensures Tried(n) <==> n == 223
  {
  }

  lemma Sieve40(n: nat)
    requires 173 < n <= 223
    ensures Tried(n) <==> In40(n)
  {
    hide Tried;
    if n <= 197 {
      Sieve40Part0(n);
    } else if n <= 221 {
      Sieve40Part1(n);
    } else {
      Sieve40Part2(n);
    }
  }

  lemma Sieve48Part0(n: nat)
    requires 223 < n <= 247
    ensures Tried(n) <==> n == 227 || n == 229 || n == 233 || n == 239 || n == 241
  {
  }

  lemma Sieve48Part1(n: nat)
    requires 247 < n <= 263
    ensures Tried(n) <==> n == 251 || n == 257 || n == 263
  {
  }

  lemma Sieve48(n: nat)
    requires 223 < n <= 263
    ensures Tried(n) <==> In48(n)
  {
    hide Tried;
    if n <= 247 {
      Sieve48Part0(n);
    } else {
      Sieve48Part1(n);
    }
  }

  lemma Sieve56Part0(n: nat)
    requires 263 < n <= 287
    ensures Tried(n) <==> n == 269 || n == 271 || n == 277 || n == 281 || n == 283
  {
  }

  lemma Sieve56Part1(n: nat)
    requires 287 < n <= 311
    ensures Tried(n) <==> n == 293 || n == 307 || n == 311
  {
  }

  lemma Sieve56(n: nat)
    requires 263 < n <= 311
    ensures Tried(n) <==> In56(n)
  {
    hide Tried;
    if n <= 287 {
      Sieve56Part0(n);
    } else {
      Sieve56Part1(n);
    }
  }

  lemma Sieve0(n: nat)
    requires n <= 19
    ensures In0(n) <==> IsPrime(n)
  {
    assert n == 4 || n == 6 || n == 8 || n == 10 || n == 12 || n == 14 || n == 16 || n == 18 ==> n % 2 == 0;
    assert n == 9 || n == 15 ==> n % 3 == 0;
  }

  /** Each row keeps to its range. */
  lemma Ranges(n: nat)
    ensures In0(n) ==> 2 <= n <= 19
    ensures In8(n) ==> 23 <= n <= 53
    ensures In16(n) ==> 59 <= n <= 89
    ensures In24(n) ==> 97 <= n <= 131
    ensures In32(n) ==> 137 <= n <= 173
    ensures In40(n) ==> 179 <= n <= 223
    ensures In48(n) ==> 227 <= n <= 263
    ensures In56(n) ==> 269 <= n <= 311
  {
  }

  /** The listed numbers are exactly the primes up to 311. */
  lemma ListedIsPrime(n: nat)
    requires n <= 311
    ensures Listed(n) <==> IsPrime(n)
  {
    hide Tried, IsPrime, In0, In8, In16, In24, In32, In40, In48, In56;
    Ranges(n);
    if n <= 19 {
      Sieve0(n);
    } else {
      TriedIsPrime(n);
      if n <= 53 {
        Sieve8(n);
      } else if n <= 89 {
        Sieve16(n);
      } else if n <= 131 {
        Sieve24(n);
      } else if n <= 173 {
        Sieve32(n);
      } else if n <= 223 {
        Sieve40(n);
      } else if n <= 263 {
        Sieve48(n);
      } else {
        Sieve56(n);
      }
    }
  }

  lemma Row0()
    ensures Prime(0) == 2 && Prime(1) == 3 && Prime(2) == 5 && Prime(3) == 7
    ensures Prime(4) == 11 && Prime(5) == 13 && Prime(6) == 17 && Prime(7) == 19
  {
  }

  lemma Row8()
    ensures Prime(8) == 23 && Prime(9) == 29 && Prime(10) == 31 && Prime(11) == 37
    ensures Prime(12) == 41 && Prime(13) == 43 && Prime(14) == 47 && Prime(15) == 53
  {
  }

  lemma Row16()
    ensures Prime(16) == 59 && Prime(17) == 61 && Prime(18) == 67 && Prime(19) == 71
    ensures Prime(20) == 73 && Prime(21) == 79 && Prime(22) == 83 && Prime(23) == 89
  {
  }

  lemma Row24()
    ensures Prime(24) == 97 && Prime(25) == 101 && Prime(26) == 103 && Prime(27) == 107
    ensures Prime(28) == 109 && Prime(29) == 113 && Prime(30) == 127 && Prime(31) == 131
  {
  }

  lemma Row32()
    ensures Prime(32) == 137 && Prime(33) == 139 && Prime(34) == 149 && Prime(35) == 151
    ensures Prime(36) == 157 && Prime(37) == 163 && Prime(38) == 167 && Prime(39) == 173
  {
  }

  lemma Row40()
    ensures Prime(40) == 179 && Prime(41) == 181 && Prime(42) == 191 && Prime(43) == 193
    ensures Prime(44) == 197 && Prime(45) == 199 && Prime(46) == 211 && Prime(47) == 223
  {
  }

  lemma Row48()
    ensures Prime(48) == 227 && Prime(49) == 229 && Prime(50) == 233 && Prime(51) == 239
    ensures Prime(52) == 241 && Prime(53) == 251 && Prime(54) == 257 && Prime(55) == 263
  {
  }

  lemma Row56()
    ensures Prime(56) == 269 && Prime(57) == 271 && Prime(58) == 277 && Prime(59) == 281
    ensures Prime(60) == 283 && Prime(61) == 293 && Prime(62) == 307 && Prime(63) == 311
  {
  }

  /** Entry t is listed, and smaller than the next one. */
  predicate InOrder(t: nat) {
    t < 64 && Listed(Prime(t)) && (t < 63 ==> Prime(t) < Prime(t + 1))
  }

  lemma Order0(t: nat)
    requires 0 <= t < 8
    ensures InOrder(t)
  {
    hide Prime;
    Row0();
    Row8();
  }

  lemma Found0(n: nat)
    requires In0(n)
    ensures exists t :: 0 <= t < 64 && Prime(t) == n
  {
    hide Prime;
    Row0();
  }

  lemma Order8(t: nat)
    requires 8 <= t < 16
    ensures InOrder(t)
  {
    hide Prime;
    Row8();
    Row16();
  }

  lemma Found8(n: nat)
    requires In8(n)
    ensures exists t :: 0 <= t < 64 && Prime(t) == n
  {
    hide Prime;
    Row8();
  }

  lemma Order16(t: nat)
    requires 16 <= t < 24
    ensures InOrder(t)
  {
    hide Prime;
    Row16();
    Row24();
  }

  lemma Found16(n: nat)
    requires In16(n)
    ensures exists t :: 0 <= t < 64 && Prime(t) == n
  {
    hide Prime;
    Row16();
  }

  lemma Order24(t: nat)
    requires 24 <= t < 32
    ensures InOrder(t)
  {
    hide Prime;
    Row24();
    Row32();
  }

  lemma Found24(n: nat)
    requires In24(n)
    ensures exists t :: 0 <= t < 64 && Prime(t) == n
  {
    hide Prime;
    Row24();
  }

  lemma Order32(t: nat)
    requires 32 <= t < 40
    ensures InOrder(t)
  {
    hide Prime;
    Row32();
    Row40();
  }

  lemma Found32(n: nat)
    requires In32(n)
    ensures exists t :: 0 <= t < 64 && Prime(t) == n
  {
    hide Prime;
    Row32();
  }

  lemma Order40(t: nat)
    requires 40 <= t < 48
    ensures InOrder(t)
  {
    hide Prime;
    Row40();
    Row48();
  }

  lemma Found40(n: nat)
    requires In40(n)
    ensures exists t :: 0 <= t < 64 && Prime(t) == n
  {
    hide Prime;
    Row40();
  }

  lemma Order48(t: nat)
    requires 48 <= t < 56
    ensures InOrder(t)
  {
    hide Prime;
    Row48();
    Row56();
  }

  lemma Found48(n: nat)
    requires In48(n)
    ensures exists t :: 0 <= t < 64 && Prime(t) == n
  {
    hide Prime;
    Row48();
  }

  lemma Order56(t: nat)
    requires 56 <= t < 64
    ensures InOrder(t)
  {
    hide Prime;
    Row56();
  }

  lemma Found56(n: nat)
    requires In56(n)
    ensures exists t :: 0 <= t < 64 && Prime(t) == n
  {
    hide Prime;
    Row56();
  }

  /** PRIMES lists the primes up to 311, all of them, in ascending order; so entry t is the t-th prime. */
  lemma PrimesInOrder(t: nat)
    requires t < 64
    ensures IsPrime(Prime(t)) && (t < 63 ==> Prime(t) < Prime(t + 1))
  {
    hide IsPrime, Listed, Prime;
    assert InOrder(t) by {
      OrderAt(t);
    }
    assert Prime(t) <= 311 by {
      AtMost311(Prime(t));
    }
    ListedIsPrime(Prime(t));
  }

  lemma OrderAt(t: nat)
    requires t < 64
    ensures InOrder(t)
  {
    hide InOrder;
    if t < 8 {
      Order0(t);
    } else if t < 16 {
      Order8(t);
    } else if t < 24 {
      Order16(t);
    } else if t < 32 {
      Order24(t);
    } else if t < 40 {
      Order32(t);
    } else if t < 48 {
      Order40(t);
    } else if t < 56 {
      Order48(t);
    } else {
      Order56(t);
    }
  }

  lemma AtMost311(n: nat)
    requires Listed(n)
    ensures n <= 311
  {
    hide In0, In8, In16, In24, In32, In40, In48, In56;
    Ranges(n);
  }

  lemma AllPrimesFound(n: nat)
    requires n <= 311 && IsPrime(n)
    ensures exists t :: 0 <= t < 64 && Prime(t) == n
  {
    hide IsPrime, Prime, In0, In8, In16, In24, In32, In40, In48, In56;
    ListedIsPrime(n);
    if In0(n) {
      Found0(n);
    } else if In8(n) {
      Found8(n);
    } else if In16(n) {
      Found16(n);
    } else if In24(n) {
      Found24(n);
    } else if In32(n) {
      Found32(n);
    } else if In40(n) {
      Found40(n);
    } else if In48(n) {
      Found48(n);
    } else {
      Found56(n);
    }
  }

  // ---- the constants of SHA-256 are fractions of roots of primes ----

  /** r is the cube root of p in units of 2^-32, rounded down. */
  predicate CubeRoot(p: nat, r: nat) {
    r * r * r <= p * 0x1_0000_0000_0000_0000_0000_0000 < (r + 1) * (r + 1) * (r + 1)
  }

  predicate SquareRoot(p: nat, r: nat) {
    r * r <= p * 0x1_0000_0000_0000_0000 < (r + 1) * (r + 1)
  }

  function Constant(t: nat): nat
    requires t < 64
  {
    K[t] as nat
  }

  function Initial(t: nat): nat
    requires t < 8
  {
    INITIAL[t] as nat
  }

  /** Constant t is the first 32 bits of the fraction of the cube root of the t-th prime. */
  ghost predicate FromCubeRoot(t: nat) {
    t < 64 && exists r: nat :: CubeRoot(Prime(t), r) && r % 0x1_0000_0000 == Constant(t)
  }

  lemma ByRoot(t: nat, p: nat, r: nat, k: nat)
    requires t < 64 && Prime(t) == p && CubeRoot(p, r) && r % 0x1_0000_0000 == k == Constant(t)
    ensures FromCubeRoot(t)
  {
    hide CubeRoot, Constant, Prime;
  }

  lemma Values0()
    ensures (0x428a2f98 as bv32) as nat == 0x428a2f98 && (0x71374491 as bv32) as nat == 0x71374491 && (0xb5c0fbcf as bv32) as nat == 0xb5c0fbcf && (0xe9b5dba5 as bv32) as nat == 0xe9b5dba5
    ensures (0x3956c25b as bv32) as nat == 0x3956c25b && (0x59f111f1 as bv32) as nat == 0x59f111f1 && (0x923f82a4 as bv32) as nat == 0x923f82a4 && (0xab1c5ed5 as bv32) as nat == 0xab1c5ed5
  {
  }

  lemma Words0()
    ensures Constant(0) == 0x428a2f98 && Constant(1) == 0x71374491 && Constant(2) == 0xb5c0fbcf && Constant(3) == 0xe9b5dba5
    ensures Constant(4) == 0x3956c25b && Constant(5) == 0x59f111f1 && Constant(6) == 0x923f82a4 && Constant(7) == 0xab1c5ed5
  {
    KnownAnswers.RowOfK0();
    Values0();
  }

  lemma Roots0()
    ensures CubeRoot(2, 0x1428a2f98) && CubeRoot(3, 0x171374491) && CubeRoot(5, 0x1b5c0fbcf) && CubeRoot(7, 0x1e9b5dba5)
    ensures CubeRoot(11, 0x23956c25b) && CubeRoot(13, 0x259f111f1) && CubeRoot(17, 0x2923f82a4) && CubeRoot(19, 0x2ab1c5ed5)
  {
  }

  lemma FromRoots0(t: nat)
    requires 0 <= t < 8
    ensures FromCubeRoot(t)
  {
    hide CubeRoot, FromCubeRoot, Constant, Prime;
    Row0();
    Words0();
    Roots0();
    ByRoot(0, 2, 0x1428a2f98, 0x428a2f98);
    ByRoot(1, 3, 0x171374491, 0x71374491);
    ByRoot(2, 5, 0x1b5c0fbcf, 0xb5c0fbcf);
    ByRoot(3, 7, 0x1e9b5dba5, 0xe9b5dba5);
    ByRoot(4, 11, 0x23956c25b, 0x3956c25b);
    ByRoot(5, 13, 0x259f111f1, 0x59f111f1);
    ByRoot(6, 17, 0x2923f82a4, 0x923f82a4);
    ByRoot(7, 19, 0x2ab1c5ed5, 0xab1c5ed5);
  }

  lemma Values8()
    ensures (0xd807aa98 as bv32) as nat == 0xd807aa98 && (0x12835b01 as bv32) as nat == 0x12835b01 && (0x243185be as bv32) as nat == 0x243185be && (0x550c7dc3 as bv32) as nat == 0x550c7dc3
    ensures (0x72be5d74 as bv32) as nat == 0x72be5d74 && (0x80deb1fe as bv32) as nat == 0x80deb1fe && (0x9bdc06a7 as bv32) as nat == 0x9bdc06a7 && (0xc19bf174 as bv32) as nat == 0xc19bf174
  {
  }

  lemma Words8()
    ensures Constant(8) == 0xd807aa98 && Constant(9) == 0x12835b01 && Constant(10) == 0x243185be && Constant(11) == 0x550c7dc3
    ensures Constant(12) == 0x72be5d74 && Constant(13) == 0x80deb1fe && Constant(14) == 0x9bdc06a7 && Constant(15) == 0xc19bf174
  {
    KnownAnswers.RowOfK8();
    Values8();
  }

  lemma Roots8()
    ensures CubeRoot(23, 0x2d807aa98) && CubeRoot(29, 0x312835b01) && CubeRoot(31, 0x3243185be) && CubeRoot(37, 0x3550c7dc3)
    ensures CubeRoot(41, 0x372be5d74) && CubeRoot(43, 0x380deb1fe) && CubeRoot(47, 0x39bdc06a7) && CubeRoot(53, 0x3c19bf174)
  {
  }

  lemma FromRoots8(t: nat)
    requires 8 <= t < 16
    ensures FromCubeRoot(t)
  {
    hide CubeRoot, FromCubeRoot, Constant, Prime;
    Row8();
    Words8();
    Roots8();
    ByRoot(8, 23, 0x2d807aa98, 0xd807aa98);
    ByRoot(9, 29, 0x312835b01, 0x12835b01);
    ByRoot(10, 31, 0x3243185be, 0x243185be);
    ByRoot(11, 37, 0x3550c7dc3, 0x550c7dc3);
    ByRoot(12, 41, 0x372be5d74, 0x72be5d74);
    ByRoot(13, 43, 0x380deb1fe, 0x80deb1fe);
    ByRoot(14, 47, 0x39bdc06a7, 0x9bdc06a7);
    ByRoot(15, 53, 0x3c19bf174, 0xc19bf174);
  }

  lemma Values16()
    ensures (0xe49b69c1 as bv32) as nat == 0xe49b69c1 && (0xefbe4786 as bv32) as nat == 0xefbe4786 && (0x0fc19dc6 as bv32) as nat == 0x0fc19dc6 && (0x240ca1cc as bv32) as nat == 0x240ca1cc
    ensures (0x2de92c6f as bv32) as nat == 0x2de92c6f && (0x4a7484aa as bv32) as nat == 0x4a7484aa && (0x5cb0a9dc as bv32) as nat == 0x5cb0a9dc && (0x76f988da as bv32) as nat == 0x76f988da
  {
  }

  lemma Words16()
    ensures Constant(16) == 0xe49b69c1 && Constant(17) == 0xefbe4786 && Constant(18) == 0x0fc19dc6 && Constant(19) == 0x240ca1cc
    ensures Constant(20) == 0x2de92c6f && Constant(21) == 0x4a7484aa && Constant(22) == 0x5cb0a9dc && Constant(23) == 0x76f988da
  {
    KnownAnswers.RowOfK16();
    Values16();
  }

  lemma Roots16()
    ensures CubeRoot(59, 0x3e49b69c1) && CubeRoot(61, 0x3efbe4786) && CubeRoot(67, 0x40fc19dc6) && CubeRoot(71, 0x4240ca1cc)
    ensures CubeRoot(73, 0x42de92c6f) && CubeRoot(79, 0x44a7484aa) && CubeRoot(83, 0x45cb0a9dc) && CubeRoot(89, 0x476f988da)
  {
  }

  lemma FromRoots16(t: nat)
    requires 16 <= t < 24
    ensures FromCubeRoot(t)
  {
    hide CubeRoot, FromCubeRoot, Constant, Prime;
    Row16();
    Words16();
    Roots16();
    ByRoot(16, 59, 0x3e49b69c1, 0xe49b69c1);
    ByRoot(17, 61, 0x3efbe4786, 0xefbe4786);
    ByRoot(18, 67, 0x40fc19dc6, 0x0fc19dc6);
    ByRoot(19, 71, 0x4240ca1cc, 0x240ca1cc);
    ByRoot(20, 73, 0x42de92c6f, 0x2de92c6f);
    ByRoot(21, 79, 0x44a7484aa, 0x4a7484aa);
    ByRoot(22, 83, 0x45cb0a9dc, 0x5cb0a9dc);
    ByRoot(23, 89, 0x476f988da, 0x76f988da);
  }

  lemma Values24()
    ensures (0x983e5152 as bv32) as nat == 0x983e5152 && (0xa831c66d as bv32) as nat == 0xa831c66d && (0xb00327c8 as bv32) as nat == 0xb00327c8 && (0xbf597fc7 as bv32) as nat == 0xbf597fc7
    ensures (0xc6e00bf3 as bv32) as nat == 0xc6e00bf3 && (0xd5a79147 as bv32) as nat == 0xd5a79147 && (0x06ca6351 as bv32) as nat == 0x06ca6351 && (0x14292967 as bv32) as nat == 0x14292967
  {
  }

  lemma Words24()
    ensures Constant(24) == 0x983e5152 && Constant(25) == 0xa831c66d && Constant(26) == 0xb00327c8 && Constant(27) == 0xbf597fc7
    ensures Constant(28) == 0xc6e00bf3 && Constant(29) == 0xd5a79147 && Constant(30) == 0x06ca6351 && Constant(31) == 0x14292967
  {
    KnownAnswers.RowOfK24();
    Values24();
  }

  lemma Roots24()
    ensures CubeRoot(97, 0x4983e5152) && CubeRoot(101, 0x4a831c66d) && CubeRoot(103, 0x4b00327c8) && CubeRoot(107, 0x4bf597fc7)
    ensures CubeRoot(109, 0x4c6e00bf3) && CubeRoot(113, 0x4d5a79147) && CubeRoot(127, 0x506ca6351) && CubeRoot(131, 0x514292967)
  {
  }

  lemma FromRoots24(t: nat)
    requires 24 <= t < 32
    ensures FromCubeRoot(t)
  {
    hide CubeRoot, FromCubeRoot, Constant, Prime;
    Row24();
    Words24();
    Roots24();
    ByRoot(24, 97, 0x4983e5152, 0x983e5152);
    ByRoot(25, 101, 0x4a831c66d, 0xa831c66d);
    ByRoot(26, 103, 0x4b00327c8, 0xb00327c8);
    ByRoot(27, 107, 0x4bf597fc7, 0xbf597fc7);
    ByRoot(28, 109, 0x4c6e00bf3, 0xc6e00bf3);
    ByRoot(29, 113, 0x4d5a79147, 0xd5a79147);
    ByRoot(30, 127, 0x506ca6351, 0x06ca6351);
    ByRoot(31, 131, 0x514292967, 0x14292967);
  }

  lemma Values32()
    ensures (0x27b70a85 as bv32) as nat == 0x27b70a85 && (0x2e1b2138 as bv32) as nat == 0x2e1b2138 && (0x4d2c6dfc as bv32) as nat == 0x4d2c6dfc && (0x53380d13 as bv32) as nat == 0x53380d13
    ensures (0x650a7354 as bv32) as nat == 0x650a7354 && (0x766a0abb as bv32) as nat == 0x766a0abb && (0x81c2c92e as bv32) as nat == 0x81c2c92e && (0x92722c85 as bv32) as nat == 0x92722c85
  {
  }

  lemma Words32()
    ensures Constant(32) == 0x27b70a85 && Constant(33) == 0x2e1b2138 && Constant(34) == 0x4d2c6dfc && Constant(35) == 0x53380d13
    ensures Constant(36) == 0x650a7354 && Constant(37) == 0x766a0abb && Constant(38) == 0x81c2c92e && Constant(39) == 0x92722c85
  {
    KnownAnswers.RowOfK32();
    Values32();
  }

  lemma Roots32()
    ensures CubeRoot(137, 0x527b70a85) && CubeRoot(139, 0x52e1b2138) && CubeRoot(149, 0x54d2c6dfc) && CubeRoot(151, 0x553380d13)
    ensures CubeRoot(157, 0x5650a7354) && CubeRoot(163, 0x5766a0abb) && CubeRoot(167, 0x581c2c92e) && CubeRoot(173, 0x592722c85)
  {
  }

  lemma FromRoots32(t: nat)
    requires 32 <= t < 40
    ensures FromCubeRoot(t)
  {
    hide CubeRoot, FromCubeRoot, Constant, Prime;
    Row32();
    Words32();
    Roots32();
    ByRoot(32, 137, 0x527b70a85, 0x27b70a85);
    ByRoot(33, 139, 0x52e1b2138, 0x2e1b2138);
    ByRoot(34, 149, 0x54d2c6dfc, 0x4d2c6dfc);
    ByRoot(35, 151, 0x553380d13, 0x53380d13);
    ByRoot(36, 157, 0x5650a7354, 0x650a7354);
    ByRoot(37, 163, 0x5766a0abb, 0x766a0abb);
    ByRoot(38, 167, 0x581c2c92e, 0x81c2c92e);
    ByRoot(39, 173, 0x592722c85, 0x92722c85);
  }

  lemma Values40()
    ensures (0xa2bfe8a1 as bv32) as nat == 0xa2bfe8a1 && (0xa81a664b as bv32) as nat == 0xa81a664b && (0xc24b8b70 as bv32) as nat == 0xc24b8b70 && (0xc76c51a3 as bv32) as nat == 0xc76c51a3
    ensures (0xd192e819 as bv32) as nat == 0xd192e819 && (0xd6990624 as bv32) as nat == 0xd6990624 && (0xf40e3585 as bv32) as nat == 0xf40e3585 && (0x106aa070 as bv32) as nat == 0x106aa070
  {
  }

  lemma Words40()
    ensures Constant(40) == 0xa2bfe8a1 && Constant(41) == 0xa81a664b && Constant(42) == 0xc24b8b70 && Constant(43) == 0xc76c51a3
    ensures Constant(44) == 0xd192e819 && Constant(45) == 0xd6990624 && Constant(46) == 0xf40e3585 && Constant(47) == 0x106aa070
  {
    KnownAnswers.RowOfK40();
    Values40();
  }

  lemma Roots40()
    ensures CubeRoot(179, 0x5a2bfe8a1) && CubeRoot(181, 0x5a81a664b) && CubeRoot(191, 0x5c24b8b70) && CubeRoot(193, 0x5c76c51a3)
    ensures CubeRoot(197, 0x5d192e819) && CubeRoot(199, 0x5d6990624) && CubeRoot(211, 0x5f40e3585) && CubeRoot(223, 0x6106aa070)
  {
  }

  lemma FromRoots40(t: nat)
    requires 40 <= t < 48
    ensures FromCubeRoot(t)
  {
    hide CubeRoot, FromCubeRoot, Constant, Prime;
    Row40();
    Words40();
    Roots40();
    ByRoot(40, 179, 0x5a2bfe8a1, 0xa2bfe8a1);
    ByRoot(41, 181, 0x5a81a664b, 0xa81a664b);
    ByRoot(42, 191, 0x5c24b8b70, 0xc24b8b70);
    ByRoot(43, 193, 0x5c76c51a3, 0xc76c51a3);
    ByRoot(44, 197, 0x5d192e819, 0xd192e819);
    ByRoot(45, 199, 0x5d6990624, 0xd6990624);
    ByRoot(46, 211, 0x5f40e3585, 0xf40e3585);
    ByRoot(47, 223, 0x6106aa070, 0x106aa070);
  }

  lemma Values48()
    ensures (0x19a4c116 as bv32) as nat == 0x19a4c116 && (0x1e376c08 as bv32) as nat == 0x1e376c08 && (0x2748774c as bv32) as nat == 0x2748774c && (0x34b0bcb5 as bv32) as nat == 0x34b0bcb5
    ensures (0x391c0cb3 as bv32) as nat == 0x391c0cb3 && (0x4ed8aa4a as bv32) as nat == 0x4ed8aa4a && (0x5b9cca4f as bv32) as nat == 0x5b9cca4f && (0x682e6ff3 as bv32) as nat == 0x682e6ff3
  {
  }

  lemma Words48()
    ensures Constant(48) == 0x19a4c116 && Constant(49) == 0x1e376c08 && Constant(50) == 0x2748774c && Constant(51) == 0x34b0bcb5
    ensures Constant(52) == 0x391c0cb3 && Constant(53) == 0x4ed8aa4a && Constant(54) == 0x5b9cca4f && Constant(55) == 0x682e6ff3
  {
    KnownAnswers.RowOfK48();
    Values48();
  }

  lemma Roots48()
    ensures CubeRoot(227, 0x619a4c116) && CubeRoot(229, 0x61e376c08) && CubeRoot(233, 0x62748774c) && CubeRoot(239, 0x634b0bcb5)
    ensures CubeRoot(241, 0x6391c0cb3) && CubeRoot(251, 0x64ed8aa4a) && CubeRoot(257, 0x65b9cca4f) && CubeRoot(263, 0x6682e6ff3)
  {
  }

  lemma FromRoots48(t: nat)
    requires 48 <= t < 56
    ensures FromCubeRoot(t)
  {
    hide CubeRoot, FromCubeRoot, Constant, Prime;
    Row48();
    Words48();
    Roots48();
    ByRoot(48, 227, 0x619a4c116, 0x19a4c116);
    ByRoot(49, 229, 0x61e376c08, 0x1e376c08);
    ByRoot(50, 233, 0x62748774c, 0x2748774c);
    ByRoot(51, 239, 0x634b0bcb5, 0x34b0bcb5);
    ByRoot(52, 241, 0x6391c0cb3, 0x391c0cb3);
    ByRoot(53, 251, 0x64ed8aa4a, 0x4ed8aa4a);
    ByRoot(54, 257, 0x65b9cca4f, 0x5b9cca4f);
    ByRoot(55, 263, 0x6682e6ff3, 0x682e6ff3);
  }

  lemma Values56()
    ensures (0x748f82ee as bv32) as nat == 0x748f82ee && (0x78a5636f as bv32) as nat == 0x78a5636f && (0x84c87814 as bv32) as nat == 0x84c87814 && (0x8cc70208 as bv32) as nat == 0x8cc70208
    ensures (0x90befffa as bv32) as nat == 0x90befffa && (0xa4506ceb as bv32) as nat == 0xa4506ceb && (0xbef9a3f7 as bv32) as nat == 0xbef9a3f7 && (0xc67178f2 as bv32) as nat == 0xc67178f2
  {
  }

  lemma Words56()
    ensures Constant(56) == 0x748f82ee && Constant(57) == 0x78a5636f && Constant(58) == 0x84c87814 && Constant(59) == 0x8cc70208
    ensures Constant(60) == 0x90befffa && Constant(61) == 0xa4506ceb && Constant(62) == 0xbef9a3f7 && Constant(63) == 0xc67178f2
  {
    KnownAnswers.RowOfK56();
    Values56();
  }

  lemma Roots56()
    ensures CubeRoot(269, 0x6748f82ee) && CubeRoot(271, 0x678a5636f) && CubeRoot(277, 0x684c87814) && CubeRoot(281, 0x68cc70208)
    ensures CubeRoot(283, 0x690befffa) && CubeRoot(293, 0x6a4506ceb) && CubeRoot(307, 0x6bef9a3f7) && CubeRoot(311, 0x6c67178f2)
  {
  }

  lemma FromRoots56(t: nat)
    requires 56 <= t < 64
    ensures FromCubeRoot(t)
  {
    hide CubeRoot, FromCubeRoot, Constant, Prime;
    Row56();
    Words56();
    Roots56();
    ByRoot(56, 269, 0x6748f82ee, 0x748f82ee);
    ByRoot(57, 271, 0x678a5636f, 0x78a5636f);
    ByRoot(58, 277, 0x684c87814, 0x84c87814);
    ByRoot(59, 281, 0x68cc70208, 0x8cc70208);
    ByRoot(60, 283, 0x690befffa, 0x90befffa);
    ByRoot(61, 293, 0x6a4506ceb, 0xa4506ceb);
    ByRoot(62, 307, 0x6bef9a3f7, 0xbef9a3f7);
    ByRoot(63, 311, 0x6c67178f2, 0xc67178f2);
  }

  lemma ConstantsAreCubeRoots(t: nat)
    requires t < 64
    ensures FromCubeRoot(t)
  {
    hide FromCubeRoot;
    if t < 8 {
      FromRoots0(t);
    } else if t < 16 {
      FromRoots8(t);
    } else if t < 24 {
      FromRoots16(t);
    } else if t < 32 {
      FromRoots24(t);
    } else if t < 40 {
      FromRoots32(t);
    } else if t < 48 {
      FromRoots40(t);
    } else if t < 56 {
      FromRoots48(t);
    } else {
      FromRoots56(t);
    }
  }

  lemma InitialWords()
    ensures Initial(0) == 0x6a09e667 && Initial(1) == 0xbb67ae85 && Initial(2) == 0x3c6ef372 && Initial(3) == 0xa54ff53a
    ensures Initial(4) == 0x510e527f && Initial(5) == 0x9b05688c && Initial(6) == 0x1f83d9ab && Initial(7) == 0x5be0cd19
  {
  }

  lemma InitialRoots()
    ensures SquareRoot(2, 0x16a09e667) && SquareRoot(3, 0x1bb67ae85) && SquareRoot(5, 0x23c6ef372) && SquareRoot(7, 0x2a54ff53a)
    ensures SquareRoot(11, 0x3510e527f) && SquareRoot(13, 0x39b05688c) && SquareRoot(17, 0x41f83d9ab) && SquareRoot(19, 0x45be0cd19)
  {
  }

  /** Initial word t is the first 32 bits of the fraction of the square root of the t-th prime. */
  ghost predicate FromSquareRoot(t: nat) {
    t < 8 && exists r: nat :: SquareRoot(Prime(t), r) && r % 0x1_0000_0000 == Initial(t)
  }

  lemma BySquareRoot(t: nat, p: nat, r: nat, k: nat)
    requires t < 8 && Prime(t) == p && SquareRoot(p, r) && r % 0x1_0000_0000 == k == Initial(t)
    ensures FromSquareRoot(t)
  {
    hide SquareRoot, Initial, Prime;
  }

  lemma InitialAreSquareRoots(t: nat)
    requires t < 8
    ensures FromSquareRoot(t)
  {
    hide SquareRoot, FromSquareRoot, Initial, Prime;
    Row0();
    InitialWords();
    InitialRoots();
    BySquareRoot(0, 2, 0x16a09e667, 0x6a09e667);
    BySquareRoot(1, 3, 0x1bb67ae85, 0xbb67ae85);
    BySquareRoot(2, 5, 0x23c6ef372, 0x3c6ef372);
    BySquareRoot(3, 7, 0x2a54ff53a, 0xa54ff53a);
    BySquareRoot(4, 11, 0x3510e527f, 0x510e527f);
    BySquareRoot(5, 13, 0x39b05688c, 0x9b05688c);
    BySquareRoot(6, 17, 0x41f83d9ab, 0x1f83d9ab);
    BySquareRoot(7, 19, 0x45be0cd19, 0x5be0cd19);
  }
}
