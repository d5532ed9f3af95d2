/** Streaming SHA-256 and the one-shot hash of FIPS 180-4 it must equal. */
module Sha256 {
  import opened Basics
  import opened Bytes

  type Words = seq<bv32>
  type State = s: seq<bv32> | |s| == 8 witness INITIAL
  type Block = b: seq<Byte> | |b| == 64 witness seq(64, i => 0)

  // section 5.3.3 of FIPS 180-4
  const INITIAL: seq<bv32> :=
    [0x6a09e667, 0xbb67ae85, 0x3c6ef372, 0xa54ff53a, 0x510e527f, 0x9b05688c, 0x1f83d9ab, 0x5be0cd19]

  // section 4.2.2 of FIPS 180-4, eight to a row
  const K_0: seq<bv32> := [0x428a2f98, 0x71374491, 0xb5c0fbcf, 0xe9b5dba5, 0x3956c25b, 0x59f111f1, 0x923f82a4, 0xab1c5ed5]
  const K_8: seq<bv32> := [0xd807aa98, 0x12835b01, 0x243185be, 0x550c7dc3, 0x72be5d74, 0x80deb1fe, 0x9bdc06a7, 0xc19bf174]
  const K_16: seq<bv32> := [0xe49b69c1, 0xefbe4786, 0x0fc19dc6, 0x240ca1cc, 0x2de92c6f, 0x4a7484aa, 0x5cb0a9dc, 0x76f988da]
  const K_24: seq<bv32> := [0x983e5152, 0xa831c66d, 0xb00327c8, 0xbf597fc7, 0xc6e00bf3, 0xd5a79147, 0x06ca6351, 0x14292967]
  const K_32: seq<bv32> := [0x27b70a85, 0x2e1b2138, 0x4d2c6dfc, 0x53380d13, 0x650a7354, 0x766a0abb, 0x81c2c92e, 0x92722c85]
  const K_40: seq<bv32> := [0xa2bfe8a1, 0xa81a664b, 0xc24b8b70, 0xc76c51a3, 0xd192e819, 0xd6990624, 0xf40e3585, 0x106aa070]
  const K_48: seq<bv32> := [0x19a4c116, 0x1e376c08, 0x2748774c, 0x34b0bcb5, 0x391c0cb3, 0x4ed8aa4a, 0x5b9cca4f, 0x682e6ff3]
  const K_56: seq<bv32> := [0x748f82ee, 0x78a5636f, 0x84c87814, 0x8cc70208, 0x90befffa, 0xa4506ceb, 0xbef9a3f7, 0xc67178f2]

  type Constants = s: seq<bv32> | |s| == 64 witness seq(64, i => 0)

  const K: Constants := ((K_0 + K_8) + (K_16 + K_24)) + ((K_32 + K_40) + (K_48 + K_56))

  // ---- the functions of section 4.1.2, with ROTR as a rotation ----

  /** Addition modulo 2^32. */
  function Plus(x: bv32, y: bv32): bv32 {
    x + y
  }

  function Ch(x: bv32, y: bv32, z: bv32): bv32 {
    (x & y) ^ (!x & z)
  }

  function Maj(x: bv32, y: bv32, z: bv32): bv32 {
    (x & y) ^ (x & z) ^ (y & z)
  }

  function BigSigma0(x: bv32): bv32 {
    x.RotateRight(2) ^ x.RotateRight(13) ^ x.RotateRight(22)
  }

  function BigSigma1(x: bv32): bv32 {
    x.RotateRight(6) ^ x.RotateRight(11) ^ x.RotateRight(25)
  }

  function SmallSigma0(x: bv32): bv32 {
    x.RotateRight(7) ^ x.RotateRight(18) ^ (x >> 3)
  }

  function SmallSigma1(x: bv32): bv32 {
    x.RotateRight(17) ^ x.RotateRight(19) ^ (x >> 10)
  }

  // ---- section 6.2.2 ----

  /** Four bytes, most significant first. */
  function Word(b: seq<Byte>, i: nat): bv32
    requires i + 4 <= |b|
  {
    ((b[i] as bv32) << 24) | ((b[i + 1] as bv32) << 16) | ((b[i + 2] as bv32) << 8) | (b[i + 3] as bv32)
  }

  /** The message schedule. */
  function W(block: Block, t: nat): bv32
    decreases t, |block|
  {
    if t < 16 then Word(block, 4 * t)
    else Plus(Plus(Plus(W(block, t - 16), SmallSigma0(W(block, t - 15))), W(block, t - 7)), SmallSigma1(W(block, t - 2)))
  }

  datatype Registers = Registers(a: bv32, b: bv32, c: bv32, d: bv32, e: bv32, f: bv32, g: bv32, h: bv32)

  function Load(s: State): Registers {
    Registers(s[0], s[1], s[2], s[3], s[4], s[5], s[6], s[7])
  }

  function Round(r: Registers, k: bv32, w: bv32): Registers {
    var t1 := Plus(Plus(Plus(Plus(r.h, BigSigma1(r.e)), Ch(r.e, r.f, r.g)), k), w);
    var t2 := Plus(BigSigma0(r.a), Maj(r.a, r.b, r.c));
    Registers(Plus(t1, t2), r.a, r.b, r.c, Plus(r.d, t1), r.e, r.f, r.g)
  }

  function Rounds(s: State, block: Block, t: nat): Registers
    requires t <= 64
    decreases t, |block|
  {
    if t == 0 then Load(s) else Round(Rounds(s, block, t - 1), K[t - 1], W(block, t - 1))
  }

  function Add(s: State, r: Registers): State {
    [Plus(s[0], r.a), Plus(s[1], r.b), Plus(s[2], r.c), Plus(s[3], r.d),
     Plus(s[4], r.e), Plus(s[5], r.f), Plus(s[6], r.g), Plus(s[7], r.h)]
  }

  function Compress(s: State, block: Block): State {
    Add(s, Rounds(s, block, 64))
  }

  /** The hash of a whole number of blocks. */
  function Absorb(s: State, data: seq<Byte>): State
    requires |data| % 64 == 0
    decreases |data|
  {
    if data == [] then s else Absorb(Compress(s, data[..64]), data[64..])
  }

  // ---- section 5.1.1 and the one-shot hash ----

  function Zeros(n: nat): (z: seq<Byte>)
    ensures |z| == n
  {
    seq(n, i => 0)
  }

  /** The number of zero bytes between the marker and the length. */
  function PadZeros(length: nat): nat {
    (119 - length % 64) % 64
  }

  lemma SameRest(n: nat, k: nat)
    ensures (n + k) % 64 == (n % 64 + k) % 64
  {
    SameRemainder(n % 64 + k, n / 64, 64);
  }

  /** It is the smallest number that leaves exactly room for the eight length bytes. */
  lemma PadZerosMinimal(length: nat, k: nat)
    ensures (length + 1 + PadZeros(length)) % 64 == 56
    ensures (length + 1 + k) % 64 == 56 ==> PadZeros(length) <= k
  {
    SameRest(length, 1 + PadZeros(length));
    SameRest(length, 1 + k);
  }

  lemma PadFills(length: nat)
    ensures (length + 9 + PadZeros(length)) % 64 == 0
  {
    SameRest(length, 9 + PadZeros(length));
  }

  function Pad(m: seq<Byte>): (p: seq<Byte>)
    ensures |p| == |m| + 9 + PadZeros(|m|)
  {
    m + [0x80] + Zeros(PadZeros(|m|)) + PutU64(8 * |m| % U64_LIMIT, [])
  }

  function WordBytes(w: bv32): (b: seq<Byte>)
    ensures |b| == 4
  {
    [((w >> 24) & 0xFF) as int, ((w >> 16) & 0xFF) as int, ((w >> 8) & 0xFF) as int, (w & 0xFF) as int]
  }

  function Output(s: State): (d: seq<Byte>)
    ensures |d| == 32
  {
    WordBytes(s[0]) + WordBytes(s[1]) + WordBytes(s[2]) + WordBytes(s[3]) +
    WordBytes(s[4]) + WordBytes(s[5]) + WordBytes(s[6]) + WordBytes(s[7])
  }

  /** The digest of a message. */
  function Digest(m: seq<Byte>): seq<Byte> {
    PadFills(|m|);
    Output(Absorb(INITIAL, Pad(m)))
  }

  // ---- the streaming context ----

  /** Blocks already compressed, and fewer than 64 bytes waiting. */
  datatype Context = Context(state: State, pending: seq<Byte>)

  function Feed(c: Context, data: seq<Byte>): (r: Context)
    ensures |r.pending| < 64
  {
    var all := c.pending + data;
    var n := |all| - |all| % 64;
    Context(Absorb(c.state, all[..n]), all[n..])
  }

  const EMPTY := Context(INITIAL, [])

  lemma {:induction false} AbsorbConcat(s: State, a: seq<Byte>, b: seq<Byte>)
    requires |a| % 64 == 0 && |b| % 64 == 0
    ensures |a + b| % 64 == 0 && Absorb(s, a + b) == Absorb(Absorb(s, a), b)
    decreases |a|
  {
    hide Compress;
    if a == [] {
      assert a + b == b;
    } else {
      assert (a + b)[..64] == a[..64] && (a + b)[64..] == a[64..] + b;
      AbsorbConcat(Compress(s, a[..64]), a[64..], b);
    }
  }

  /** Where the input is cut does not matter. */
  lemma FeedConcat(c: Context, a: seq<Byte>, b: seq<Byte>)
    ensures Feed(Feed(c, a), b) == Feed(c, a + b)
  {
    hide Absorb;
    var all := c.pending + a;
    var n := |all| - |all| % 64;
    var rest := all[n..] + b;
    var k := |rest| - |rest| % 64;
    var whole := c.pending + (a + b);
    WholeBlocks(|all|, |b|);
    assert whole == all + b;
    assert whole[..n + k] == all[..n] + rest[..k];
    assert whole[n + k..] == rest[k..];
    AbsorbConcat(c.state, all[..n], rest[..k]);
  }

  /** The whole blocks of x + y bytes are those of x bytes and those of what is left with y more. */
  lemma WholeBlocks(x: nat, y: nat)
    ensures var n := x - x % 64; var k := x - n + y - (x - n + y) % 64;
      n % 64 == 0 && k % 64 == 0 && n + k == x + y - (x + y) % 64
  {
    assert (x + y) % 64 == (x % 64 + y) % 64;
  }

  function FeedAll(c: Context, pieces: seq<seq<Byte>>): Context
    decreases |pieces|
  {
    if pieces == [] then c else FeedAll(Feed(c, pieces[0]), pieces[1..])
  }

  function Flatten(pieces: seq<seq<Byte>>): seq<Byte>
    decreases |pieces|
  {
    if pieces == [] then [] else pieces[0] + Flatten(pieces[1..])
  }

  lemma {:induction false} FeedAllIsFeed(c: Context, pieces: seq<seq<Byte>>)
    requires |c.pending| < 64
    ensures FeedAll(c, pieces) == Feed(c, Flatten(pieces))
    decreases |pieces|
  {
    hide Feed;
    if pieces == [] {
      FeedNothing(c);
    } else {
      FeedAllIsFeed(Feed(c, pieces[0]), pieces[1..]);
      FeedConcat(c, pieces[0], Flatten(pieces[1..]));
    }
  }

  lemma FeedNothing(c: Context)
    requires |c.pending| < 64
    ensures Feed(c, []) == c
  {
    hide Absorb;
    assert c.pending + [] == c.pending;
    assert c.pending[..0] == [] && c.pending[0..] == c.pending;
    AbsorbNothing(c.state);
  }

  lemma AbsorbNothing(s: State)
    ensures Absorb(s, []) == s
  {
    hide Compress;
  }

  /** `finish` on a context into which `total` bytes, counted modulo 2^64, have been fed. */
  function Close(c: Context, total: Word64): seq<Byte> {
    var marked := Feed(c, [0x80]);
    var padded := Feed(marked, Zeros(ZerosTo56(|marked.pending|)));
    Output(Feed(padded, PutU64(total * 8 % U64_LIMIT, [])).state)
  }

  /** How often the padding loop runs. */
  function ZerosTo56(pending: nat): nat
    requires pending < 64
  {
    if pending <= 56 then 56 - pending else 120 - pending
  }

  lemma BitLength(n: nat)
    ensures (n % U64_LIMIT) * 8 % U64_LIMIT == 8 * n % U64_LIMIT
  {
    var q := n / U64_LIMIT;
    assert 8 * n == (8 * q) * U64_LIMIT + (n % U64_LIMIT) * 8;
    SameRemainder((n % U64_LIMIT) * 8, 8 * q, U64_LIMIT);
  }

  lemma SameRemainder(r: nat, q: nat, d: nat)
    requires d > 0
    ensures (q * d + r) % d == r % d
  {
    assert r == r / d * d + r % d;
    assert q * d + r == (q + r / d) * d + r % d;
    Remainder(q * d + r, q + r / d, d, r % d);
  }

  lemma LoopPads(n: nat)
    ensures ZerosTo56((n + 1) % 64) == PadZeros(n)
  {
    var r := n % 64;
    assert (n + 1) % 64 == if r == 63 then 0 else r + 1;
  }

  lemma FedIsDigest(m: seq<Byte>)
    ensures Close(Feed(EMPTY, m), |m| % U64_LIMIT) == Digest(m)
  {
    hide Absorb, Output, PutU64, Feed, Zeros, PadZeros, ZerosTo56;
    var zeros := Zeros(PadZeros(|m|));
    BitLength(|m|);
    FeedConcat(EMPTY, m, [0x80]);
    PendingLength(m + [0x80]);
    LoopPads(|m|);
    FeedConcat(EMPTY, m + [0x80], zeros);
    FeedConcat(EMPTY, m + [0x80] + zeros, PutU64(8 * |m| % U64_LIMIT, []));
    PadFills(|m|);
    FeedWhole(Pad(m));
  }

  lemma PendingLength(m: seq<Byte>)
    ensures |Feed(EMPTY, m).pending| == |m| % 64
  {
    assert [] + m == m;
  }

  lemma FeedWhole(m: seq<Byte>)
    requires |m| % 64 == 0
    ensures Feed(EMPTY, m).state == Absorb(INITIAL, m)
  {
    hide Absorb, Feed;
    FeedBlocks(INITIAL, m);
  }

  lemma FeedBlocks(s: State, m: seq<Byte>)
    requires |m| % 64 == 0
    ensures Feed(Context(s, []), m) == Context(Absorb(s, m), [])
  {
    hide Absorb;
    assert [] + m == m;
    assert m[..|m|] == m && m[|m|..] == [];
  }

  /** However the input is cut into pieces, finishing gives the digest of their concatenation. */
  lemma StreamingIsOneShot(pieces: seq<seq<Byte>>)
    ensures Close(FeedAll(EMPTY, pieces), |Flatten(pieces)| % U64_LIMIT) == Digest(Flatten(pieces))
  {
    hide Feed, Close, Digest;
    FeedAllIsFeed(EMPTY, pieces);
    FedIsDigest(Flatten(pieces));
  }

  // ---- the class ----

  // Each rotation of the source is a pair of shifts.

  function ShiftBig0(x: bv32): bv32 {
    ((x >> 2) | (x << 30)) ^ ((x >> 13) | (x << 19)) ^ ((x >> 22) | (x << 10))
  }

  function ShiftBig1(x: bv32): bv32 {
    ((x >> 6) | (x << 26)) ^ ((x >> 11) | (x << 21)) ^ ((x >> 25) | (x << 7))
  }

  function ShiftSmall0(x: bv32): bv32 {
    ((x >> 7) | (x << 25)) ^ ((x >> 18) | (x << 14)) ^ (x >> 3)
  }

  function ShiftSmall1(x: bv32): bv32 {
    ((x >> 17) | (x << 15)) ^ ((x >> 19) | (x << 13)) ^ (x >> 10)
  }

  lemma ShiftsRotate(x: bv32)
    ensures ShiftBig0(x) == BigSigma0(x)
    ensures ShiftBig1(x) == BigSigma1(x)
    ensures ShiftSmall0(x) == SmallSigma0(x)
    ensures ShiftSmall1(x) == SmallSigma1(x)
  {
  }

  class Hasher {
    const state: array<bv32>
    const buf: array<Byte>
    var total: Word64
    var bufLen: nat

    ghost predicate Valid()
      reads this
    {
      state.Length == 8 && buf.Length == 64 && bufLen < 64
    }

    ghost function View(): Context
      reads this, state, buf
      requires Valid()
    {
      Context(state[..], buf[..bufLen])
    }

    constructor ()
      ensures Valid() && fresh(state) && fresh(buf) && View() == EMPTY && total == 0
    {
      state := new bv32[8](i requires 0 <= i < 8 => INITIAL[i]);
      buf := new Byte[64](i => 0);
      total, bufLen := 0, 0;
      new;
      assert state[..] == INITIAL;
    }

    /** The message schedule of the full buffer. */
    method Schedule() returns (w: array<bv32>)
      requires buf.Length == 64
      ensures fresh(w) && w.Length == 64 && forall t :: 0 <= t < 64 ==> w[t] == W(buf[..], t)
    {
      hide Word, SmallSigma0, SmallSigma1, ShiftSmall0, ShiftSmall1, Plus;
      w := new bv32[64];
      for i := 0 to 16
        invariant forall t :: 0 <= t < i ==> w[t] == W(buf[..], t)
      {
        w[i] := Word(buf[..], 4 * i);
      }
      for i := 16 to 64
        invariant forall t :: 0 <= t < i ==> w[t] == W(buf[..], t)
      {
        ShiftsRotate(w[i - 15]);
        ShiftsRotate(w[i - 2]);
        var s0 := ShiftSmall0(w[i - 15]);
        var s1 := ShiftSmall1(w[i - 2]);
        w[i] := Plus(Plus(Plus(w[i - 16], s0), w[i - 7]), s1);
      }
    }

    static method OneRound(r: Registers, k: bv32, w: bv32) returns (n: Registers)
      ensures n == Round(r, k, w)
    {
      hide BigSigma0, BigSigma1, ShiftBig0, ShiftBig1, Ch, Maj, Plus;
      ShiftsRotate(r.e);
      ShiftsRotate(r.a);
      var s1 := ShiftBig1(r.e);
      var ch := Ch(r.e, r.f, r.g);
      var t1 := Plus(Plus(Plus(Plus(r.h, s1), ch), k), w);
      var s0 := ShiftBig0(r.a);
      var maj := Maj(r.a, r.b, r.c);
      var t2 := Plus(s0, maj);
      n := Registers(Plus(t1, t2), r.a, r.b, r.c, Plus(r.d, t1), r.e, r.f, r.g);
    }

    /** `transform` of the full buffer. */
    method Transform()
      requires state.Length == 8 && buf.Length == 64
      modifies state
      ensures state[..] == Compress(old(state[..]), old(buf[..]))
    {
      hide Round, W;
      var w := Schedule();
      ghost var s0, block := state[..], buf[..];
      var r := Registers(state[0], state[1], state[2], state[3], state[4], state[5], state[6], state[7]);
      for i := 0 to 64
        invariant r == Rounds(s0, block, i)
        invariant state[..] == s0 && forall t :: 0 <= t < 64 ==> w[t] == W(block, t)
      {
        r := OneRound(r, K[i], w[i]);
      }
      AddRegisters(r);
    }

    method AddRegisters(r: Registers)
      requires state.Length == 8
      modifies state
      ensures state[..] == Add(old(state[..]), r)
    {
      hide Plus;
      ghost var was := state[..];
      var sum := [Plus(state[0], r.a), Plus(state[1], r.b), Plus(state[2], r.c), Plus(state[3], r.d),
                  Plus(state[4], r.e), Plus(state[5], r.f), Plus(state[6], r.g), Plus(state[7], r.h)];
      assert sum == Add(was, r);
      forall i | 0 <= i < 8 {
        state[i] := sum[i];
      }
      assert state[..] == sum;
    }

    /** `update`: the buffer is filled piece by piece and compressed whenever it is full. */
    method Update(data: seq<Byte>)
      requires Valid()
      modifies this, state, buf
      ensures Valid() && View() == Feed(old(View()), data)
      ensures total == (old(total) + |data|) % U64_LIMIT
    {
      hide Feed;
      total := (total + |data|) % U64_LIMIT;
      ghost var start := View();
      FeedNothing(start);
      assert data[..0] == [];
      var done := 0;
      while done < |data|
        invariant Valid() && done <= |data|
        invariant View() == Feed(start, data[..done])
        invariant total == (old(total) + |data|) % U64_LIMIT
      {
        var left := |data| - done;
        var n := if left < 64 - bufLen then left else 64 - bufLen;
        ghost var before := View();
        Fill(data[done..done + n]);
        FeedConcat(start, data[..done], data[done..done + n]);
        assert data[..done] + data[done..done + n] == data[..done + n];
        done := done + n;
      }
      assert data[..|data|] == data;
    }

    /** One turn of the loop of `update`. */
    method Fill(chunk: seq<Byte>)
      requires Valid() && 0 < |chunk| <= 64 - bufLen
      modifies this`bufLen, state, buf
      ensures Valid() && View() == Feed(old(View()), chunk)
    {
      hide Compress;
      ghost var before := View();
      forall k | 0 <= k < |chunk| {
        buf[bufLen + k] := chunk[k];
      }
      bufLen := bufLen + |chunk|;
      assert buf[..bufLen] == before.pending + chunk;
      assert state[..] == before.state;
      FeedChunk(before, chunk);
      if bufLen == 64 {
        assert buf[..] == buf[..64];
        Transform();
        bufLen := 0;
      }
    }

    static method LengthBytes(bitLen: Word64) returns (b: seq<Byte>)
      ensures b == PutU64(bitLen, []) && |b| == 8
    {
      hide PutU64;
      var w := new ByteWriter();
      w.U64(bitLen);
      assert w.buf == w.buf + [] == [] + PutU64(bitLen, []) == PutU64(bitLen, []);
      b := w.buf;
    }

    /** The padding loop of `finish`: it ends, with exactly eight bytes left in the block. */
    method PadTo56()
      requires Valid()
      modifies this, state, buf
      ensures Valid() && bufLen == 56
      ensures View() == Feed(old(View()), Zeros(ZerosTo56(old(bufLen))))
    {
      hide Feed, Zeros;
      ghost var marked := View();
      ghost var turns := 0;
      FeedNothing(marked);
      NoZeros();
      while bufLen != 56
        invariant Valid() && View() == Feed(marked, Zeros(turns))
        invariant turns + ZerosTo56(bufLen) == ZerosTo56(old(bufLen))
        decreases ZerosTo56(bufLen)
      {
        ghost var here := View();
        Update([0]);
        FeedConcat(marked, Zeros(turns), [0]);
        OneMoreZero(turns);
        FeedOne(here, 0);
        turns := turns + 1;
      }
    }

    /** `finish`: marker, zeros until eight bytes are left in the block, bit length. */
    method Finish() returns (digest: seq<Byte>)
      requires Valid()
      modifies this, state, buf
      ensures digest == Close(old(View()), old(total))
      ensures Valid() && bufLen == 0
    {
      hide Feed, Zeros, Output, PutU64;
      var bitLen := total * 8 % U64_LIMIT;
      Update([0x80]);
      PadTo56();
      ghost var padded := View();
      var length := LengthBytes(bitLen);
      Update(length);
      FeedEight(padded, length);
      digest := Output(state[..]);
    }
  }

  lemma FeedChunk(c: Context, chunk: seq<Byte>)
    requires |c.pending| + |chunk| <= 64
    ensures Feed(c, chunk) ==
      if |c.pending| + |chunk| < 64 then Context(c.state, c.pending + chunk)
      else Context(Compress(c.state, c.pending + chunk), [])
  {
    hide Compress;
    var all := c.pending + chunk;
    if |all| == 64 {
      assert all[..64] == all && all[64..] == [];
      assert Absorb(c.state, all) == Absorb(Compress(c.state, all[..64]), all[64..]);
    } else {
      assert all[..0] == [] && all[0..] == all;
    }
  }

  lemma NoZeros()
    ensures Zeros(0) == []
  {
  }

  lemma OneMoreZero(n: nat)
    ensures Zeros(n) + [0] == Zeros(n + 1)
  {
  }

  lemma FeedOne(c: Context, b: Byte)
    requires |c.pending| < 64
    ensures |Feed(c, [b]).pending| == (|c.pending| + 1) % 64
  {
    hide Absorb;
  }

  lemma FeedEight(c: Context, data: seq<Byte>)
    requires |c.pending| == 56 && |data| == 8
    ensures Feed(c, data).pending == []
  {
    hide Absorb;
  }

  /** The one-shot form: a fresh hasher, one update, finish. */
  method DigestOf(data: seq<Byte>) returns (digest: seq<Byte>)
    ensures digest == Digest(data)
  {
    hide Feed, Close, Digest;
    var h := new Hasher();
    h.Update(data);
    digest := h.Finish();
    FedIsDigest(data);
  }
}
