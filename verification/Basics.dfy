/** Machine words, identities and the option type shared by every component. */
module Basics {

  datatype Option<+T> = None | Some(value: T)

  const U32_LIMIT: int := 0x1_0000_0000
  const U64_LIMIT: int := 0x1_0000_0000_0000_0000

  type Byte = x: nat | x < 0x100
  type Word32 = x: nat | x < 0x1_0000_0000
  type Word64 = x: nat | x < 0x1_0000_0000_0000_0000

  /** A signed 64-bit wall-clock time in milliseconds. */
  type Timestamp = x: int | -0x8000_0000_0000_0000 <= x < 0x8000_0000_0000_0000

  /** A 128-bit identity.  The source orders (high, low) lexicographically, which is the order of the
      integer high * 2^64 + low; the zero identity is the invalid one. */
  type Id128 = x: nat | x < 0x1_0000_0000_0000_0000_0000_0000_0000_0000

  /** A string of the source: raw bytes. */
  type Text = seq<Byte>

  /** The bytes of a literal. */
  function Ascii(s: string): Text {
    seq(|s|, i requires 0 <= i < |s| => s[i] as int % 0x100)
  }

  /** `BasicGeneration::next`: saturates at the largest value. */
  function NextGeneration(g: Word64): Word64 {
    if g == U64_LIMIT - 1 then g else g + 1
  }

  /** The smallest member, the one an ordered container visits first. */
  ghost function Least(s: set<nat>): (m: nat)
    requires s != {}
    ensures m in s && forall x :: x in s ==> m <= x
  {
    LeastExists(s);
    var m :| IsLeast(m, s);
    m
  }

  lemma LeastExists(s: set<nat>)
    requires s != {}
    ensures exists m :: IsLeast(m, s)
  {
    var a :| a in s;
    LeastBelow(s, a);
  }

  predicate IsLeast(m: nat, s: set<nat>) {
    m in s && forall x :: x in s ==> m <= x
  }

  lemma LeastOfRest(s: set<nat>, a: nat, b: nat, m: nat)
    requires b in s && b < a && IsLeast(m, s - {a})
    ensures IsLeast(m, s)
  {
    assert b in s - {a};
    forall x | x in s ensures m <= x {
      assert x == a || x in s - {a};
    }
  }

  lemma {:induction false} LeastBelow(s: set<nat>, a: nat)
    requires a in s
    ensures exists m :: IsLeast(m, s)
    decreases |s|
  {
    if b :| b in s && b < a {
      hide IsLeast;
      LeastBelow(s - {a}, b);
      var m :| IsLeast(m, s - {a});
      LeastOfRest(s, a, b, m);
    } else {
      assert IsLeast(a, s);
    }
  }

  lemma KeysNonempty<V>(m: map<nat, V>)
    requires m != map[]
    ensures m.Keys != {}
  {
    assert m.Keys == {} ==> m == map[];
  }

  /** The key an ordered map visits first. */
  method FirstKey<V>(m: map<nat, V>) returns (k: nat)
    requires m != map[]
    ensures k in m && k == Least(m.Keys)
  {
    KeysNonempty(m);
    LeastExists(m.Keys);
    k :| IsLeast(k, m.Keys);
  }
}
