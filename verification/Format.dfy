/** The formats as tables of fields, and that each reader accepts exactly the byte strings its table lays out. */
module Formats {
  import opened Basics
  import opened WarmthStates
  import opened WarmthObjects
  import opened Bytes
  import opened ObjectGrammar

  /** A number of so many bytes, most significant first, or bytes as they are. */
  datatype Field = Num(width: nat, value: nat) | Raw(bytes: seq<Byte>)

  type Table = seq<Field>

  function Octets(v: nat, n: nat): (s: seq<Byte>)
    ensures |s| == n
  {
    seq(n, k requires 0 <= k < n => v / Pow256(n - 1 - k) % 256)
  }

  function FieldBytes(f: Field): seq<Byte> {
    match f
    case Num(width, value) => Octets(value, width)
    case Raw(bytes) => bytes
  }

  /** The fields one after the other, then `tail`. */
  function Lay(fs: Table, tail: seq<Byte>): seq<Byte>
    decreases |fs|
  {
    if fs == [] then tail else FieldBytes(fs[0]) + Lay(fs[1..], tail)
  }

  lemma {:induction false} LayAppend(a: Table, b: Table, tail: seq<Byte>)
    ensures Lay(a + b, tail) == Lay(a, Lay(b, tail))
    decreases |a|
  {
    if a == [] {
      assert a + b == b;
    } else {
      assert (a + b)[1..] == a[1..] + b;
      LayAppend(a[1..], b, tail);
    }
  }

  lemma LayOne(f: Field, tail: seq<Byte>)
    ensures Lay([f], tail) == FieldBytes(f) + tail
  {
    assert [f][1..] == [];
  }

  lemma LayTwo(f: Field, g: Field, tail: seq<Byte>)
    ensures Lay([f, g], tail) == FieldBytes(f) + (FieldBytes(g) + tail)
  {
    assert [f, g] == [f] + [g];
    LayAppend([f], [g], tail);
    LayOne(f, FieldBytes(g) + tail);
    LayOne(g, tail);
  }

  lemma {:induction false} PutIsOctets(v: nat, n: nat, tail: seq<Byte>)
    ensures Put(v, n, tail) == Octets(v, n) + tail
    decreases n
  {
    if n > 0 {
      PutIsOctets(v, n - 1, tail);
      assert Octets(v, n) == [v / Pow256(n - 1) % 256] + Octets(v, n - 1);
    }
  }

  // ---- the elementary fields ----

  lemma NumberExact(s: seq<Byte>, v: nat, n: nat, rest: seq<Byte>)
    requires v < Pow256(n)
    ensures Get(s, n, 0) == Got(v, rest) <==> s == Lay([Num(n, v)], rest)
  {
    hide Get, Put, Pow256;
    LayOne(Num(n, v), rest);
    PutIsOctets(v, n, rest);
    GetPut(v, n, 0, rest);
    if Get(s, n, 0) == Got(v, rest) {
      EnoughBytes(s, n);
      PutGet(s, n, 0);
    }
  }

  lemma EnoughBytes(s: seq<Byte>, n: nat)
    requires Get(s, n, 0).Got?
    ensures |s| >= n
  {
  }

  lemma U8Exact(s: seq<Byte>, v: Byte, rest: seq<Byte>)
    ensures GetU8(s) == Got(v, rest) <==> s == Lay([Num(1, v)], rest)
  {
    LayOne(Num(1, v), rest);
    assert Octets(v, 1) == [v];
    assert s == [v] + rest ==> s[1..] == rest;
  }

  lemma U32Exact(s: seq<Byte>, v: Word32, rest: seq<Byte>)
    ensures GetU32(s) == Got(v, rest) <==> s == Lay([Num(4, v)], rest)
  {
    hide Get, Lay, Pow256;
    Widths();
    NumberExact(s, v, 4, rest);
  }

  lemma U64Exact(s: seq<Byte>, v: Word64, rest: seq<Byte>)
    ensures GetU64(s) == Got(v, rest) <==> s == Lay([Num(8, v)], rest)
  {
    hide Get, Lay, Pow256;
    Widths();
    NumberExact(s, v, 8, rest);
  }

  lemma IdExact(s: seq<Byte>, v: Id128, rest: seq<Byte>)
    ensures GetId(s) == Got(v, rest) <==> s == Lay([Num(16, v)], rest)
  {
    hide Get, Lay, Pow256;
    Widths();
    NumberExact(s, v, 16, rest);
  }

  /** A string behind its length. */
  function Str(t: Text): Table {
    [Num(4, |t|), Raw(t)]
  }

  lemma TextExact(s: seq<Byte>, t: Text, rest: seq<Byte>)
    ensures GetText(s) == Got(t, rest) <==> |t| < U32_LIMIT && s == Lay(Str(t), rest)
  {
    hide GetU32, Lay, Octets;
    LayTwo(Num(4, |t|), Raw(t), rest);
    if |t| < U32_LIMIT {
      U32Exact(s, |t|, t + rest);
      LayOne(Num(4, |t|), t + rest);
      assert (t + rest)[..|t|] == t && (t + rest)[|t|..] == rest;
    }
    if GetText(s) == Got(t, rest) {
      var r := GetU32(s).rest;
      assert r == r[..|t|] + r[|t|..];
    }
  }

  // ---- enumerations are numbered in the order of their declaration ----

  const STATES: seq<WarmthState> :=
    [COLD, DISCOVERED, PREPARING, PARTIALLY_WARM, WARM, HOT, STALE, INVALIDATED, EVICTED, FAILED]
  const DIM_STATUSES: seq<DimensionStatus> := [COLD_DIM, DISCOVERED_DIM, PARTIAL_DIM, READY_DIM, VALID_DIM, SUSPECT_DIM]
  const RESIDENCIES: seq<Residency> := [NONE, STORAGE_ONLY, HOST_ONLY, DEVICE_RESIDENT, MIRRORED]
  const PROVENANCES: seq<Provenance> := [LOCAL, COORDINATOR, DERIVED, REPORTED, MEASURED]

  lemma StateCodes(s: WarmthState)
    ensures StateCode(s) < |STATES| && STATES[StateCode(s)] == s && StateOf(StateCode(s)) == Some(s)
  {
  }

  lemma DimCodes(d: DimensionStatus)
    ensures DimCode(d) < |DIM_STATUSES| && DIM_STATUSES[DimCode(d)] == d && DimOf(DimCode(d)) == Some(d)
  {
  }

  lemma ResidencyCodes(r: Residency)
    ensures ResidencyCode(r) < |RESIDENCIES| && RESIDENCIES[ResidencyCode(r)] == r && ResidencyOf(ResidencyCode(r)) == Some(r)
  {
  }

  lemma ProvenanceCodes(p: Provenance)
    ensures ProvenanceCode(p) < |PROVENANCES| && PROVENANCES[ProvenanceCode(p)] == p && ProvenanceOf(ProvenanceCode(p)) == Some(p)
  {
  }

  // ---- objects ----

  function HeaderTable(h: Header): Table {
    [Num(16, h.id), Num(1, h.category), Num(16, h.workload), Num(16, h.node)]
    + Str(h.device) + Str(h.backend) + Str(h.owner)
  }

  predicate SizedHeader(h: Header) {
    |h.device| < U32_LIMIT && |h.backend| < U32_LIMIT && |h.owner| < U32_LIMIT
  }

  lemma HeaderExact(s: seq<Byte>, h: Header, rest: seq<Byte>)
    ensures WireHeader(s) == Got(h, rest) <==> SizedHeader(h) && s == Lay(HeaderTable(h), rest)
  {
    hide GetId, GetU8, GetText, Lay, Str;
    var f7 := Str(h.owner);
    var f6 := Str(h.backend) + f7;
    var f5 := Str(h.device) + f6;
    var f4 := [Num(16, h.node)] + f5;
    var f3 := [Num(16, h.workload)] + f4;
    var f2 := [Num(1, h.category)] + f3;
    var f1 := [Num(16, h.id)] + f2;
    assert HeaderTable(h) == f1;
    var t7 := Lay(f7, rest);
    var t6 := Lay(f6, rest);
    var t5 := Lay(f5, rest);
    var t4 := Lay(f4, rest);
    var t3 := Lay(f3, rest);
    var t2 := Lay(f2, rest);
    LayAppend([Num(16, h.id)], f2, rest);
    LayAppend([Num(1, h.category)], f3, rest);
    LayAppend([Num(16, h.workload)], f4, rest);
    LayAppend([Num(16, h.node)], f5, rest);
    LayAppend(Str(h.device), f6, rest);
    LayAppend(Str(h.backend), f7, rest);
    if WireHeader(s) == Got(h, rest) {
      var s1 := GetId(s).rest;
      IdExact(s, h.id, s1);
      var s2 := GetU8(s1).rest;
      U8Exact(s1, h.category, s2);
      var s3 := GetId(s2).rest;
      IdExact(s2, h.workload, s3);
      var s4 := GetId(s3).rest;
      IdExact(s3, h.node, s4);
      var s5 := GetText(s4).rest;
      TextExact(s4, h.device, s5);
      var s6 := GetText(s5).rest;
      TextExact(s5, h.backend, s6);
      TextExact(s6, h.owner, rest);
    }
    if SizedHeader(h) && s == Lay(HeaderTable(h), rest) {
      IdExact(s, h.id, t2);
      U8Exact(t2, h.category, t3);
      IdExact(t3, h.workload, t4);
      IdExact(t4, h.node, t5);
      TextExact(t5, h.device, t6);
      TextExact(t6, h.backend, t7);
      TextExact(t7, h.owner, rest);
    }
  }

  /** An optional identity as its flag says. */
  function OptTable(v: Option<Id128>): Table {
    if v.Some? then [Num(1, 1), Num(16, v.value)] else [Num(1, 0)]
  }

  lemma OptExact(s: seq<Byte>, v: Option<Id128>, rest: seq<Byte>)
    ensures GetOpt(s) == Got(v, rest) <==> s == Lay(OptTable(v), rest)
  {
    hide GetU8, GetId, Lay;
    if v.Some? {
      assert OptTable(v) == [Num(1, 1)] + [Num(16, v.value)];
      LayAppend([Num(1, 1)], [Num(16, v.value)], rest);
      U8Exact(s, 1, Lay([Num(16, v.value)], rest));
      if GetU8(s).Got? {
        U8Exact(s, GetU8(s).value, GetU8(s).rest);
        IdExact(GetU8(s).rest, v.value, rest);
      }
      IdExact(Lay([Num(16, v.value)], rest), v.value, rest);
    } else {
      U8Exact(s, 0, rest);
    }
  }

  function OwnersTable(w: Owners): Table {
    OptTable(w.model) + OptTable(w.artifact) + OptTable(w.replica) + OptTable(w.engine)
  }

  lemma OwnersExact(s: seq<Byte>, w: Owners, rest: seq<Byte>)
    ensures GetOwners(s) == Got(w, rest) <==> s == Lay(OwnersTable(w), rest)
  {
    hide GetOpt, Lay, OptTable;
    var f4 := OptTable(w.engine);
    var f3 := OptTable(w.replica) + f4;
    var f2 := OptTable(w.artifact) + f3;
    var f1 := OptTable(w.model) + f2;
    assert OwnersTable(w) == f1;
    var t4 := Lay(f4, rest);
    var t3 := Lay(f3, rest);
    var t2 := Lay(f2, rest);
    LayAppend(OptTable(w.model), f2, rest);
    LayAppend(OptTable(w.artifact), f3, rest);
    LayAppend(OptTable(w.replica), f4, rest);
    if GetOwners(s) == Got(w, rest) {
      var s1 := GetOpt(s).rest;
      OptExact(s, w.model, s1);
      var s2 := GetOpt(s1).rest;
      OptExact(s1, w.artifact, s2);
      var s3 := GetOpt(s2).rest;
      OptExact(s2, w.replica, s3);
      OptExact(s3, w.engine, rest);
    }
    if s == Lay(OwnersTable(w), rest) {
      OptExact(s, w.model, t2);
      OptExact(t2, w.artifact, t3);
      OptExact(t3, w.replica, t4);
      OptExact(t4, w.engine, rest);
    }
  }

  function DimsTable(dims: seq<DimensionStatus>): (t: Table)
    ensures |t| == |dims|
  {
    seq(|dims|, i requires 0 <= i < |dims| => Num(1, DimCode(dims[i])))
  }

  lemma {:induction false} DimsRead(s: seq<Byte>, n: nat, done: seq<DimensionStatus>)
    requires GetDims(s, n, done).Got?
    ensures var r := GetDims(s, n, done);
            r.value[..|done|] == done && s == Lay(DimsTable(r.value[|done|..]), r.rest)
    decreases n
  {
    hide GetU8, Lay;
    if n > 0 {
      var b, s1 := GetU8(s).value, GetU8(s).rest;
      U8Exact(s, b, s1);
      var d := DimOf(b).value;
      var r := GetDims(s, n, done);
      DimsRead(s1, n - 1, done + [d]);
      var more := r.value[|done| + 1..];
      assert r.value[..|done| + 1] == done + [d];
      assert r.value[|done|] == d;
      assert r.value[|done|..] == [d] + more;
      assert DimsTable([d] + more) == [Num(1, DimCode(d))] + DimsTable(more);
      LayAppend([Num(1, DimCode(d))], DimsTable(more), r.rest);
      assert r.value[..|done|] == r.value[..|done| + 1][..|done|];
    } else {
      assert done[|done|..] == [] && DimsTable([]) == [];
      LayNone(s);
    }
  }

  lemma {:induction false} DimsLaid(dims: seq<DimensionStatus>, done: seq<DimensionStatus>, rest: seq<Byte>)
    ensures GetDims(Lay(DimsTable(dims), rest), |dims|, done) == Got(done + dims, rest)
    decreases |dims|
  {
    hide GetU8, Lay;
    if dims == [] {
      LayNone(rest);
      assert DimsTable(dims) == [] && done + dims == done;
    } else {
      var d, more := dims[0], dims[1..];
      assert DimsTable(dims) == [Num(1, DimCode(d))] + DimsTable(more);
      LayAppend([Num(1, DimCode(d))], DimsTable(more), rest);
      U8Exact(Lay(DimsTable(dims), rest), DimCode(d), Lay(DimsTable(more), rest));
      DimCodes(d);
      DimsLaid(more, done + [d], rest);
      assert done + dims == done + [d] + more;
    }
  }

  lemma LayNone(t: seq<Byte>)
    ensures Lay([], t) == t
  {
  }

  lemma DimsExact(s: seq<Byte>, dims: Dimensions, rest: seq<Byte>)
    ensures GetDims(s, 12, []) == Got(dims, rest) <==> s == Lay(DimsTable(dims), rest)
  {
    hide GetDims, Lay;
    if GetDims(s, 12, []) == Got(dims, rest) {
      DimsRead(s, 12, []);
      assert dims[0..] == dims;
    }
    DimsLaid(dims, [], rest);
    assert [] + dims == dims;
  }

  function StatusTable(s: Status): Table {
    [Num(1, StateCode(s.state))] + Str(s.reason) + DimsTable(s.dims)
  }

  lemma StatusExact(s: seq<Byte>, st: Status, rest: seq<Byte>)
    ensures GetStatus(s) == Got(st, rest) <==> |st.reason| < U32_LIMIT && s == Lay(StatusTable(st), rest)
  {
    hide GetU8, GetText, GetDims, Lay, Str, StateCode, StateOf;
    StateCodes(st.state);
    var f3 := DimsTable(st.dims);
    var f2 := Str(st.reason) + f3;
    var f1 := [Num(1, StateCode(st.state))] + f2;
    assert StatusTable(st) == f1;
    var t3 := Lay(f3, rest);
    var t2 := Lay(f2, rest);
    LayAppend([Num(1, StateCode(st.state))], f2, rest);
    LayAppend(Str(st.reason), f3, rest);
    if GetStatus(s) == Got(st, rest) {
      var s1 := GetU8(s).rest;
      U8Exact(s, StateCode(st.state), s1);
      var s2 := GetText(s1).rest;
      TextExact(s1, st.reason, s2);
      DimsExact(s2, st.dims, rest);
    }
    if |st.reason| < U32_LIMIT && s == Lay(StatusTable(st), rest) {
      U8Exact(s, StateCode(st.state), t2);
      TextExact(t2, st.reason, t3);
      DimsExact(t3, st.dims, rest);
    }
  }

  function NumbersTable(n: Numbers): Table {
    [Num(8, TimeWord(n.prepared)), Num(8, TimeWord(n.used)), Num(8, n.estimatedCost), Num(8, n.measuredCost),
     Num(8, n.estimatedTtr), Num(8, n.observedTtr), Num(1, ResidencyCode(n.residency)), Num(1, n.lifecycle),
     Num(8, n.confidence), Num(8, n.freshness), Num(8, n.warmthGen)]
  }

  function CostsTable(c: Costs): Table {
    [Num(8, TimeWord(c.prepared)), Num(8, TimeWord(c.used)), Num(8, c.estimatedCost), Num(8, c.measuredCost)]
  }

  lemma TimeWords(v: Word64, t: Timestamp)
    ensures TimeWord(WordTime(v)) == v && WordTime(TimeWord(t)) == t
  {
  }

  lemma CostsExact(s: seq<Byte>, c: Costs, rest: seq<Byte>)
    ensures GetCosts(s) == Got(c, rest) <==> s == Lay(CostsTable(c), rest)
  {
    hide GetU64, Lay, TimeWord, WordTime;
    TimeWords(0, c.prepared);
    TimeWords(0, c.used);
    var f4 := [Num(8, c.measuredCost)];
    var f3 := [Num(8, c.estimatedCost)] + f4;
    var f2 := [Num(8, TimeWord(c.used))] + f3;
    var f1 := [Num(8, TimeWord(c.prepared))] + f2;
    assert CostsTable(c) == f1;
    var t4 := Lay(f4, rest);
    var t3 := Lay(f3, rest);
    var t2 := Lay(f2, rest);
    LayAppend([Num(8, TimeWord(c.prepared))], f2, rest);
    LayAppend([Num(8, TimeWord(c.used))], f3, rest);
    LayAppend([Num(8, c.estimatedCost)], f4, rest);
    if GetCosts(s) == Got(c, rest) {
      TimeWords(GetU64(s).value, 0);
      TimeWords(GetU64(GetU64(s).rest).value, 0);
      var s1 := GetU64(s).rest;
      U64Exact(s, TimeWord(c.prepared), s1);
      var s2 := GetU64(s1).rest;
      U64Exact(s1, TimeWord(c.used), s2);
      var s3 := GetU64(s2).rest;
      U64Exact(s2, c.estimatedCost, s3);
      U64Exact(s3, c.measuredCost, rest);
    }
    if s == Lay(CostsTable(c), rest) {
      U64Exact(s, TimeWord(c.prepared), t2);
      U64Exact(t2, TimeWord(c.used), t3);
      U64Exact(t3, c.estimatedCost, t4);
      U64Exact(t4, c.measuredCost, rest);
    }
  }

  function CostsOf(n: Numbers): Costs {
    Costs(n.prepared, n.used, n.estimatedCost, n.measuredCost)
  }

  lemma NumbersExact(s: seq<Byte>, n: Numbers, rest: seq<Byte>)
    ensures WireNumbers(s) == Got(n, rest) <==> s == Lay(NumbersTable(n), rest)
  {
    hide GetCosts, GetU64, GetU8, Lay, TimeWord, ResidencyCode, ResidencyOf;
    ResidencyCodes(n.residency);
    var f8 := [Num(8, n.warmthGen)];
    var f7 := [Num(8, n.freshness)] + f8;
    var f6 := [Num(8, n.confidence)] + f7;
    var f5 := [Num(1, n.lifecycle)] + f6;
    var f4 := [Num(1, ResidencyCode(n.residency))] + f5;
    var f3 := [Num(8, n.observedTtr)] + f4;
    var f2 := [Num(8, n.estimatedTtr)] + f3;
    var f1 := CostsTable(CostsOf(n)) + f2;
    assert NumbersTable(n) == f1;
    var t8 := Lay(f8, rest);
    var t7 := Lay(f7, rest);
    var t6 := Lay(f6, rest);
    var t5 := Lay(f5, rest);
    var t4 := Lay(f4, rest);
    var t3 := Lay(f3, rest);
    var t2 := Lay(f2, rest);
    LayAppend(CostsTable(CostsOf(n)), f2, rest);
    LayAppend([Num(8, n.estimatedTtr)], f3, rest);
    LayAppend([Num(8, n.observedTtr)], f4, rest);
    LayAppend([Num(1, ResidencyCode(n.residency))], f5, rest);
    LayAppend([Num(1, n.lifecycle)], f6, rest);
    LayAppend([Num(8, n.confidence)], f7, rest);
    LayAppend([Num(8, n.freshness)], f8, rest);
    if WireNumbers(s) == Got(n, rest) {
      var s1 := GetCosts(s).rest;
      CostsExact(s, CostsOf(n), s1);
      var s2 := GetU64(s1).rest;
      U64Exact(s1, n.estimatedTtr, s2);
      var s3 := GetU64(s2).rest;
      U64Exact(s2, n.observedTtr, s3);
      var s4 := GetU8(s3).rest;
      U8Exact(s3, ResidencyCode(n.residency), s4);
      var s5 := GetU8(s4).rest;
      U8Exact(s4, n.lifecycle, s5);
      var s6 := GetU64(s5).rest;
      U64Exact(s5, n.confidence, s6);
      var s7 := GetU64(s6).rest;
      U64Exact(s6, n.freshness, s7);
      U64Exact(s7, n.warmthGen, rest);
    }
    if s == Lay(NumbersTable(n), rest) {
      CostsExact(s, CostsOf(n), t2);
      U64Exact(t2, n.estimatedTtr, t3);
      U64Exact(t3, n.observedTtr, t4);
      U8Exact(t4, ResidencyCode(n.residency), t5);
      U8Exact(t5, n.lifecycle, t6);
      U64Exact(t6, n.confidence, t7);
      U64Exact(t7, n.freshness, t8);
      U64Exact(t8, n.warmthGen, rest);
    }
  }

  type Pairs = seq<(DependencyKind, Word64)>

  function PairsTable(ps: Pairs): Table
    decreases |ps|
  {
    if ps == [] then [] else [Num(1, ps[0].0), Num(8, ps[0].1)] + PairsTable(ps[1..])
  }

  function Extended(m: map<DependencyKind, Word64>, ps: Pairs): map<DependencyKind, Word64>
    decreases |ps|
  {
    if ps == [] then m else Extended(m[ps[0].0 := ps[0].1], ps[1..])
  }

  /** The pairs are those of the map, each kind once, in some order. */
  predicate Lists(ps: Pairs, m: map<DependencyKind, Word64>) {
    |ps| == |m| && Extended(map[], ps) == m
  }

  lemma {:induction false} ExtendedSize(m: map<DependencyKind, Word64>, ps: Pairs)
    ensures |Extended(m, ps)| <= |m| + |ps|
    decreases |ps|
  {
    if ps != [] {
      var m' := m[ps[0].0 := ps[0].1];
      ExtendedSize(m', ps[1..]);
      assert m'.Keys == m.Keys + {ps[0].0};
      assert |m'.Keys| <= |m.Keys| + 1;
    }
  }

  lemma OnePair(p: (DependencyKind, Word64), ps: Pairs, rest: seq<Byte>)
    ensures Lay(PairsTable([p] + ps), rest) == Lay([Num(1, p.0)], Lay([Num(8, p.1)], Lay(PairsTable(ps), rest)))
  {
    hide Lay;
    assert ([p] + ps)[1..] == ps;
    assert PairsTable([p] + ps) == [Num(1, p.0)] + ([Num(8, p.1)] + PairsTable(ps));
    LayAppend([Num(1, p.0)], [Num(8, p.1)] + PairsTable(ps), rest);
    LayAppend([Num(8, p.1)], PairsTable(ps), rest);
  }

  lemma {:induction false} KindsRead(s: seq<Byte>, n: nat, seen: map<DependencyKind, Word64>) returns (ps: Pairs)
    requires GetKinds(s, n, seen).Got?
    ensures var r := GetKinds(s, n, seen);
            |ps| == n && Extended(seen, ps) == r.value && s == Lay(PairsTable(ps), r.rest)
    decreases n
  {
    hide GetU8, GetU64, Lay;
    if n == 0 {
      ps := [];
      LayNone(s);
    } else {
      var k := GetU8(s).value;
      var s1 := GetU8(s).rest;
      var g, s2 := GetU64(s1).value, GetU64(s1).rest;
      U8Exact(s, k, s1);
      U64Exact(s1, g, s2);
      var more := KindsRead(s2, n - 1, seen[k := g]);
      ps := [(k, g)] + more;
      OnePair((k, g), more, GetKinds(s, n, seen).rest);
      assert ps[1..] == more;
    }
  }

  lemma {:induction false} KindsLaid(ps: Pairs, seen: map<DependencyKind, Word64>, rest: seq<Byte>)
    requires |Extended(seen, ps)| == |seen| + |ps|
    ensures GetKinds(Lay(PairsTable(ps), rest), |ps|, seen) == Got(Extended(seen, ps), rest)
    decreases |ps|
  {
    hide GetU8, GetU64, Lay;
    if ps == [] {
      LayNone(rest);
    } else {
      var p, more := ps[0], ps[1..];
      var seen' := seen[p.0 := p.1];
      assert ps == [p] + more;
      OnePair(p, more, rest);
      var t := Lay(PairsTable(more), rest);
      U8Exact(Lay(PairsTable(ps), rest), p.0, Lay([Num(8, p.1)], t));
      U64Exact(Lay([Num(8, p.1)], t), p.1, t);
      ExtendedSize(seen', more);
      assert seen'.Keys == seen.Keys + {p.0};
      assert p.0 in seen ==> seen'.Keys == seen.Keys && |seen'| == |seen.Keys|;
      assert |seen'.Keys| == |seen'|;
      KindsLaid(more, seen', rest);
    }
  }

  lemma DepsRead(s: seq<Byte>) returns (ps: Pairs)
    requires GetDeps(s).Got?
    ensures Lists(ps, GetDeps(s).value) && s == Lay([Num(4, |ps|)] + PairsTable(ps), GetDeps(s).rest)
  {
    hide GetU32, GetKinds, Lay;
    var n, s1 := GetU32(s).value, GetU32(s).rest;
    ps := KindsRead(s1, n, map[]);
    U32Exact(s, n, s1);
    LayAppend([Num(4, n)], PairsTable(ps), GetDeps(s).rest);
  }

  lemma DepsLaid(ps: Pairs, m: map<DependencyKind, Word64>, rest: seq<Byte>)
    requires Lists(ps, m)
    ensures GetDeps(Lay([Num(4, |ps|)] + PairsTable(ps), rest)) == Got(m, rest)
  {
    hide GetU32, GetKinds, Lay;
    AtMostTwelve(m, 0);
    CountAll(m, 0);
    KindsLaid(ps, map[], rest);
    LayAppend([Num(4, |ps|)], PairsTable(ps), rest);
    U32Exact(Lay([Num(4, |ps|)] + PairsTable(ps), rest), |ps|, Lay(PairsTable(ps), rest));
  }

  function ReasonTable(reason: Option<Text>): Table {
    if reason.Some? then [Num(1, 1)] + Str(reason.value) else [Num(1, 0)]
  }

  function EndingTable(e: Ending): Table {
    ReasonTable(e.invalidation) + [Num(1, ProvenanceCode(e.provenance))]
  }

  predicate SizedEnding(e: Ending) {
    e.invalidation.Some? ==> |e.invalidation.value| < U32_LIMIT
  }

  lemma ReasonEndingExact(s: seq<Byte>, e: Ending, rest: seq<Byte>)
    requires e.invalidation.Some?
    ensures GetEnding(s) == Got(e, rest) <==> SizedEnding(e) && s == Lay(EndingTable(e), rest)
  {
    hide GetU8, GetText, Lay, Str, ProvenanceOf, ProvenanceCode;
    ProvenanceCodes(e.provenance);
    var f3 := [Num(1, ProvenanceCode(e.provenance))];
    var f2 := Str(e.invalidation.value) + f3;
    assert EndingTable(e) == [Num(1, 1)] + f2;
    LayAppend([Num(1, 1)], f2, rest);
    LayAppend(Str(e.invalidation.value), f3, rest);
    var t2, t3 := Lay(f2, rest), Lay(f3, rest);
    if GetEnding(s) == Got(e, rest) {
      var s1 := GetU8(s).rest;
      var s2 := GetText(s1).rest;
      U8Exact(s, 1, s1);
      TextExact(s1, e.invalidation.value, s2);
      U8Exact(s2, ProvenanceCode(e.provenance), rest);
    }
    if SizedEnding(e) && s == Lay(EndingTable(e), rest) {
      U8Exact(s, 1, t2);
      TextExact(t2, e.invalidation.value, t3);
      U8Exact(t3, ProvenanceCode(e.provenance), rest);
    }
  }

  lemma PlainEndingExact(s: seq<Byte>, e: Ending, rest: seq<Byte>)
    requires e.invalidation.None?
    ensures GetEnding(s) == Got(e, rest) <==> s == Lay(EndingTable(e), rest)
  {
    hide GetU8, GetText, Lay, ProvenanceOf, ProvenanceCode;
    ProvenanceCodes(e.provenance);
    var f2 := [Num(1, ProvenanceCode(e.provenance))];
    LayAppend([Num(1, 0)], f2, rest);
    if GetEnding(s) == Got(e, rest) {
      U8Exact(s, 0, GetU8(s).rest);
      U8Exact(GetU8(s).rest, ProvenanceCode(e.provenance), rest);
    }
    if s == Lay(EndingTable(e), rest) {
      U8Exact(s, 0, Lay(f2, rest));
      U8Exact(Lay(f2, rest), ProvenanceCode(e.provenance), rest);
    }
  }

  lemma EndingExact(s: seq<Byte>, e: Ending, rest: seq<Byte>)
    ensures GetEnding(s) == Got(e, rest) <==> SizedEnding(e) && s == Lay(EndingTable(e), rest)
  {
    hide GetEnding, Lay, EndingTable;
    if e.invalidation.Some? {
      ReasonEndingExact(s, e, rest);
    } else {
      PlainEndingExact(s, e, rest);
    }
  }

  /** An object on the wire and on disk: its fields in order, its dependency pairs as listed. */
  function ObjectTable(o: WarmthObject, ps: Pairs): Table {
    [Num(16, o.id), Num(1, o.category), Num(16, o.workload), Num(16, o.node)]
    + Str(o.device) + Str(o.backend) + Str(o.owner)
    + OptTable(o.model) + OptTable(o.artifact) + OptTable(o.replica) + OptTable(o.engine)
    + [Num(1, StateCode(o.state))] + Str(o.stateReason) + DimsTable(o.dims)
    + [Num(8, TimeWord(o.lastPrepared)), Num(8, TimeWord(o.lastUsed)), Num(8, o.estimatedCost), Num(8, o.measuredCost),
       Num(8, o.estimatedTtr), Num(8, o.observedTtr), Num(1, ResidencyCode(o.residency)), Num(1, o.lifecycle),
       Num(8, o.confidence), Num(8, o.freshness), Num(8, o.warmthGen)]
    + [Num(4, |ps|)] + PairsTable(ps)
    + ReasonTable(o.invalidation) + [Num(1, ProvenanceCode(o.provenance))]
  }

  /** The same by the groups the readers take. */
  function GroupedTable(o: WarmthObject, ps: Pairs): Table {
    HeaderTable(HeaderOf(o)) + (OwnersTable(OwnersOf(o)) + (StatusTable(StatusOf(o)) + (NumbersTable(NumbersOf(o))
      + (([Num(4, |ps|)] + PairsTable(ps)) + EndingTable(EndingOf(o))))))
  }

  lemma TableByGroups(o: WarmthObject, ps: Pairs)
    ensures ObjectTable(o, ps) == GroupedTable(o, ps)
  {
    hide Str, OptTable, DimsTable, ReasonTable, PairsTable, StateCode, ResidencyCode, ProvenanceCode, TimeWord;
  }

  lemma AssembledFrom(o: WarmthObject)
    ensures Assemble(HeaderOf(o), OwnersOf(o), StatusOf(o), NumbersOf(o), o.depGens, EndingOf(o)) == o
    ensures Sized(o) <==> SizedHeader(HeaderOf(o)) && |StatusOf(o).reason| < U32_LIMIT && SizedEnding(EndingOf(o))
  {
  }

  /** Soundness of the object reader: what it accepts is the table of the object it yields. */
  lemma ObjectRead(s: seq<Byte>) returns (ps: Pairs)
    requires WireFields(s).Got?
    ensures var r := WireFields(s); Sized(r.value) && Lists(ps, r.value.depGens) && s == Lay(ObjectTable(r.value, ps), r.rest)
  {
    hide WireHeader, GetOwners, GetStatus, WireNumbers, GetDeps, GetEnding, Lay, ObjectTable, Lists, Sized;
    hide HeaderTable, OwnersTable, StatusTable, NumbersTable, PairsTable, EndingTable;
    var o, rest := WireFields(s).value, WireFields(s).rest;
    var s1 := WireHeader(s).rest;
    var s2 := GetOwners(s1).rest;
    var s3 := GetStatus(s2).rest;
    var s4 := WireNumbers(s3).rest;
    var s5 := GetDeps(s4).rest;
    ps := DepsRead(s4);
    AssembledFrom(o);
    HeaderExact(s, HeaderOf(o), s1);
    OwnersExact(s1, OwnersOf(o), s2);
    StatusExact(s2, StatusOf(o), s3);
    NumbersExact(s3, NumbersOf(o), s4);
    EndingExact(s5, EndingOf(o), rest);
    GroupsLaid(o, ps, rest);
    TableByGroups(o, ps);
  }

  lemma GroupsLaid(o: WarmthObject, ps: Pairs, rest: seq<Byte>)
    ensures Lay(GroupedTable(o, ps), rest) ==
      Lay(HeaderTable(HeaderOf(o)), Lay(OwnersTable(OwnersOf(o)), Lay(StatusTable(StatusOf(o)),
        Lay(NumbersTable(NumbersOf(o)), Lay([Num(4, |ps|)] + PairsTable(ps), Lay(EndingTable(EndingOf(o)), rest))))))
  {
    hide Lay, HeaderTable, OwnersTable, StatusTable, NumbersTable, PairsTable, EndingTable;
    var f6 := EndingTable(EndingOf(o));
    var d := [Num(4, |ps|)] + PairsTable(ps);
    var f5 := d + f6;
    var f4 := NumbersTable(NumbersOf(o)) + f5;
    var f3 := StatusTable(StatusOf(o)) + f4;
    var f2 := OwnersTable(OwnersOf(o)) + f3;
    LayAppend(HeaderTable(HeaderOf(o)), f2, rest);
    LayAppend(OwnersTable(OwnersOf(o)), f3, rest);
    LayAppend(StatusTable(StatusOf(o)), f4, rest);
    LayAppend(NumbersTable(NumbersOf(o)), f5, rest);
    LayAppend(d, f6, rest);
  }

  /** Completeness: every table is accepted, with the pairs in any order and any flag, and yields its object. */
  lemma ObjectLaid(o: WarmthObject, ps: Pairs, rest: seq<Byte>)
    requires Sized(o) && Lists(ps, o.depGens)
    ensures WireFields(Lay(ObjectTable(o, ps), rest)) == Got(o, rest)
  {
    hide WireHeader, GetOwners, GetStatus, WireNumbers, GetDeps, GetEnding, Lay, ObjectTable, Lists, Sized;
    hide HeaderTable, OwnersTable, StatusTable, NumbersTable, PairsTable, EndingTable;
    TableByGroups(o, ps);
    GroupsLaid(o, ps, rest);
    AssembledFrom(o);
    var t6 := Lay(EndingTable(EndingOf(o)), rest);
    var t5 := Lay([Num(4, |ps|)] + PairsTable(ps), t6);
    var t4 := Lay(NumbersTable(NumbersOf(o)), t5);
    var t3 := Lay(StatusTable(StatusOf(o)), t4);
    var t2 := Lay(OwnersTable(OwnersOf(o)), t3);
    HeaderExact(Lay(HeaderTable(HeaderOf(o)), t2), HeaderOf(o), t2);
    OwnersExact(t2, OwnersOf(o), t3);
    StatusExact(t3, StatusOf(o), t4);
    NumbersExact(t4, NumbersOf(o), t5);
    DepsLaid(ps, o.depGens, t6);
    EndingExact(t6, EndingOf(o), rest);
  }

  /** The object reader, exactly: for every byte string, it yields this object and this rest iff the bytes are the
      object's table, its dependency pairs in some order, followed by the rest. */
  lemma ObjectExact(s: seq<Byte>, o: WarmthObject, rest: seq<Byte>)
    ensures WireFields(s) == Got(o, rest) <==>
              Sized(o) && exists ps :: Lists(ps, o.depGens) && s == Lay(ObjectTable(o, ps), rest)
  {
    hide WireFields, Lay, ObjectTable, Lists, Sized;
    if WireFields(s) == Got(o, rest) {
      var ps := ObjectRead(s);
    }
    if Sized(o) {
      forall ps | Lists(ps, o.depGens) && s == Lay(ObjectTable(o, ps), rest) ensures WireFields(s) == Got(o, rest) {
        ObjectLaid(o, ps, rest);
      }
    }
  }

  // ---- what the object writers lay out ----

  /** The writers put absent for the zero identity and for an empty reason. */
  function Written(o: WarmthObject): WarmthObject {
    o.(model := if o.model == Some(0) then None else o.model,
       artifact := if o.artifact == Some(0) then None else o.artifact,
       replica := if o.replica == Some(0) then None else o.replica,
       engine := if o.engine == Some(0) then None else o.engine,
       invalidation := if o.invalidation == Some([]) then None else o.invalidation)
  }

  /** The pairs of a map from kind k on, by ascending kind. */
  predicate AscendingFrom(ps: Pairs, k: nat) {
    && (forall i :: 0 <= i < |ps| ==> k <= ps[i].0)
    && (forall i, j :: 0 <= i < j < |ps| ==> ps[i].0 < ps[j].0)
  }

  lemma {:induction false} KindsWritten(m: map<DependencyKind, Word64>, k: nat, tail: seq<Byte>) returns (ps: Pairs)
    requires k <= 12
    ensures |ps| == CountKinds(m, k) && AscendingFrom(ps, k) && Extended(Below(m, k), ps) == m
    ensures PutKinds(m, k, tail) == Lay(PairsTable(ps), tail)
    decreases 12 - k
  {
    hide PutU8, PutU64, Lay;
    if k == 12 {
      ps := [];
      assert Below(m, 12) == m;
      LayNone(tail);
    } else {
      var more := KindsWritten(m, k + 1, tail);
      BelowNext(m, k);
      if k in m {
        ps := [(k, m[k])] + more;
        assert ps[1..] == more;
        OnePair((k, m[k]), more, tail);
        var t := Lay(PairsTable(more), tail);
        U64Exact(PutU64(m[k], t), m[k], t);
        U8Exact(PutKinds(m, k, tail), k, PutU64(m[k], t));
      } else {
        ps := more;
      }
    }
  }

  lemma DepsWritten(m: map<DependencyKind, Word64>, tail: seq<Byte>) returns (ps: Pairs)
    ensures Lists(ps, m) && AscendingFrom(ps, 0) && PutDeps(m, tail) == Lay([Num(4, |ps|)] + PairsTable(ps), tail)
  {
    hide PutDeps, PutKinds, CountKinds, Lay, PairsTable, AscendingFrom;
    ps := KindsWritten(m, 0, tail);
    assert Below(m, 0) == map[];
    CountAll(m, 0);
    AtMostTwelve(m, 0);
    CountWritten(m, |ps|, tail);
    LayAppend([Num(4, |ps|)], PairsTable(ps), tail);
  }

  lemma CountWritten(m: map<DependencyKind, Word64>, n: nat, tail: seq<Byte>)
    requires n == |m| <= 12
    ensures PutDeps(m, tail) == Lay([Num(4, n)], PutKinds(m, 0, tail))
  {
    hide PutU32, PutKinds, Lay;
    U32Exact(PutU32(n, PutKinds(m, 0, tail)), n, PutKinds(m, 0, tail));
  }

  /** The object writers: the table of the written form, the pairs by ascending kind. */
  lemma ObjectWritten(o: WarmthObject, tail: seq<Byte>) returns (ps: Pairs)
    requires Sized(o)
    ensures Lists(ps, o.depGens) && AscendingFrom(ps, 0)
    ensures PutObject(o, tail) == Lay(ObjectTable(Written(o), ps), tail)
  {
    hide PutHeader, PutOwners, PutStatus, PutNumbers, PutDeps, PutEnding, Lay, ObjectTable, Lists;
    hide WireHeader, GetOwners, GetStatus, WireNumbers, GetEnding;
    hide HeaderTable, OwnersTable, StatusTable, NumbersTable, PairsTable, EndingTable;
    var w := Written(o);
    var t5 := PutEnding(EndingOf(o), tail);
    ps := DepsWritten(o.depGens, t5);
    var t4 := PutDeps(o.depGens, t5);
    var t3 := PutNumbers(NumbersOf(o), t4);
    var t2 := PutStatus(StatusOf(o), t3);
    var t1 := PutOwners(OwnersOf(o), t2);
    GroupsWritten(o, t1, t2, t3, t4, tail);
    GroupsLaid(w, ps, tail);
    TableByGroups(w, ps);
  }

  lemma GroupsWritten(o: WarmthObject, t1: seq<Byte>, t2: seq<Byte>, t3: seq<Byte>, t4: seq<Byte>, tail: seq<Byte>)
    requires Sized(o)
    ensures PutHeader(HeaderOf(o), t1) == Lay(HeaderTable(HeaderOf(Written(o))), t1)
    ensures PutOwners(OwnersOf(o), t2) == Lay(OwnersTable(OwnersOf(Written(o))), t2)
    ensures PutStatus(StatusOf(o), t3) == Lay(StatusTable(StatusOf(Written(o))), t3)
    ensures PutNumbers(NumbersOf(o), t4) == Lay(NumbersTable(NumbersOf(Written(o))), t4)
    ensures PutEnding(EndingOf(o), tail) == Lay(EndingTable(EndingOf(Written(o))), tail)
  {
    hide PutHeader, PutOwners, PutStatus, PutNumbers, PutEnding, Lay;
    hide WireHeader, GetOwners, GetStatus, WireNumbers, GetEnding;
    hide HeaderTable, OwnersTable, StatusTable, NumbersTable, EndingTable;
    HeaderBack(HeaderOf(o), t1);
    HeaderExact(PutHeader(HeaderOf(o), t1), HeaderOf(o), t1);
    OwnersBack(OwnersOf(o), t2);
    OwnersExact(PutOwners(OwnersOf(o), t2), OwnersOf(Written(o)), t2);
    StatusBack(StatusOf(o), t3);
    StatusExact(PutStatus(StatusOf(o), t3), StatusOf(o), t3);
    NumbersBack(NumbersOf(o), t4);
    NumbersExact(PutNumbers(NumbersOf(o), t4), NumbersOf(o), t4);
    EndingBack(EndingOf(o), tail);
    EndingExact(PutEnding(EndingOf(o), tail), EndingOf(Written(o)), tail);
  }

  // ---- several objects ----

  /** An object with the order of its dependency pairs, as one place of a byte string holds it. */
  datatype Entry = Entry(o: WarmthObject, ps: Pairs)

  type Entries = seq<Entry>

  predicate Proper(e: Entry) {
    Sized(e.o) && Lists(e.ps, e.o.depGens)
  }

  predicate AllProper(es: Entries) {
    forall i :: 0 <= i < |es| ==> Proper(es[i])
  }

  function EntriesTable(es: Entries): Table
    decreases |es|
  {
    if es == [] then [] else ObjectTable(es[0].o, es[0].ps) + EntriesTable(es[1..])
  }

  lemma OneEntry(e: Entry, es: Entries, rest: seq<Byte>)
    ensures Lay(EntriesTable([e] + es), rest) == Lay(ObjectTable(e.o, e.ps), Lay(EntriesTable(es), rest))
  {
    hide Lay, ObjectTable;
    assert ([e] + es)[1..] == es;
    LayAppend(ObjectTable(e.o, e.ps), EntriesTable(es), rest);
  }

  /** The objects of the entries, clamped as the setters do. */
  function Clamped(es: Entries): (os: seq<WarmthObject>)
    ensures |os| == |es|
    ensures forall i :: 0 <= i < |es| ==> os[i] == es[i].o.Clamp()
  {
    seq(|es|, i requires 0 <= i < |es| => es[i].o.Clamp())
  }
}
