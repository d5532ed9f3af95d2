/** The two object codecs: `encode_object`/`decode_object` of the wire and `write_object`/`read_object`
    of the snapshot file, as loops and cursors over bytes. */
module ObjectCodec {
  import opened Basics
  import opened Doubles
  import opened WarmthStates
  import opened WarmthObjects
  import opened Bytes
  import opened ObjectGrammar

  // ---- field groups both writers lay out alike ----

  method EncodeHeader(w: ByteWriter, o: WarmthObject)
    modifies w
    ensures forall tail :: w.buf + tail == old(w.buf) + PutHeader(HeaderOf(o), tail)
  {
    hide PutId, PutU8, PutText;
    w.Id(o.id);
    w.U8(o.category);
    w.Id(o.workload);
    w.Id(o.node);
    w.Str(o.device);
    w.Str(o.backend);
    w.Str(o.owner);
  }

  method EncodeOpt(w: ByteWriter, id: Option<Id128>)
    modifies w
    ensures forall tail :: w.buf + tail == old(w.buf) + PutOpt(id, tail)
  {
    hide PutId, PutU8;
    if id.Some? && id.value != 0 {
      w.U8(1);
      w.Id(id.value);
    } else {
      w.U8(0);
    }
  }

  method EncodeOwners(w: ByteWriter, o: WarmthObject)
    modifies w
    ensures forall tail :: w.buf + tail == old(w.buf) + PutOwners(OwnersOf(o), tail)
  {
    hide PutOpt;
    EncodeOpt(w, o.model);
    EncodeOpt(w, o.artifact);
    EncodeOpt(w, o.replica);
    EncodeOpt(w, o.engine);
  }

  method EncodeStatus(w: ByteWriter, o: WarmthObject)
    modifies w
    ensures forall tail :: w.buf + tail == old(w.buf) + PutStatus(StatusOf(o), tail)
  {
    hide PutU8, PutText, DimCode, StateCode;
    w.U8(StateCode(o.state));
    w.Str(o.stateReason);
    for i := 0 to 12
      invariant forall tail :: w.buf + PutDims(o.dims, i, tail) == old(w.buf) + PutStatus(StatusOf(o), tail)
    {
      w.U8(DimCode(o.dims[i]));
    }
  }

  method EncodeKind(w: ByteWriter, m: map<DependencyKind, Word64>, kind: nat)
    requires kind < 12
    modifies w
    ensures forall tail :: w.buf + PutKinds(m, kind + 1, tail) == old(w.buf) + PutKinds(m, kind, tail)
  {
    hide PutU8, PutU64;
    if kind in m {
      w.U8(kind);
      w.U64(m[kind]);
    }
  }

  lemma NoKinds(m: map<DependencyKind, Word64>, tail: seq<Byte>)
    ensures PutKinds(m, 12, tail) == tail
  {
  }

  method EncodeDeps(w: ByteWriter, m: map<DependencyKind, Word64>)
    modifies w
    ensures forall tail :: w.buf + tail == old(w.buf) + PutDeps(m, tail)
  {
    hide PutU32, PutKinds;
    w.U32(|m| % U32_LIMIT);
    for kind := 0 to 12
      invariant forall tail :: w.buf + PutKinds(m, kind, tail) == old(w.buf) + PutDeps(m, tail)
    {
      EncodeKind(w, m, kind);
    }
    forall tail ensures PutKinds(m, 12, tail) == tail {
      NoKinds(m, tail);
    }
  }

  method EncodeEnding(w: ByteWriter, o: WarmthObject)
    modifies w
    ensures forall tail :: w.buf + tail == old(w.buf) + PutEnding(EndingOf(o), tail)
  {
    hide PutU8, PutText, ProvenanceCode;
    if o.invalidation.Some? && o.invalidation.value != [] {
      w.U8(1);
      w.Str(o.invalidation.value);
    } else {
      w.U8(0);
    }
    w.U8(ProvenanceCode(o.provenance));
  }

  // ---- the wire writer ----

  method EncodeNumbers(w: ByteWriter, o: WarmthObject)
    modifies w
    ensures forall tail :: w.buf + tail == old(w.buf) + PutNumbers(NumbersOf(o), tail)
  {
    hide PutU8, PutU64, TimeWord, ResidencyCode;
    w.U64(TimeWord(o.lastPrepared));
    w.U64(TimeWord(o.lastUsed));
    w.U64(o.estimatedCost);
    w.U64(o.measuredCost);
    w.U64(o.estimatedTtr);
    w.U64(o.observedTtr);
    w.U8(ResidencyCode(o.residency));
    w.U8(o.lifecycle);
    w.U64(o.confidence);
    w.U64(o.freshness);
    w.U64(o.warmthGen);
  }

  /** `encode_object`: doubles of any pattern are copied. */
  method EncodeObject(w: ByteWriter, o: WarmthObject)
    modifies w
    ensures forall tail :: w.buf + tail == old(w.buf) + PutObject(o, tail)
  {
    hide PutHeader, PutOwners, PutStatus, PutNumbers, PutDeps, PutEnding;
    EncodeHeader(w, o);
    EncodeOwners(w, o);
    EncodeStatus(w, o);
    EncodeNumbers(w, o);
    EncodeDeps(w, o.depGens);
    EncodeEnding(w, o);
  }

  // ---- the snapshot writer ----

  /** `ByteWriter::f64`: a NaN or an infinity is refused. */
  method WriteFinite(w: ByteWriter, d: Word64) returns (ok: bool)
    modifies w
    ensures ok == Finite(d)
    ensures ok ==> forall tail :: w.buf + tail == old(w.buf) + PutU64(d, tail)
  {
    hide PutU64;
    if IsNaN(d) || IsInfinite(d) {
      return false;
    }
    w.U64(d);
    ok := true;
  }

  method WriteNumbers(w: ByteWriter, o: WarmthObject) returns (ok: bool)
    modifies w
    ensures ok == o.FiniteNumbers()
    ensures ok ==> forall tail :: w.buf + tail == old(w.buf) + PutNumbers(NumbersOf(o), tail)
  {
    hide PutU8, PutU64, TimeWord, ResidencyCode, Finite;
    w.U64(TimeWord(o.lastPrepared));
    w.U64(TimeWord(o.lastUsed));
    w.U64(o.estimatedCost);
    w.U64(o.measuredCost);
    ok := WriteFinite(w, o.estimatedTtr);
    if !ok {
      return;
    }
    ok := WriteFinite(w, o.observedTtr);
    if !ok {
      return;
    }
    w.U8(ResidencyCode(o.residency));
    w.U8(o.lifecycle);
    ok := WriteFinite(w, o.confidence);
    if !ok {
      return;
    }
    ok := WriteFinite(w, o.freshness);
    if !ok {
      return;
    }
    w.U64(o.warmthGen);
  }

  /** `write_object`: the same bytes as the wire writer, for every object whose doubles are finite. */
  method WriteObject(w: ByteWriter, o: WarmthObject) returns (ok: bool)
    modifies w
    ensures ok == o.FiniteNumbers()
    ensures ok ==> forall tail :: w.buf + tail == old(w.buf) + PutObject(o, tail)
  {
    hide PutHeader, PutOwners, PutStatus, PutNumbers, PutDeps, PutEnding, Finite;
    EncodeHeader(w, o);
    EncodeOwners(w, o);
    EncodeStatus(w, o);
    ok := WriteNumbers(w, o);
    if !ok {
      return;
    }
    EncodeDeps(w, o.depGens);
    EncodeEnding(w, o);
  }

  // ---- field groups both readers take alike ----

  method DecodeOpt(r: ByteReader) returns (ok: bool, v: Option<Id128>)
    requires r.Valid()
    modifies r
    ensures r.Valid() && Agrees(ok, v, r.Rest(), GetOpt(old(r.Rest())))
  {
    hide GetId, GetU8;
    var present: Byte;
    v := None;
    ok, present := r.U8();
    if !ok || present == 0 {
      return;
    }
    if present != 1 {
      return false, None;
    }
    var id: Id128;
    ok, id := r.Id();
    v := Some(id);
  }

  method DecodeOwners(r: ByteReader) returns (ok: bool, w: Owners)
    requires r.Valid()
    modifies r
    ensures r.Valid() && Agrees(ok, w, r.Rest(), GetOwners(old(r.Rest())))
  {
    hide GetOpt;
    w := Owners(None, None, None, None);
    var id: Option<Id128>;
    ok, id := DecodeOpt(r);
    if !ok {
      return;
    }
    w := w.(model := id);
    ok, id := DecodeOpt(r);
    if !ok {
      return;
    }
    w := w.(artifact := id);
    ok, id := DecodeOpt(r);
    if !ok {
      return;
    }
    w := w.(replica := id);
    ok, id := DecodeOpt(r);
    w := w.(engine := id);
  }

  method DecodeDims(r: ByteReader) returns (ok: bool, dims: Dimensions)
    requires r.Valid()
    modifies r
    ensures r.Valid() && Agrees(ok, dims, r.Rest(), GetDims(old(r.Rest()), 12, []))
  {
    hide GetU8;
    dims := AllDims(COLD_DIM);
    for i := 0 to 12
      invariant r.Valid()
      invariant GetDims(r.Rest(), 12 - i, dims[..i]) == GetDims(old(r.Rest()), 12, [])
    {
      var b: Byte;
      ok, b := r.U8();
      if !ok || DimOf(b).None? {
        return false, dims;
      }
      assert dims[i := DimOf(b).value][..i + 1] == dims[..i] + [DimOf(b).value];
      dims := dims[i := DimOf(b).value];
    }
    assert dims[..12] == dims;
    ok := true;
  }

  method DecodeStatus(r: ByteReader) returns (ok: bool, st: Status)
    requires r.Valid()
    modifies r
    ensures r.Valid() && Agrees(ok, st, r.Rest(), GetStatus(old(r.Rest())))
  {
    hide GetU8, GetText, GetDims, StateOf;
    st := Status(COLD, [], AllDims(COLD_DIM));
    var code: Byte;
    ok, code := r.U8();
    if !ok || StateOf(code).None? {
      return false, st;
    }
    var reason: Text;
    ok, reason := r.Str();
    if !ok {
      return;
    }
    var dims: Dimensions;
    ok, dims := DecodeDims(r);
    st := Status(StateOf(code).value, reason, dims);
  }

  method DecodeDeps(r: ByteReader) returns (ok: bool, deps: map<DependencyKind, Word64>)
    requires r.Valid()
    modifies r
    ensures r.Valid() && Agrees(ok, deps, r.Rest(), GetDeps(old(r.Rest())))
  {
    hide GetU8, GetU32, GetU64, GetKinds;
    deps := map[];
    var n: Word32;
    ok, n := r.U32();
    if !ok || n > 64 {
      return false, deps;
    }
    ghost var start := r.Rest();
    for k := 0 to n
      invariant r.Valid()
      invariant GetKinds(r.Rest(), n - k, deps) == GetKinds(start, n, map[])
    {
      ok, deps := DecodeKind(r, deps, n - k);
      if !ok {
        return;
      }
    }
    KindsDone(r.Rest(), deps);
    ok := true;
  }

  lemma KindsDone(s: seq<Byte>, deps: map<DependencyKind, Word64>)
    ensures GetKinds(s, 0, deps) == Got(deps, s)
  {
  }

  /** One dependency pair; `left` pairs were still to come. */
  method DecodeKind(r: ByteReader, seen: map<DependencyKind, Word64>, ghost left: nat)
    returns (ok: bool, deps: map<DependencyKind, Word64>)
    requires r.Valid() && left > 0
    modifies r
    ensures r.Valid()
    ensures GetKinds(old(r.Rest()), left, seen) == if ok then GetKinds(r.Rest(), left - 1, deps) else Fail
  {
    hide GetU8, GetU64;
    deps := seen;
    var kind: Byte;
    ok, kind := r.U8();
    if !ok || kind > 11 || kind in seen {
      return false, deps;
    }
    var g: Word64;
    ok, g := r.U64();
    if ok {
      deps := deps[kind := g];
    }
  }

  method DecodeCosts(r: ByteReader) returns (ok: bool, c: Costs)
    requires r.Valid()
    modifies r
    ensures r.Valid() && Agrees(ok, c, r.Rest(), GetCosts(old(r.Rest())))
  {
    hide GetU64, WordTime;
    c := Costs(0, 0, 0, 0);
    var prepared, used, estimatedCost, measuredCost: Word64;
    ok, prepared := r.U64();
    if !ok {
      return;
    }
    ok, used := r.U64();
    if !ok {
      return;
    }
    ok, estimatedCost := r.U64();
    if !ok {
      return;
    }
    ok, measuredCost := r.U64();
    if ok {
      c := Costs(WordTime(prepared), WordTime(used), estimatedCost, measuredCost);
    }
  }

  method DecodeEnding(r: ByteReader) returns (ok: bool, e: Ending)
    requires r.Valid()
    modifies r
    ensures r.Valid() && Agrees(ok, e, r.Rest(), GetEnding(old(r.Rest())))
  {
    hide GetU8, GetText, ProvenanceOf;
    e := Ending(None, LOCAL);
    var flag: Byte;
    ok, flag := r.U8();
    if !ok {
      return;
    }
    if flag == 1 {
      var reason: Text;
      ok, reason := r.Str();
      if !ok {
        return;
      }
      e := e.(invalidation := Some(reason));
    } else if flag != 0 {
      return false, e;
    }
    var code: Byte;
    ok, code := r.U8();
    if !ok || ProvenanceOf(code).None? {
      return false, e;
    }
    e := e.(provenance := ProvenanceOf(code).value);
  }

  // ---- the wire reader ----

  method DecodeHeader(r: ByteReader) returns (ok: bool, h: Header)
    requires r.Valid()
    modifies r
    ensures r.Valid() && Agrees(ok, h, r.Rest(), WireHeader(old(r.Rest())))
  {
    hide GetId, GetU8, GetText;
    h := Header(0, 0, 0, 0, [], [], []);
    var id, workload, node: Id128;
    var category: Byte;
    var device, backend, owner: Text;
    ok, id := r.Id();
    if !ok {
      return;
    }
    ok, category := r.U8();
    if !ok {
      return;
    }
    ok, workload := r.Id();
    if !ok {
      return;
    }
    ok, node := r.Id();
    if !ok || category > 11 {
      return false, h;
    }
    ok, device := r.Str();
    if !ok {
      return;
    }
    ok, backend := r.Str();
    if !ok {
      return;
    }
    ok, owner := r.Str();
    h := Header(id, category, workload, node, device, backend, owner);
  }

  method DecodeNumbers(r: ByteReader) returns (ok: bool, n: Numbers)
    requires r.Valid()
    modifies r
    ensures r.Valid() && Agrees(ok, n, r.Rest(), WireNumbers(old(r.Rest())))
  {
    hide GetCosts, GetU64, GetU8, ResidencyOf;
    n := Numbers(0, 0, 0, 0, 0, 0, NONE, 0, 0, 0, 0);
    var c: Costs;
    var estimatedTtr, observedTtr: Word64;
    var confidence, freshness, warmthGen: Word64;
    var residency, lifecycle: Byte;
    ok, c := DecodeCosts(r);
    if !ok {
      return;
    }
    ok, estimatedTtr := r.U64();
    if !ok {
      return;
    }
    ok, observedTtr := r.U64();
    if !ok {
      return;
    }
    ok, residency := r.U8();
    if !ok || ResidencyOf(residency).None? {
      return false, n;
    }
    ok, lifecycle := r.U8();
    if !ok || lifecycle > 6 {
      return false, n;
    }
    ok, confidence := r.U64();
    if !ok {
      return;
    }
    ok, freshness := r.U64();
    if !ok {
      return;
    }
    ok, warmthGen := r.U64();
    if ok {
      n := Numbers(c.prepared, c.used, c.estimatedCost, c.measuredCost, estimatedTtr, observedTtr,
                   ResidencyOf(residency).value, lifecycle, confidence, freshness, warmthGen);
    }
  }

  /** `decode_object`. */
  method DecodeObject(r: ByteReader) returns (ok: bool, o: WarmthObject)
    requires r.Valid()
    modifies r
    ensures r.Valid() && Agrees(ok, o, r.Rest(), WireObject(old(r.Rest())))
  {
    hide WireHeader, GetOwners, GetStatus, WireNumbers, GetDeps, GetEnding, ClampUnit;
    o := NewObject(0, 0, 0, 0, [], []);
    var h: Header;
    var w: Owners;
    var st: Status;
    var n: Numbers;
    var deps: map<DependencyKind, Word64>;
    var e: Ending;
    ok, h := DecodeHeader(r);
    if !ok {
      return;
    }
    ok, w := DecodeOwners(r);
    if !ok {
      return;
    }
    ok, st := DecodeStatus(r);
    if !ok {
      return;
    }
    ok, n := DecodeNumbers(r);
    if !ok {
      return;
    }
    ok, deps := DecodeDeps(r);
    if !ok {
      return;
    }
    ok, e := DecodeEnding(r);
    o := Assemble(h, w, st, n, deps, e).Clamp();
  }

  // ---- the snapshot reader ----

  /** `ByteReader::f64`. */
  method ReadFinite(r: ByteReader) returns (ok: bool, d: Word64)
    requires r.Valid()
    modifies r
    ensures r.Valid() && Agrees(ok, d, r.Rest(), GetFinite(old(r.Rest())))
  {
    hide GetU64;
    ok, d := r.U64();
    ok := ok && !IsNaN(d) && !IsInfinite(d);
  }

  method ReadHeader(r: ByteReader) returns (ok: bool, h: Header)
    requires r.Valid()
    modifies r
    ensures r.Valid() && Agrees(ok, h, r.Rest(), PersistHeader(old(r.Rest())))
  {
    hide GetId, GetU8, GetText;
    h := Header(0, 0, 0, 0, [], [], []);
    var id, workload, node: Id128;
    var category: Byte;
    var device, backend, owner: Text;
    ok, id := r.Id();
    if !ok {
      return;
    }
    ok, category := r.U8();
    if !ok || category > 11 {
      return false, h;
    }
    ok, workload := r.Id();
    if !ok {
      return;
    }
    ok, node := r.Id();
    if !ok {
      return;
    }
    ok, device := r.Str();
    if !ok {
      return;
    }
    ok, backend := r.Str();
    if !ok {
      return;
    }
    ok, owner := r.Str();
    h := Header(id, category, workload, node, device, backend, owner);
  }

  method ReadNumbers(r: ByteReader) returns (ok: bool, n: Numbers)
    requires r.Valid()
    modifies r
    ensures r.Valid() && Agrees(ok, n, r.Rest(), PersistNumbers(old(r.Rest())))
  {
    hide GetCosts, GetU64, GetU8, GetFinite, ResidencyOf, ClampUnit;
    n := Numbers(0, 0, 0, 0, 0, 0, NONE, 0, 0, 0, 0);
    var c: Costs;
    var estimatedTtr, observedTtr: Word64;
    var confidence, freshness, warmthGen: Word64;
    var residency, lifecycle: Byte;
    ok, c := DecodeCosts(r);
    if !ok {
      return;
    }
    ok, estimatedTtr := ReadFinite(r);
    if !ok {
      return;
    }
    ok, observedTtr := ReadFinite(r);
    if !ok {
      return;
    }
    ok, residency := r.U8();
    if !ok || ResidencyOf(residency).None? {
      return false, n;
    }
    ok, lifecycle := r.U8();
    if !ok || lifecycle > 6 {
      return false, n;
    }
    ok, confidence := ReadFinite(r);
    if !ok {
      return;
    }
    ok, freshness := ReadFinite(r);
    if !ok {
      return;
    }
    ok, warmthGen := r.U64();
    if ok {
      n := Numbers(c.prepared, c.used, c.estimatedCost, c.measuredCost, estimatedTtr, observedTtr,
                   ResidencyOf(residency).value, lifecycle, ClampUnit(confidence), ClampUnit(freshness), warmthGen);
    }
  }

  /** `read_object`: the generation relation is checked after everything has been parsed. */
  method ReadObject(r: ByteReader, limit: Word64) returns (ok: bool, o: WarmthObject)
    requires r.Valid()
    modifies r
    ensures r.Valid() && Agrees(ok, o, r.Rest(), PersistObject(old(r.Rest()), limit))
  {
    hide PersistHeader, GetOwners, GetStatus, PersistNumbers, GetDeps, GetEnding;
    o := NewObject(0, 0, 0, 0, [], []);
    var h: Header;
    var w: Owners;
    var st: Status;
    var n: Numbers;
    var deps: map<DependencyKind, Word64>;
    var e: Ending;
    ok, h := ReadHeader(r);
    if !ok {
      return;
    }
    ok, w := DecodeOwners(r);
    if !ok {
      return;
    }
    ok, st := DecodeStatus(r);
    if !ok {
      return;
    }
    ok, n := ReadNumbers(r);
    if !ok {
      return;
    }
    ok, deps := DecodeDeps(r);
    if !ok {
      return;
    }
    ok, e := DecodeEnding(r);
    if !ok || n.warmthGen > limit {
      return false, o;
    }
    o := Assemble(h, w, st, n, deps, e);
  }
}
