/** `encode_snapshot` and `decode_snapshot` as the loops that write and read the file. */
module SnapshotCodec {
  import opened Basics
  import opened Doubles
  import opened WarmthObjects
  import opened Policies
  import opened Snapshots
  import opened Bytes
  import opened ObjectGrammar
  import opened SnapshotGrammar
  import C = ObjectCodec
  import Crc32

  // ---- writing ----

  predicate AllFiniteWords(ws: seq<Word64>) {
    forall i :: 0 <= i < |ws| ==> Finite(ws[i])
  }

  method WriteWords(w: ByteWriter, ws: seq<Word64>)
    modifies w
    ensures forall tail :: w.buf + tail == old(w.buf) + PutWords(ws, 0, tail)
  {
    hide PutU64;
    for i := 0 to |ws|
      invariant forall tail :: w.buf + PutWords(ws, i, tail) == old(w.buf) + PutWords(ws, 0, tail)
    {
      w.U64(ws[i]);
    }
  }

  method WriteFinites(w: ByteWriter, ws: seq<Word64>) returns (ok: bool)
    modifies w
    ensures ok == AllFiniteWords(ws)
    ensures ok ==> forall tail :: w.buf + tail == old(w.buf) + PutWords(ws, 0, tail)
  {
    hide PutU64, Finite;
    for i := 0 to |ws|
      invariant AllFiniteWords(ws[..i])
      invariant forall tail :: w.buf + PutWords(ws, i, tail) == old(w.buf) + PutWords(ws, 0, tail)
    {
      ok := C.WriteFinite(w, ws[i]);
      if !ok {
        return;
      }
    }
    assert ws[..|ws|] == ws;
    ok := true;
  }

  method WriteFlags(w: ByteWriter, fs: seq<bool>)
    modifies w
    ensures forall tail :: w.buf + tail == old(w.buf) + PutFlags(fs, 0, tail)
  {
    hide PutU8;
    for i := 0 to |fs|
      invariant forall tail :: w.buf + PutFlags(fs, i, tail) == old(w.buf) + PutFlags(fs, 0, tail)
    {
      w.U8(if fs[i] then 1 else 0);
    }
  }

  lemma PolicyFinite(p: Policy)
    ensures p.FiniteNumbers() == (AllFiniteWords(DecayWords(p.decay)) && AllFiniteWords(p.weights))
  {
    hide Finite;
    var d := DecayWords(p.decay);
    assert AllFiniteWords(d) == (Finite(d[0]) && Finite(d[1]) && Finite(d[2]) && Finite(d[3]) && Finite(d[4]));
  }

  method WritePolicy(w: ByteWriter, p: Policy) returns (ok: bool)
    modifies w
    ensures ok == p.FiniteNumbers()
    ensures ok ==> forall tail :: w.buf + tail == old(w.buf) + PutPolicy(p, tail)
  {
    hide PutU64, PutWords, PutFlags, AllFiniteWords, Finite;
    PolicyFinite(p);
    w.U64(p.generation);
    ok := WriteFinites(w, DecayWords(p.decay));
    if !ok {
      return;
    }
    WriteFlags(w, DecayFlags(p.decay));
    WriteWords(w, p.budgets);
    ok := WriteFinites(w, p.weights);
  }

  method WriteObjects(w: ByteWriter, os: seq<WarmthObject>) returns (ok: bool)
    modifies w
    ensures ok == AllFinite(os)
    ensures ok ==> forall tail :: w.buf + tail == old(w.buf) + PutObjects(os, 0, tail)
  {
    hide PutObject, Finite;
    for i := 0 to |os|
      invariant AllFinite(os[..i])
      invariant forall tail :: w.buf + PutObjects(os, i, tail) == old(w.buf) + PutObjects(os, 0, tail)
    {
      ok := C.WriteObject(w, os[i]);
      if !ok {
        return;
      }
    }
    assert os[..|os|] == os;
    ok := true;
  }

  method WritePayload(w: ByteWriter, s: Snapshot) returns (ok: bool)
    requires w.buf == []
    modifies w
    ensures ok == FiniteSnapshot(s)
    ensures ok ==> w.buf == PutPayload(s)
  {
    hide PutU32, PutU64, PutPolicy, PutObjects, Finite;
    w.U64(s.epoch);
    w.U64(s.warmthGen);
    w.U64(s.depGen);
    w.U64(s.policyGen);
    ok := WritePolicy(w, s.policy);
    if !ok {
      return;
    }
    w.U32(|s.objects| % U32_LIMIT);
    ok := WriteObjects(w, s.objects);
    if ok {
      assert w.buf == w.buf + [] == [] + PutPayload(s) == PutPayload(s);
    }
  }

  /** `encode_snapshot`; None stands for the exception on a NaN or an infinity. */
  method EncodeSnapshot(s: Snapshot) returns (file: Option<seq<Byte>>)
    ensures file == Encode(s)
  {
    hide PutPayload, FiniteSnapshot;
    var payload := new ByteWriter();
    var ok := WritePayload(payload, s);
    if !ok {
      return None;
    }
    var bytes := WrapPayload(payload.buf);
    file := Some(bytes);
  }

  method WrapPayload(payload: seq<Byte>) returns (file: seq<Byte>)
    ensures file == PutFile(payload)
  {
    hide PutU32, Crc32.Checksum;
    var out := new ByteWriter();
    out.U32(MAGIC);
    out.U32(VERSION);
    out.U32(|payload| % U32_LIMIT);
    var crc := Crc32.Compute(payload);
    out.U32(crc);
    assert out.buf + payload == [] + PutFile(payload);
    file := out.buf + payload;
  }

  // ---- reading ----

  method ReadWords(r: ByteReader, n: nat) returns (ok: bool, ws: seq<Word64>)
    requires r.Valid()
    modifies r
    ensures r.Valid() && Agrees(ok, ws, r.Rest(), GetWords(old(r.Rest()), n, []))
  {
    hide GetU64;
    ws := [];
    for i := 0 to n
      invariant r.Valid()
      invariant GetWords(r.Rest(), n - i, ws) == GetWords(old(r.Rest()), n, [])
    {
      var v: Word64;
      ok, v := r.U64();
      if !ok {
        return;
      }
      ws := ws + [v];
    }
    ok := true;
  }

  method ReadFinites(r: ByteReader, n: nat) returns (ok: bool, ws: seq<Word64>)
    requires r.Valid()
    modifies r
    ensures r.Valid() && Agrees(ok, ws, r.Rest(), GetFinites(old(r.Rest()), n, []))
  {
    hide GetFinite;
    ws := [];
    for i := 0 to n
      invariant r.Valid()
      invariant GetFinites(r.Rest(), n - i, ws) == GetFinites(old(r.Rest()), n, [])
    {
      var v: Word64;
      ok, v := C.ReadFinite(r);
      if !ok {
        return;
      }
      ws := ws + [v];
    }
    ok := true;
  }

  method ReadFlags(r: ByteReader, n: nat) returns (ok: bool, fs: seq<bool>)
    requires r.Valid()
    modifies r
    ensures r.Valid() && Agrees(ok, fs, r.Rest(), GetFlags(old(r.Rest()), n, []))
  {
    hide GetU8;
    fs := [];
    for i := 0 to n
      invariant r.Valid()
      invariant GetFlags(r.Rest(), n - i, fs) == GetFlags(old(r.Rest()), n, [])
    {
      var b: Byte;
      ok, b := r.U8();
      if !ok || b > 1 {
        return false, fs;
      }
      fs := fs + [b != 0];
    }
    ok := true;
  }

  method ReadDecay(r: ByteReader) returns (ok: bool, d: DecayPolicy)
    requires r.Valid()
    modifies r
    ensures r.Valid() && Agrees(ok, d, r.Rest(), GetDecay(old(r.Rest())))
  {
    hide GetFinites, GetFlags;
    d := DEFAULT_DECAY;
    var v: seq<Word64>;
    var f: seq<bool>;
    ok, v := ReadFinites(r, 5);
    if !ok {
      return;
    }
    ok, f := ReadFlags(r, 5);
    if ok {
      d := DecayOf(v, f);
    }
  }

  method ReadPolicy(r: ByteReader) returns (ok: bool, p: Policy)
    requires r.Valid()
    modifies r
    ensures r.Valid() && Agrees(ok, p, r.Rest(), GetPolicy(old(r.Rest())))
  {
    hide GetU64, GetDecay, GetWords, GetFinites;
    p := DefaultPolicy(0);
    var generation: Word64;
    var decay: DecayPolicy;
    var budgets, weights: seq<Word64>;
    ok, generation := r.U64();
    if !ok {
      return;
    }
    ok, decay := ReadDecay(r);
    if !ok {
      return;
    }
    ok, budgets := ReadWords(r, 8);
    if !ok {
      return;
    }
    ok, weights := ReadFinites(r, 12);
    if ok {
      p := Policy(generation, decay, budgets, weights);
    }
  }

  method ReadObjects(r: ByteReader, n: nat, limit: Word64) returns (ok: bool, os: seq<WarmthObject>)
    requires r.Valid()
    modifies r
    ensures r.Valid() && Agrees(ok, os, r.Rest(), GetObjects(old(r.Rest()), n, limit, []))
  {
    hide PersistObject;
    os := [];
    var ids: set<Id128> := {};
    for i := 0 to n
      invariant r.Valid()
      invariant forall id: Id128 :: id in ids <==> IdAmong(id, os)
      invariant GetObjects(r.Rest(), n - i, limit, os) == GetObjects(old(r.Rest()), n, limit, [])
    {
      var o: WarmthObject;
      ok, o := C.ReadObject(r, limit);
      if !ok || o.id in ids {
        return false, os;
      }
      AmongMore(os, o);
      ids := ids + {o.id};
      os := os + [o];
    }
    ok := true;
  }

  lemma AmongMore(os: seq<WarmthObject>, o: WarmthObject)
    ensures forall id: Id128 :: IdAmong(id, os + [o]) <==> IdAmong(id, os) || id == o.id
  {
    forall id: Id128 ensures IdAmong(id, os + [o]) <==> IdAmong(id, os) || id == o.id {
      if IdAmong(id, os) {
        var j :| 0 <= j < |os| && os[j].id == id;
        assert (os + [o])[j].id == id;
      }
      assert (os + [o])[|os|] == o;
    }
  }

  method ReadPayload(r: ByteReader) returns (ok: bool, s: Snapshot)
    requires r.Valid()
    modifies r
    ensures r.Valid() && Agrees(ok, s, r.Rest(), GetPayload(old(r.Rest())))
  {
    hide GetU64, GetU32, GetPolicy, GetObjects;
    s := Snapshot(0, 0, 0, 0, DefaultPolicy(0), []);
    var epoch, warmthGen, depGen, policyGen: Word64;
    ok, epoch := r.U64();
    if !ok {
      return;
    }
    ok, warmthGen := r.U64();
    if !ok {
      return;
    }
    ok, depGen := r.U64();
    if !ok {
      return;
    }
    ok, policyGen := r.U64();
    if !ok {
      return;
    }
    var policy: Policy;
    ok, policy := ReadPolicy(r);
    if !ok || policy.generation != policyGen {
      return false, s;
    }
    var n: Word32;
    ok, n := r.U32();
    if !ok || n > MAX_OBJECTS {
      return false, s;
    }
    var objects: seq<WarmthObject>;
    ok, objects := ReadObjects(r, n, warmthGen);
    s := Snapshot(epoch, warmthGen, depGen, policyGen, policy, objects);
  }

  /** `decode_snapshot`: header, size, checksum, payload, and nothing behind it. */
  method DecodeSnapshot(bytes: seq<Byte>) returns (s: Option<Snapshot>)
    ensures s == Decode(bytes)
  {
    hide GetU32, GetPayload, Crc32.Checksum;
    if |bytes| < 16 {
      return None;
    }
    var header := new ByteReader(bytes);
    var ok, magic := header.U32();
    if !ok || magic != MAGIC {
      return None;
    }
    var ok2, version := header.U32();
    if !ok2 || version != VERSION {
      return None;
    }
    var ok3, size := header.U32();
    if !ok3 {
      return None;
    }
    var ok4, checksum := header.U32();
    if !ok4 || size != |bytes| - 16 {
      return None;
    }
    var payload := bytes[16..];
    assert |header.Rest()| == |payload| && header.Rest() == payload;
    var actual := Crc32.Compute(payload);
    if actual != checksum {
      return None;
    }
    var r := new ByteReader(payload);
    var ok5, snap := ReadPayload(r);
    if !ok5 || r.Remaining() != 0 {
      return None;
    }
    s := Some(snap);
  }
}
