/** The snapshot file: its grammar, when it reads back, and the loops that write and read it. */
module Snapshots {
  import opened Basics
  import opened WarmthObjects
  import opened Policies

  /** Durable knowledge written to disk. */
  datatype Snapshot = Snapshot(
    epoch: Word64, warmthGen: Word64, depGen: Word64, policyGen: Word64, policy: Policy, objects: seq<WarmthObject>)
}

module SnapshotGrammar {
  import opened Basics
  import opened Doubles
  import opened WarmthObjects
  import opened Policies
  import opened Snapshots
  import opened Bytes
  import opened ObjectGrammar
  import Crc32

  const MAGIC: Word32 := 0x5746_5442
  const VERSION: Word32 := 1
  const MAX_OBJECTS: nat := 1_000_000

  // ---- the policy record ----

  function PutWords(ws: seq<Word64>, i: nat, tail: seq<Byte>): (r: seq<Byte>)
    requires i <= |ws|
    ensures |r| == 8 * (|ws| - i) + |tail|
    decreases |ws| - i
  {
    if i == |ws| then tail else PutU64(ws[i], PutWords(ws, i + 1, tail))
  }

  function GetWords(s: seq<Byte>, n: nat, done: seq<Word64>): (r: Parsed<seq<Word64>>)
    ensures r.Got? ==> |r.value| == |done| + n && |s| == 8 * n + |r.rest|
    decreases n, |s|
  {
    if n == 0 then Got(done, s)
    else
      match GetU64(s)
      case Fail => Fail
      case Got(w, s1) => GetWords(s1, n - 1, done + [w])
  }

  function GetFinites(s: seq<Byte>, n: nat, done: seq<Word64>): (r: Parsed<seq<Word64>>)
    ensures r.Got? ==> |r.value| == |done| + n && |s| == 8 * n + |r.rest|
    ensures r.Got? ==> forall k :: |done| <= k < |r.value| ==> Finite(r.value[k])
    ensures r.Got? ==> done <= r.value
    decreases n, |s|
  {
    if n == 0 then Got(done, s)
    else
      match GetFinite(s)
      case Fail => Fail
      case Got(w, s1) => GetFinites(s1, n - 1, done + [w])
  }

  function PutFlags(fs: seq<bool>, i: nat, tail: seq<Byte>): (r: seq<Byte>)
    requires i <= |fs|
    ensures |r| == |fs| - i + |tail|
    decreases |fs| - i
  {
    if i == |fs| then tail else PutU8(if fs[i] then 1 else 0, PutFlags(fs, i + 1, tail))
  }

  function GetFlags(s: seq<Byte>, n: nat, done: seq<bool>): (r: Parsed<seq<bool>>)
    ensures r.Got? ==> |r.value| == |done| + n && |s| == n + |r.rest|
    decreases n, |s|
  {
    if n == 0 then Got(done, s)
    else
      match GetU8(s)
      case Fail => Fail
      case Got(b, s1) => if b > 1 then Fail else GetFlags(s1, n - 1, done + [b != 0])
  }

  function DecayWords(d: DecayPolicy): (r: seq<Word64>)
    ensures |r| == 5
  {
    [d.hotToWarm, d.warmToStale, d.staleToInvalidated, d.warmToPartial, d.partialToCold]
  }

  function DecayFlags(d: DecayPolicy): (r: seq<bool>)
    ensures |r| == 5
  {
    [d.onMemoryPressure, d.onProcessRestart, d.onDeviceReset, d.onDependencyChange, d.onPolicyChange]
  }

  function DecayOf(v: seq<Word64>, f: seq<bool>): DecayPolicy
    requires |v| == |f| == 5
  {
    DecayPolicy(v[0], v[1], v[2], v[3], v[4], f[0], f[1], f[2], f[3], f[4])
  }

  function PutPolicy(p: Policy, tail: seq<Byte>): (r: seq<Byte>)
    ensures |r| == 213 + |tail|
  {
    PutU64(p.generation, PutWords(DecayWords(p.decay), 0, PutFlags(DecayFlags(p.decay), 0,
      PutWords(p.budgets, 0, PutWords(p.weights, 0, tail)))))
  }

  function GetDecay(s: seq<Byte>): (r: Parsed<DecayPolicy>)
    ensures r.Got? ==> |s| == 45 + |r.rest|
  {
    match GetFinites(s, 5, [])
    case Fail => Fail
    case Got(v, s1) =>
    match GetFlags(s1, 5, [])
    case Fail => Fail
    case Got(f, s2) => Got(DecayOf(v, f), s2)
  }

  function GetBudgets(s: seq<Byte>): (r: Parsed<Limits>)
  {
    match GetWords(s, 8, [])
    case Fail => Fail
    case Got(ws, rest) => Got(ws, rest)
  }

  function GetWeights(s: seq<Byte>): (r: Parsed<Weights>)
    ensures r.Got? ==> |s| == 96 + |r.rest| && forall k :: 0 <= k < 12 ==> Finite(r.value[k])
  {
    match GetFinites(s, 12, [])
    case Fail => Fail
    case Got(ws, rest) => Got(ws, rest)
  }

  function GetPolicy(s: seq<Byte>): (r: Parsed<Policy>) {
    match GetU64(s)
    case Fail => Fail
    case Got(generation, s1) =>
    match GetDecay(s1)
    case Fail => Fail
    case Got(decay, s2) =>
    match GetBudgets(s2)
    case Fail => Fail
    case Got(budgets, s3) =>
    match GetWeights(s3)
    case Fail => Fail
    case Got(weights, s4) => Got(Policy(generation, decay, budgets, weights), s4)
  }

  // ---- the objects ----

  predicate IdAmong(id: Id128, os: seq<WarmthObject>) {
    exists j :: 0 <= j < |os| && os[j].id == id
  }

  /** n more objects behind those already read; an identity may occur once. */
  function GetObjects(s: seq<Byte>, n: nat, limit: Word64, done: seq<WarmthObject>): (r: Parsed<seq<WarmthObject>>)
    decreases n
  {
    if n == 0 then Got(done, s)
    else
      match PersistObject(s, limit)
      case Fail => Fail
      case Got(o, s1) => if IdAmong(o.id, done) then Fail else GetObjects(s1, n - 1, limit, done + [o])
  }

  // ---- payload and file ----

  function PutPayload(s: Snapshot): seq<Byte> {
    PutU64(s.epoch, PutU64(s.warmthGen, PutU64(s.depGen, PutU64(s.policyGen, PutPolicy(s.policy,
      PutU32(|s.objects| % U32_LIMIT, PutObjects(s.objects, 0, [])))))))
  }

  function GetPayload(b: seq<Byte>): (r: Parsed<Snapshot>) {
    match GetU64(b)
    case Fail => Fail
    case Got(epoch, b1) =>
    match GetU64(b1)
    case Fail => Fail
    case Got(warmthGen, b2) =>
    match GetU64(b2)
    case Fail => Fail
    case Got(depGen, b3) =>
    match GetU64(b3)
    case Fail => Fail
    case Got(policyGen, b4) =>
    match GetPolicy(b4)
    case Fail => Fail
    case Got(policy, b5) =>
    if policy.generation != policyGen then Fail
    else
      match GetU32(b5)
      case Fail => Fail
      case Got(n, b6) =>
      if n > MAX_OBJECTS then Fail
      else
        match GetObjects(b6, n, warmthGen, [])
        case Fail => Fail
        case Got(objects, b7) => Got(Snapshot(epoch, warmthGen, depGen, policyGen, policy, objects), b7)
  }

  /** The size field is the payload size cast to 32 bits. */
  function PutFile(payload: seq<Byte>): (r: seq<Byte>)
    ensures |r| == 16 + |payload|
  {
    PutU32(MAGIC, PutU32(VERSION, PutU32(|payload| % U32_LIMIT, PutU32(Crc32.Checksum(payload), payload))))
  }

  predicate FiniteSnapshot(s: Snapshot) {
    s.policy.FiniteNumbers() && forall i :: 0 <= i < |s.objects| ==> s.objects[i].FiniteNumbers()
  }

  /** `encode_snapshot`; None stands for the exception thrown on a NaN or an infinity. */
  function Encode(s: Snapshot): Option<seq<Byte>> {
    if FiniteSnapshot(s) then Some(PutFile(PutPayload(s))) else None
  }

  /** The payload of a well-formed file: header, size and checksum agree with it. */
  function Unwrap(b: seq<Byte>): Option<seq<Byte>> {
    match GetU32(b)
    case Fail => None
    case Got(magic, b1) =>
    if magic != MAGIC then None
    else
      match GetU32(b1)
      case Fail => None
      case Got(version, b2) =>
      if version != VERSION then None
      else
        match GetU32(b2)
        case Fail => None
        case Got(size, b3) =>
        match GetU32(b3)
        case Fail => None
        case Got(checksum, payload) =>
        if size != |payload| || Crc32.Checksum(payload) != checksum then None else Some(payload)
  }

  /** `decode_snapshot`. */
  function Decode(b: seq<Byte>): Option<Snapshot> {
    match Unwrap(b)
    case None => None
    case Some(payload) =>
      var r := GetPayload(payload);
      if r.Got? && r.rest == [] then Some(r.value) else None
  }

  // ---- reading back what was written ----

  lemma {:induction false} WordsBack(ws: seq<Word64>, i: nat, tail: seq<Byte>)
    requires i <= |ws|
    ensures GetWords(PutWords(ws, i, tail), |ws| - i, ws[..i]) == Got(ws, tail)
    decreases |ws| - i
  {
    hide PutU64, GetU64;
    if i == |ws| {
      assert ws[..i] == ws;
    } else {
      WordsBack(ws, i + 1, tail);
      assert ws[..i + 1] == ws[..i] + [ws[i]];
    }
  }

  lemma {:induction false} FinitesBack(ws: seq<Word64>, i: nat, tail: seq<Byte>)
    requires i <= |ws| && forall k :: 0 <= k < |ws| ==> Finite(ws[k])
    ensures GetFinites(PutWords(ws, i, tail), |ws| - i, ws[..i]) == Got(ws, tail)
    decreases |ws| - i
  {
    hide PutU64, GetU64, Finite;
    if i == |ws| {
      assert ws[..i] == ws;
    } else {
      FinitesBack(ws, i + 1, tail);
      assert ws[..i + 1] == ws[..i] + [ws[i]];
    }
  }

  lemma {:induction false} FlagsBack(fs: seq<bool>, i: nat, tail: seq<Byte>)
    requires i <= |fs|
    ensures GetFlags(PutFlags(fs, i, tail), |fs| - i, fs[..i]) == Got(fs, tail)
    decreases |fs| - i
  {
    hide PutU8, GetU8;
    if i == |fs| {
      assert fs[..i] == fs;
    } else {
      FlagsBack(fs, i + 1, tail);
      assert fs[..i + 1] == fs[..i] + [fs[i]];
    }
  }

  lemma DecayBack(d: DecayPolicy, tail: seq<Byte>)
    requires forall k :: 0 <= k < 5 ==> Finite(DecayWords(d)[k])
    ensures GetDecay(PutWords(DecayWords(d), 0, PutFlags(DecayFlags(d), 0, tail))) == Got(d, tail)
  {
    hide PutWords, PutFlags, GetFlags, GetFinites, Finite;
    FlagsBack(DecayFlags(d), 0, tail);
    FinitesBack(DecayWords(d), 0, PutFlags(DecayFlags(d), 0, tail));
    assert DecayFlags(d)[..0] == [] && DecayWords(d)[..0] == [];
  }

  lemma PolicyBack(p: Policy, tail: seq<Byte>)
    requires p.FiniteNumbers()
    ensures GetPolicy(PutPolicy(p, tail)) == Got(p, tail)
  {
    hide PutU64, GetU64, PutWords, PutFlags, GetWords, GetDecay, GetFinites, Finite;
    var t4 := PutWords(p.weights, 0, tail);
    var t3 := PutWords(p.budgets, 0, t4);
    FinitesBack(p.weights, 0, tail);
    WordsBack(p.budgets, 0, t4);
    DecayBack(p.decay, t3);
    assert p.weights[..0] == [] && p.budgets[..0] == [];
  }

  lemma DecayFinite(s: seq<Byte>)
    ensures GetDecay(s).Got? ==> forall k :: 0 <= k < 5 ==> Finite(DecayWords(GetDecay(s).value)[k])
  {
    hide GetFinites, GetFlags, Finite;
    var v := GetFinites(s, 5, []);
    if v.Got? {
      assert forall k :: 0 <= k < 5 ==> Finite(v.value[k]);
    }
  }

  lemma PolicyBytes(s: seq<Byte>)
    ensures GetPolicy(s).Got? ==> |s| == 213 + |GetPolicy(s).rest| && GetPolicy(s).value.FiniteNumbers()
  {
    hide GetU64, GetDecay, GetWords, GetWeights, Finite;
    var g := GetU64(s);
    if g.Got? && GetDecay(g.rest).Got? {
      var d := DecayWords(GetDecay(g.rest).value);
      DecayFinite(g.rest);
      assert Finite(d[0]) && Finite(d[1]) && Finite(d[2]) && Finite(d[3]) && Finite(d[4]);
    }
  }

  // ---- objects ----

  predicate Distinct(os: seq<WarmthObject>) {
    forall i, j :: 0 <= i < j < |os| ==> os[i].id != os[j].id
  }

  predicate WithinGeneration(os: seq<WarmthObject>, limit: Word64) {
    forall i :: 0 <= i < |os| ==> os[i].warmthGen <= limit
  }

  /** The object at position k may follow those before it. */
  predicate Fits(os: seq<WarmthObject>, k: nat, limit: Word64)
    requires k < |os|
  {
    os[k].warmthGen <= limit && !IdAmong(os[k].id, os[..k])
  }

  lemma NormKeepsId(os: seq<WarmthObject>, k: nat)
    requires k <= |os|
    ensures forall id: Id128 :: IdAmong(id, NormAll(os[..k])) == IdAmong(id, os[..k])
  {
    forall id: Id128 ensures IdAmong(id, NormAll(os[..k])) == IdAmong(id, os[..k]) {
      if IdAmong(id, os[..k]) {
        var j :| 0 <= j < k && os[..k][j].id == id;
        assert NormAll(os[..k])[j].id == id;
      }
      if IdAmong(id, NormAll(os[..k])) {
        var j :| 0 <= j < k && NormAll(os[..k])[j].id == id;
        assert os[..k][j].id == id;
      }
    }
  }

  predicate AllFinite(os: seq<WarmthObject>) {
    forall i :: 0 <= i < |os| ==> os[i].FiniteNumbers()
  }

  predicate AllFit(os: seq<WarmthObject>, i: nat, limit: Word64) {
    forall k :: i <= k < |os| ==> Fits(os, k, limit)
  }

  lemma {:induction false} ObjectsBack(os: seq<WarmthObject>, i: nat, limit: Word64, tail: seq<Byte>)
    requires i <= |os| && AllSized(os) && AllFinite(os)
    ensures GetObjects(PutObjects(os, i, tail), |os| - i, limit, NormAll(os[..i])) ==
      if AllFit(os, i, limit) then Got(NormAll(os), tail) else Fail
    decreases |os| - i
  {
    hide PutObject, PersistObject, Norm, Sized, IdAmong;
    if i == |os| {
      assert os[..i] == os;
    } else {
      PersistRoundTrip(os[i], limit, PutObjects(os, i + 1, tail));
      NormKeepsId(os, i);
      NormHasId(os[i]);
      assert os[..i + 1] == os[..i] + [os[i]];
      assert NormAll(os[..i + 1]) == NormAll(os[..i]) + [Norm(os[i])];
      assert AllFit(os, i, limit) == (Fits(os, i, limit) && AllFit(os, i + 1, limit));
      ObjectsBack(os, i + 1, limit, tail);
    }
  }

  lemma NormHasId(o: WarmthObject)
    ensures Norm(o).id == o.id
  {
  }

  lemma FitMeansDistinct(os: seq<WarmthObject>, limit: Word64)
    ensures AllFit(os, 0, limit) <==> Distinct(os) && WithinGeneration(os, limit)
  {
    if AllFit(os, 0, limit) {
      forall i, j | 0 <= i < j < |os| ensures os[i].id != os[j].id {
        assert Fits(os, j, limit);
        assert os[..j][i].id == os[i].id;
      }
      forall i | 0 <= i < |os| ensures os[i].warmthGen <= limit {
        assert Fits(os, i, limit);
      }
    }
  }

  lemma {:induction false} ObjectsNotShorter(os: seq<WarmthObject>, i: nat, tail: seq<Byte>)
    requires i <= |os|
    ensures |PutObjects(os, i, tail)| >= |os| - i + |tail|
    ensures |PutObjects(os, i, tail)| < U32_LIMIT ==> forall k :: i <= k < |os| ==> Sized(os[k])
    decreases |os| - i
  {
    hide PutObject, Sized;
    if i < |os| {
      ObjectsNotShorter(os, i + 1, tail);
      ObjectTakesBytes(os[i], PutObjects(os, i + 1, tail));
      if |PutObjects(os, i, tail)| < U32_LIMIT {
        SizedWhenShort(os[i], PutObjects(os, i + 1, tail));
      }
    }
  }

  lemma ObjectTakesBytes(o: WarmthObject, tail: seq<Byte>)
    ensures |PutObject(o, tail)| > |tail|
  {
    hide PutHeader, PutOwners, PutStatus, PutNumbers, PutDeps, PutEnding;
    var t5 := PutEnding(EndingOf(o), tail);
    var t4 := PutDeps(o.depGens, t5);
    var t2 := PutStatus(StatusOf(o), PutNumbers(NumbersOf(o), t4));
    EndingShort(EndingOf(o), tail);
    DepsSize(o.depGens, t5);
    OwnersShort(OwnersOf(o), t2);
    HeaderSizes(HeaderOf(o), PutOwners(OwnersOf(o), t2));
  }

  lemma EndingShort(e: Ending, tail: seq<Byte>)
    ensures |PutEnding(e, tail)| >= |tail|
  {
    hide PutU8, PutText;
  }

  // ---- round trip of the payload ----

  function NormSnapshot(s: Snapshot): Snapshot {
    s.(objects := NormAll(s.objects))
  }

  /** What a snapshot must satisfy for its own file to be readable. */
  predicate Readable(s: Snapshot) {
    && |PutPayload(s)| < U32_LIMIT
    && s.policy.generation == s.policyGen
    && |s.objects| <= MAX_OBJECTS
    && Distinct(s.objects)
    && WithinGeneration(s.objects, s.warmthGen)
  }

  lemma PayloadSize(s: Snapshot)
    ensures |PutPayload(s)| == 249 + |PutObjects(s.objects, 0, [])|
  {
    hide PutU64, PutU32, PutPolicy, PutObjects;
  }

  lemma PayloadBack(s: Snapshot)
    requires FiniteSnapshot(s) && |PutPayload(s)| < U32_LIMIT
    ensures GetPayload(PutPayload(s)) == if Readable(s) then Got(NormSnapshot(s), []) else Fail
  {
    hide PutU64, PutU32, PutPolicy, PutObjects, GetU64, GetU32, GetPolicy, GetObjects, Sized, Norm, Finite;
    hide Distinct, WithinGeneration, AllFit;
    PayloadSize(s);
    ObjectsNotShorter(s.objects, 0, []);
    var t2 := PutObjects(s.objects, 0, []);
    var t1 := PutU32(|s.objects| % U32_LIMIT, t2);
    PolicyBack(s.policy, t1);
    ObjectsBack(s.objects, 0, s.warmthGen, []);
    assert s.objects[..0] == [] && NormAll([]) == [];
    FitMeansDistinct(s.objects, s.warmthGen);
  }

  lemma UnwrapBack(payload: seq<Byte>)
    ensures Unwrap(PutFile(payload)) == if |payload| < U32_LIMIT then Some(payload) else None
  {
    hide PutU32, GetU32;
  }

  /** A finite snapshot reads back, in normal form, exactly when its payload fits the 32-bit size field,
      its two policy generations agree, there are at most a million objects, and those have distinct
      identities and generations within the snapshot's. */
  lemma SnapshotRoundTrip(s: Snapshot)
    requires FiniteSnapshot(s)
    ensures Decode(Encode(s).value) == if Readable(s) then Some(NormSnapshot(s)) else None
  {
    hide PutPayload, GetPayload, PutFile, Unwrap, FiniteSnapshot;
    UnwrapBack(PutPayload(s));
    if |PutPayload(s)| < U32_LIMIT {
      PayloadBack(s);
    }
  }

  // ---- what the decoder hands out ----

  /** An object as the snapshot reader delivers it. */
  predicate Delivered(o: WarmthObject) {
    o.FiniteNumbers() && o.Clamped()
  }

  lemma ObjectDelivered(s: seq<Byte>, limit: Word64)
    requires PersistObject(s, limit).Got?
    ensures Delivered(PersistObject(s, limit).value) && PersistObject(s, limit).value.warmthGen <= limit
    ensures |PutObject(PersistObject(s, limit).value, [])| <= |s| - |PersistObject(s, limit).rest|
  {
    hide WireFields, PersistObject, PutObject;
    ReadersAgree(s, limit);
    RewriteNoLonger(s, []);
    ClampUnitIdempotent(WireFields(s).value.confidence);
    ClampUnitIdempotent(WireFields(s).value.freshness);
  }

  predicate DeliveredFrom(os: seq<WarmthObject>, i: nat) {
    forall k :: i <= k < |os| ==> Delivered(os[k])
  }

  lemma OneMore(os: seq<WarmthObject>, done: seq<WarmthObject>, o: WarmthObject, limit: Word64)
    requires done + [o] <= os && o.warmthGen <= limit && !IdAmong(o.id, done) && Delivered(o)
    requires AllFit(os, |done| + 1, limit) && DeliveredFrom(os, |done| + 1)
    ensures done <= os && AllFit(os, |done|, limit) && DeliveredFrom(os, |done|)
  {
    hide IdAmong, Delivered;
    assert os[|done|] == (done + [o])[|done|] == o;
    assert os[..|done|] == (done + [o])[..|done|] == done;
  }

  lemma GetObjectsStep(s: seq<Byte>, n: nat, limit: Word64, done: seq<WarmthObject>)
    requires GetObjects(s, n, limit, done).Got?
    ensures n == 0 ==> GetObjects(s, n, limit, done) == Got(done, s)
    ensures n > 0 ==>
      var r := PersistObject(s, limit);
      && r.Got? && !IdAmong(r.value.id, done)
      && GetObjects(s, n, limit, done) == GetObjects(r.rest, n - 1, limit, done + [r.value])
  {
    hide PersistObject, IdAmong;
  }

  lemma {:induction false} ObjectsDelivered(s: seq<Byte>, n: nat, limit: Word64, done: seq<WarmthObject>)
    requires GetObjects(s, n, limit, done).Got?
    ensures |GetObjects(s, n, limit, done).value| == |done| + n
    ensures done <= GetObjects(s, n, limit, done).value
    ensures AllFit(GetObjects(s, n, limit, done).value, |done|, limit)
    ensures DeliveredFrom(GetObjects(s, n, limit, done).value, |done|)
    decreases n
  {
    hide PersistObject, PutObject, Delivered, IdAmong, AllFit, DeliveredFrom, GetObjects;
    GetObjectsStep(s, n, limit, done);
    var os := GetObjects(s, n, limit, done).value;
    if n == 0 {
      NoneLeft(done, limit);
    } else {
      var r := PersistObject(s, limit);
      ObjectDelivered(s, limit);
      ObjectsDelivered(r.rest, n - 1, limit, done + [r.value]);
      OneMore(os, done, r.value, limit);
    }
  }

  lemma NoneLeft(os: seq<WarmthObject>, limit: Word64)
    ensures AllFit(os, |os|, limit) && DeliveredFrom(os, |os|)
  {
  }

  /** The bytes an object takes. */
  function WrittenSize(o: WarmthObject): nat {
    HeaderSize(HeaderOf(o)) + |PutOpt(o.model, [])| + |PutOpt(o.artifact, [])| + |PutOpt(o.replica, [])| + |PutOpt(o.engine, [])|
    + 17 + |o.stateReason| + 78 + 9 * |o.depGens| + |PutEnding(EndingOf(o), [])|
  }

  lemma PutObjectTakes(o: WarmthObject, tail: seq<Byte>)
    ensures |PutObject(o, tail)| == WrittenSize(o) + |tail|
  {
    hide PutHeader, PutOwners, PutOpt, PutStatus, PutNumbers, PutDeps, PutEnding, HeaderSize;
    var t5 := PutEnding(EndingOf(o), tail);
    var t4 := PutDeps(o.depGens, t5);
    var t2 := PutStatus(StatusOf(o), PutNumbers(NumbersOf(o), t4));
    EndingTail(EndingOf(o), tail);
    DepsSize(o.depGens, t5);
    OwnersTail(OwnersOf(o), t2);
    HeaderSizes(HeaderOf(o), PutOwners(OwnersOf(o), t2));
  }

  lemma TailMoves(o: WarmthObject, tail: seq<Byte>)
    ensures |PutObject(o, tail)| == |PutObject(o, [])| + |tail|
  {
    hide PutObject, WrittenSize;
    PutObjectTakes(o, tail);
    PutObjectTakes(o, []);
  }

  lemma EndingTail(e: Ending, tail: seq<Byte>)
    ensures |PutEnding(e, tail)| == |PutEnding(e, [])| + |tail|
  {
    hide PutU8, PutText;
  }

  lemma OptTail(v: Option<Id128>, tail: seq<Byte>)
    ensures |PutOpt(v, tail)| == |PutOpt(v, [])| + |tail|
  {
    hide PutId, PutU8;
  }

  lemma OwnersTail(w: Owners, tail: seq<Byte>)
    ensures |PutOwners(w, tail)| ==
      |PutOpt(w.model, [])| + |PutOpt(w.artifact, [])| + |PutOpt(w.replica, [])| + |PutOpt(w.engine, [])| + |tail|
  {
    hide PutOpt;
    OptTail(w.engine, tail);
    OptTail(w.replica, PutOpt(w.engine, tail));
    OptTail(w.artifact, PutOpt(w.replica, PutOpt(w.engine, tail)));
    OptTail(w.model, PutOpt(w.artifact, PutOpt(w.replica, PutOpt(w.engine, tail))));
  }

  /** Rewriting the objects takes no more bytes than they were read from. */
  lemma {:induction false} RewrittenObjects(s: seq<Byte>, n: nat, limit: Word64, done: seq<WarmthObject>)
    requires GetObjects(s, n, limit, done).Got?
    ensures |GetObjects(s, n, limit, done).value| == |done| + n
    ensures |PutObjects(GetObjects(s, n, limit, done).value, |done|, [])| <= |s| - |GetObjects(s, n, limit, done).rest|
    decreases n
  {
    hide PersistObject, PutObject, IdAmong;
    if n > 0 {
      var r := PersistObject(s, limit);
      var os := GetObjects(s, n, limit, done).value;
      ObjectDelivered(s, limit);
      RewrittenObjects(r.rest, n - 1, limit, done + [r.value]);
      ObjectsDelivered(r.rest, n - 1, limit, done + [r.value]);
      assert os[|done|] == r.value;
      TailMoves(r.value, PutObjects(os, |done| + 1, []));
    }
  }

  lemma PayloadDelivered(b: seq<Byte>)
    requires GetPayload(b).Got?
    ensures var s := GetPayload(b).value;
      && FiniteSnapshot(s)
      && s.policy.generation == s.policyGen
      && |s.objects| <= MAX_OBJECTS
      && Distinct(s.objects)
      && WithinGeneration(s.objects, s.warmthGen)
      && DeliveredFrom(s.objects, 0)
      && |PutPayload(s)| <= |b|
  {
    hide GetU64, GetU32, GetPolicy, GetObjects, PutPayload, Finite, Distinct, WithinGeneration, AllFit, PutObjects, ClampUnit;
    var b4 := GetU64(GetU64(GetU64(GetU64(b).rest).rest).rest).rest;
    PolicyBytes(b4);
    var b5 := GetPolicy(b4).rest;
    var n := GetU32(b5);
    var s := GetPayload(b).value;
    ObjectsDelivered(n.rest, n.value, s.warmthGen, []);
    RewrittenObjects(n.rest, n.value, s.warmthGen, []);
    FitMeansDistinct(s.objects, s.warmthGen);
    PayloadSize(s);
  }

  lemma UnwrapSize(b: seq<Byte>)
    ensures Unwrap(b).Some? ==> |Unwrap(b).value| == |b| - 16 && |Unwrap(b).value| < U32_LIMIT
  {
    hide GetU32;
  }

  /** Whatever the decoder accepts meets every condition under which a snapshot's own file reads back. */
  lemma DecodedIsReadable(b: seq<Byte>)
    requires Decode(b).Some?
    ensures FiniteSnapshot(Decode(b).value) && Readable(Decode(b).value)
    ensures forall k :: 0 <= k < |Decode(b).value.objects| ==> Delivered(Decode(b).value.objects[k])
  {
    hide Unwrap, GetPayload, PutPayload, FiniteSnapshot, Delivered, Distinct, WithinGeneration;
    UnwrapSize(b);
    PayloadDelivered(Unwrap(b).value);
  }

  /** Re-encoding an accepted file always succeeds and reads back as the same snapshot in normal form,
      although the file's dependency pairs may stand in any order. */
  lemma ReencodingReadsBack(b: seq<Byte>)
    requires Decode(b).Some?
    ensures Encode(Decode(b).value).Some?
    ensures Decode(Encode(Decode(b).value).value) == Some(NormSnapshot(Decode(b).value))
  {
    hide Decode, Readable, FiniteSnapshot;
    DecodedIsReadable(b);
    SnapshotRoundTrip(Decode(b).value);
  }

  lemma {:induction false} NormSameObjects(os: seq<WarmthObject>, i: nat, tail: seq<Byte>)
    requires i <= |os| && forall k :: 0 <= k < |os| ==> Delivered(os[k])
    ensures PutObjects(NormAll(os), i, tail) == PutObjects(os, i, tail)
    decreases |os| - i
  {
    hide PutObject, Norm;
    if i < |os| {
      NormSameObjects(os, i + 1, tail);
      NormSameBytes(os[i], PutObjects(os, i + 1, tail));
    }
  }

  lemma NormSamePayload(s: Snapshot)
    requires forall k :: 0 <= k < |s.objects| ==> Delivered(s.objects[k])
    ensures PutPayload(NormSnapshot(s)) == PutPayload(s)
  {
    hide PutObjects, PutPolicy, PutU32, PutU64, Delivered;
    NormSameObjects(s.objects, 0, []);
  }

  /** The file written for an accepted snapshot is canonical: decoding it and encoding once more gives the
      very same bytes. */
  lemma ReencodingIsStable(b: seq<Byte>, s: Snapshot, file: seq<Byte>)
    requires Decode(b) == Some(s) && Encode(s) == Some(file)
    ensures Decode(file) == Some(NormSnapshot(s)) && Encode(NormSnapshot(s)) == Some(file)
  {
    hide Decode, Delivered, Readable, FiniteSnapshot, PutFile, PutPayload, NormSnapshot;
    ReencodingReadsBack(b);
    DecodedIsReadable(b);
    NormSamePayload(s);
    DecodedIsReadable(file);
  }

  // ---- corruption ----

  lemma UnwrapSplit(head: seq<Byte>, payload: seq<Byte>)
    requires |head| == 16
    ensures Unwrap(head + payload).Some? ==>
      Unwrap(head + payload) == Some(payload) && GetU32(head[12..]).Got? && GetU32(head[12..]).value == Crc32.Checksum(payload)
  {
    assert |head[12..]| == 4;
    HeadWord(head, payload, 0);
    HeadWord(head, payload, 4);
    HeadWord(head, payload, 8);
    HeadWord(head, payload, 12);
    assert (head + payload)[16..] == payload;
    hide GetU32;
  }

  lemma HeadWord(head: seq<Byte>, payload: seq<Byte>, k: nat)
    requires |head| == 16 && k <= 12
    ensures GetU32((head + payload)[k..]) == Got(GetU32(head[k..]).value, (head + payload)[k + 4..])
  {
    var s, t := (head + payload)[k..], head[k..];
    assert s[4..] == (head + payload)[k + 4..];
    assert s == t + payload;
    GetPrefix(t, payload, 4, 0);
    hide Get;
    Widths();
  }

  lemma {:induction false} GetPrefix(s: seq<Byte>, more: seq<Byte>, n: nat, acc: nat)
    requires |s| >= n
    ensures Get(s + more, n, acc).Got? && Get(s, n, acc).Got?
    ensures Get(s + more, n, acc).value == Get(s, n, acc).value
    ensures Get(s + more, n, acc).rest == Get(s, n, acc).rest + more
    decreases n
  {
    if n > 0 {
      assert (s + more)[1..] == s[1..] + more;
      GetPrefix(s[1..], more, n - 1, acc * 256 + s[0]);
    }
  }

  /** Corrupting up to four consecutive payload bytes of an accepted file makes the decoder reject it. */
  lemma CorruptFileRejected(head: seq<Byte>, before: seq<Byte>, u: seq<Byte>, v: seq<Byte>, after: seq<Byte>)
    requires |head| == 16 && |u| == |v| <= 4 && u != v
    requires Decode(head + (before + u + after)).Some?
    ensures Decode(head + (before + v + after)).None?
  {
    hide GetU32, GetPayload, Unwrap, Crc32.Checksum;
    UnwrapSplit(head, before + u + after);
    UnwrapSplit(head, before + v + after);
    Crc32.FourByteCorruptionDetected(before, u, v, after);
  }
}
