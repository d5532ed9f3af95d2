/** The byte grammar of a warmth object: what each writer lays out and what each reader accepts. */
module ObjectGrammar {
  import opened Basics
  import opened Doubles
  import opened WarmthStates
  import opened WarmthObjects
  import opened Bytes

  // ---- enumerations ----

  function DimCode(d: DimensionStatus): Byte {
    match d
    case COLD_DIM => 0
    case DISCOVERED_DIM => 1
    case PARTIAL_DIM => 2
    case READY_DIM => 3
    case VALID_DIM => 4
    case SUSPECT_DIM => 5
  }

  function DimOf(b: Byte): (d: Option<DimensionStatus>)
    ensures d.Some? <==> b <= 5
    ensures d.Some? ==> DimCode(d.value) == b
  {
    match b
    case 0 => Some(COLD_DIM)
    case 1 => Some(DISCOVERED_DIM)
    case 2 => Some(PARTIAL_DIM)
    case 3 => Some(READY_DIM)
    case 4 => Some(VALID_DIM)
    case 5 => Some(SUSPECT_DIM)
    case _ => None
  }

  function ResidencyCode(r: Residency): Byte {
    match r
    case NONE => 0
    case STORAGE_ONLY => 1
    case HOST_ONLY => 2
    case DEVICE_RESIDENT => 3
    case MIRRORED => 4
  }

  function ResidencyOf(b: Byte): (r: Option<Residency>)
    ensures r.Some? <==> b <= 4
    ensures r.Some? ==> ResidencyCode(r.value) == b
  {
    match b
    case 0 => Some(NONE)
    case 1 => Some(STORAGE_ONLY)
    case 2 => Some(HOST_ONLY)
    case 3 => Some(DEVICE_RESIDENT)
    case 4 => Some(MIRRORED)
    case _ => None
  }

  function ProvenanceCode(p: Provenance): Byte {
    match p
    case LOCAL => 0
    case COORDINATOR => 1
    case DERIVED => 2
    case REPORTED => 3
    case MEASURED => 4
  }

  function ProvenanceOf(b: Byte): (p: Option<Provenance>)
    ensures p.Some? <==> b <= 4
    ensures p.Some? ==> ProvenanceCode(p.value) == b
  {
    match b
    case 0 => Some(LOCAL)
    case 1 => Some(COORDINATOR)
    case 2 => Some(DERIVED)
    case 3 => Some(REPORTED)
    case 4 => Some(MEASURED)
    case _ => None
  }

  // ---- the six groups of fields, in wire order ----

  datatype Header = Header(id: Id128, category: Category, workload: Id128, node: Id128,
                           device: Text, backend: Text, owner: Text)

  datatype Owners = Owners(model: Option<Id128>, artifact: Option<Id128>,
                           replica: Option<Id128>, engine: Option<Id128>)

  datatype Status = Status(state: WarmthState, reason: Text, dims: Dimensions)

  datatype Numbers = Numbers(prepared: Timestamp, used: Timestamp, estimatedCost: Word64, measuredCost: Word64,
                             estimatedTtr: Word64, observedTtr: Word64, residency: Residency, lifecycle: Lifecycle,
                             confidence: Word64, freshness: Word64, warmthGen: Word64)

  /** The leading part of the numbers, read alike by both readers. */
  datatype Costs = Costs(prepared: Timestamp, used: Timestamp, estimatedCost: Word64, measuredCost: Word64)

  datatype Ending = Ending(invalidation: Option<Text>, provenance: Provenance)

  function HeaderOf(o: WarmthObject): Header {
    Header(o.id, o.category, o.workload, o.node, o.device, o.backend, o.owner)
  }

  function OwnersOf(o: WarmthObject): Owners {
    Owners(o.model, o.artifact, o.replica, o.engine)
  }

  function StatusOf(o: WarmthObject): Status {
    Status(o.state, o.stateReason, o.dims)
  }

  function NumbersOf(o: WarmthObject): Numbers {
    Numbers(o.lastPrepared, o.lastUsed, o.estimatedCost, o.measuredCost, o.estimatedTtr, o.observedTtr,
            o.residency, o.lifecycle, o.confidence, o.freshness, o.warmthGen)
  }

  function EndingOf(o: WarmthObject): Ending {
    Ending(o.invalidation, o.provenance)
  }

  function Assemble(h: Header, w: Owners, s: Status, n: Numbers, deps: map<DependencyKind, Word64>, e: Ending): WarmthObject {
    WarmthObject(h.id, h.category, h.workload, h.node, h.device, h.backend, h.owner,
                 w.model, w.artifact, w.replica, w.engine, s.state, s.reason, s.dims,
                 n.prepared, n.used, n.estimatedCost, n.measuredCost, n.estimatedTtr, n.observedTtr,
                 n.residency, n.lifecycle, n.confidence, n.freshness, n.warmthGen, deps, e.invalidation, e.provenance)
  }

  // ---- writing ----

  function PutHeader(h: Header, tail: seq<Byte>): (r: seq<Byte>) {
    PutId(h.id, PutU8(h.category, PutId(h.workload, PutId(h.node,
      PutText(h.device, PutText(h.backend, PutText(h.owner, tail)))))))
  }

  /** An absent identity and the zero identity are both written as absent. */
  function PutOpt(v: Option<Id128>, tail: seq<Byte>): (r: seq<Byte>)
    ensures |r| <= (if v.Some? then 17 else 1) + |tail|
  {
    if v.Some? && v.value != 0 then PutU8(1, PutId(v.value, tail)) else PutU8(0, tail)
  }

  function PutOwners(w: Owners, tail: seq<Byte>): (r: seq<Byte>) {
    PutOpt(w.model, PutOpt(w.artifact, PutOpt(w.replica, PutOpt(w.engine, tail))))
  }

  /** The dimensions from index i on. */
  function PutDims(dims: seq<DimensionStatus>, i: nat, tail: seq<Byte>): (r: seq<Byte>)
    requires i <= |dims|
    ensures |r| == |dims| - i + |tail|
    decreases |dims| - i, |tail|
  {
    if i == |dims| then tail else PutU8(DimCode(dims[i]), PutDims(dims, i + 1, tail))
  }

  function PutStatus(s: Status, tail: seq<Byte>): (r: seq<Byte>)
    ensures |r| == 17 + |s.reason| + |tail|
  {
    PutU8(StateCode(s.state), PutText(s.reason, PutDims(s.dims, 0, tail)))
  }

  function PutNumbers(n: Numbers, tail: seq<Byte>): (r: seq<Byte>)
    ensures |r| == 74 + |tail|
  {
    PutU64(TimeWord(n.prepared), PutU64(TimeWord(n.used),
      PutU64(n.estimatedCost, PutU64(n.measuredCost, PutU64(n.estimatedTtr, PutU64(n.observedTtr,
      PutU8(ResidencyCode(n.residency), PutU8(n.lifecycle,
      PutU64(n.confidence, PutU64(n.freshness, PutU64(n.warmthGen, tail)))))))))))
  }

  /** The dependency pairs of kind k and above, in ascending kind order. */
  function PutKinds(m: map<DependencyKind, Word64>, k: nat, tail: seq<Byte>): (r: seq<Byte>)
    requires k <= 12
    decreases 12 - k, |tail|
  {
    if k == 12 then tail
    else if k in m then PutU8(k, PutU64(m[k], PutKinds(m, k + 1, tail)))
    else PutKinds(m, k + 1, tail)
  }

  function PutDeps(m: map<DependencyKind, Word64>, tail: seq<Byte>): (r: seq<Byte>) {
    PutU32(|m| % U32_LIMIT, PutKinds(m, 0, tail))
  }

  /** An absent reason and the empty reason are both written as absent. */
  function PutEnding(e: Ending, tail: seq<Byte>): (r: seq<Byte>)
    ensures |r| <= 2 + (if e.invalidation.Some? then 4 + |e.invalidation.value| else 0) + |tail|
  {
    if e.invalidation.Some? && e.invalidation.value != []
    then PutU8(1, PutText(e.invalidation.value, PutU8(ProvenanceCode(e.provenance), tail)))
    else PutU8(0, PutU8(ProvenanceCode(e.provenance), tail))
  }

  function PutObject(o: WarmthObject, tail: seq<Byte>): seq<Byte> {
    PutHeader(HeaderOf(o), PutOwners(OwnersOf(o), PutStatus(StatusOf(o), PutNumbers(NumbersOf(o),
      PutDeps(o.depGens, PutEnding(EndingOf(o), tail))))))
  }

  // ---- reading: the parts on which both readers agree literally ----

  function GetOpt(s: seq<Byte>): (r: Parsed<Option<Id128>>)
    ensures r.Got? ==> |s| >= (if r.value.Some? then 17 else 1) + |r.rest|
  {
    match GetU8(s)
    case Fail => Fail
    case Got(flag, s1) =>
    if flag == 0 then Got(None, s1)
    else if flag != 1 then Fail
    else
      match GetId(s1)
      case Fail => Fail
      case Got(v, s2) =>
      Got(Some(v), s2)
  }

  function GetOwners(s: seq<Byte>): (r: Parsed<Owners>) {
    match GetOpt(s)
    case Fail => Fail
    case Got(model, s1) =>
    match GetOpt(s1)
    case Fail => Fail
    case Got(artifact, s2) =>
    match GetOpt(s2)
    case Fail => Fail
    case Got(replica, s3) =>
    match GetOpt(s3)
    case Fail => Fail
    case Got(engine, s4) =>
    Got(Owners(model, artifact, replica, engine), s4)
  }

  function GetDims(s: seq<Byte>, n: nat, done: seq<DimensionStatus>): (r: Parsed<seq<DimensionStatus>>)
    ensures r.Got? ==> |r.value| == |done| + n && |s| == n + |r.rest|
    decreases n, |s|
  {
    if n == 0 then Got(done, s)
    else
      match GetU8(s)
      case Fail => Fail
      case Got(b, s1) =>
      if DimOf(b).None? then Fail else GetDims(s1, n - 1, done + [DimOf(b).value])
  }

  function GetStatus(s: seq<Byte>): (r: Parsed<Status>)
    ensures r.Got? ==> |s| == 17 + |r.value.reason| + |r.rest|
  {
    match GetU8(s)
    case Fail => Fail
    case Got(code, s1) =>
    if StateOf(code).None? then Fail
    else
      match GetText(s1)
      case Fail => Fail
      case Got(reason, s2) =>
      match GetDims(s2, 12, [])
      case Fail => Fail
      case Got(dims, s3) =>
      Got(Status(StateOf(code).value, reason, dims), s3)
  }

  function GetCosts(s: seq<Byte>): (r: Parsed<Costs>) {
    match GetU64(s)
    case Fail => Fail
    case Got(prepared, s1) =>
    match GetU64(s1)
    case Fail => Fail
    case Got(used, s2) =>
    match GetU64(s2)
    case Fail => Fail
    case Got(estimatedCost, s3) =>
    match GetU64(s3)
    case Fail => Fail
    case Got(measuredCost, s4) =>
    Got(Costs(WordTime(prepared), WordTime(used), estimatedCost, measuredCost), s4)
  }

  /** n pairs, each of a valid kind not seen before, in any order. */
  function GetKinds(s: seq<Byte>, n: nat, seen: map<DependencyKind, Word64>): (r: Parsed<map<DependencyKind, Word64>>)
    ensures r.Got? ==> |s| == 9 * n + |r.rest| && |r.value| == |seen| + n
    decreases n, |s|
  {
    if n == 0 then Got(seen, s)
    else
      match GetU8(s)
      case Fail => Fail
      case Got(kind, s1) =>
      if kind > 11 || kind in seen then Fail
      else
        match GetU64(s1)
        case Fail => Fail
        case Got(g, s2) =>
        GetKinds(s2, n - 1, seen[kind := g])
  }

  function GetDeps(s: seq<Byte>): (r: Parsed<map<DependencyKind, Word64>>)
    ensures r.Got? ==> |s| == 4 + 9 * |r.value| + |r.rest|
  {
    match GetU32(s)
    case Fail => Fail
    case Got(n, s1) =>
    if n > 64 then Fail else GetKinds(s1, n, map[])
  }

  function GetEnding(s: seq<Byte>): (r: Parsed<Ending>)
    ensures r.Got? ==>
      |s| == 2 + (if r.value.invalidation.Some? then 4 + |r.value.invalidation.value| else 0) + |r.rest|
  {
    match GetU8(s)
    case Fail => Fail
    case Got(flag, s1) =>
    if flag == 1 then
      match GetText(s1)
      case Fail => Fail
      case Got(reason, s2) =>
      match GetU8(s2)
      case Fail => Fail
      case Got(code, s3) =>
      if ProvenanceOf(code).None? then Fail else Got(Ending(Some(reason), ProvenanceOf(code).value), s3)
    else if flag != 0 then Fail
    else
      match GetU8(s1)
      case Fail => Fail
      case Got(code, s2) =>
      if ProvenanceOf(code).None? then Fail else Got(Ending(None, ProvenanceOf(code).value), s2)
  }

  // ---- the wire reader ----

  /** The wire reader looks at the category byte only after the two identities behind it. */
  function WireHeader(s: seq<Byte>): (r: Parsed<Header>) {
    match GetId(s)
    case Fail => Fail
    case Got(id, s1) =>
    match GetU8(s1)
    case Fail => Fail
    case Got(category, s2) =>
    match GetId(s2)
    case Fail => Fail
    case Got(workload, s3) =>
    match GetId(s3)
    case Fail => Fail
    case Got(node, s4) =>
    if category > 11 then Fail
    else
      match GetText(s4)
      case Fail => Fail
      case Got(device, s5) =>
      match GetText(s5)
      case Fail => Fail
      case Got(backend, s6) =>
      match GetText(s6)
      case Fail => Fail
      case Got(owner, s7) =>
      Got(Header(id, category, workload, node, device, backend, owner), s7)
  }

  function WireNumbers(s: seq<Byte>): (r: Parsed<Numbers>) {
    match GetCosts(s)
    case Fail => Fail
    case Got(c, s4) =>
    match GetU64(s4)
    case Fail => Fail
    case Got(estimatedTtr, s5) =>
    match GetU64(s5)
    case Fail => Fail
    case Got(observedTtr, s6) =>
    match GetU8(s6)
    case Fail => Fail
    case Got(residency, s7) =>
    if ResidencyOf(residency).None? then Fail
    else
      match GetU8(s7)
      case Fail => Fail
      case Got(lifecycle, s8) =>
      if lifecycle > 6 then Fail
      else
        match GetU64(s8)
        case Fail => Fail
        case Got(confidence, s9) =>
        match GetU64(s9)
        case Fail => Fail
        case Got(freshness, s10) =>
        match GetU64(s10)
        case Fail => Fail
        case Got(warmthGen, s11) =>
        Got(Numbers(c.prepared, c.used, c.estimatedCost, c.measuredCost, estimatedTtr, observedTtr,
                    ResidencyOf(residency).value, lifecycle, confidence, freshness, warmthGen), s11)
  }

  /** The fields as they stand in the bytes, before the clamping setters. */
  function WireFields(s: seq<Byte>): (r: Parsed<WarmthObject>) {
    match WireHeader(s)
    case Fail => Fail
    case Got(h, s1) =>
    match GetOwners(s1)
    case Fail => Fail
    case Got(w, s2) =>
    match GetStatus(s2)
    case Fail => Fail
    case Got(st, s3) =>
    match WireNumbers(s3)
    case Fail => Fail
    case Got(n, s4) =>
    match GetDeps(s4)
    case Fail => Fail
    case Got(deps, s5) =>
    match GetEnding(s5)
    case Fail => Fail
    case Got(e, s6) =>
    Got(Assemble(h, w, st, n, deps, e), s6)
  }

  function WireObject(s: seq<Byte>): (r: Parsed<WarmthObject>) {
    match WireFields(s)
    case Fail => Fail
    case Got(o, rest) =>
    Got(o.Clamp(), rest)
  }

  // ---- the snapshot reader ----

  function GetFinite(s: seq<Byte>): (r: Parsed<Word64>)
    ensures r.Got? ==> Finite(r.value) && |s| == 8 + |r.rest|
  {
    match GetU64(s)
    case Fail => Fail
    case Got(d, rest) =>
    if Finite(d) then Got(d, rest) else Fail
  }

  function PersistHeader(s: seq<Byte>): (r: Parsed<Header>) {
    match GetId(s)
    case Fail => Fail
    case Got(id, s1) =>
    match GetU8(s1)
    case Fail => Fail
    case Got(category, s2) =>
    if category > 11 then Fail
    else
      match GetId(s2)
      case Fail => Fail
      case Got(workload, s3) =>
      match GetId(s3)
      case Fail => Fail
      case Got(node, s4) =>
      match GetText(s4)
      case Fail => Fail
      case Got(device, s5) =>
      match GetText(s5)
      case Fail => Fail
      case Got(backend, s6) =>
      match GetText(s6)
      case Fail => Fail
      case Got(owner, s7) =>
      Got(Header(id, category, workload, node, device, backend, owner), s7)
  }

  function PersistNumbers(s: seq<Byte>): (r: Parsed<Numbers>) {
    match GetCosts(s)
    case Fail => Fail
    case Got(c, s4) =>
    match GetFinite(s4)
    case Fail => Fail
    case Got(estimatedTtr, s5) =>
    match GetFinite(s5)
    case Fail => Fail
    case Got(observedTtr, s6) =>
    match GetU8(s6)
    case Fail => Fail
    case Got(residency, s7) =>
    if ResidencyOf(residency).None? then Fail
    else
      match GetU8(s7)
      case Fail => Fail
      case Got(lifecycle, s8) =>
      if lifecycle > 6 then Fail
      else
        match GetFinite(s8)
        case Fail => Fail
        case Got(confidence, s9) =>
        match GetFinite(s9)
        case Fail => Fail
        case Got(freshness, s10) =>
        match GetU64(s10)
        case Fail => Fail
        case Got(warmthGen, s11) =>
        Got(Numbers(c.prepared, c.used, c.estimatedCost, c.measuredCost, estimatedTtr, observedTtr,
                    ResidencyOf(residency).value, lifecycle, ClampUnit(confidence), ClampUnit(freshness), warmthGen), s11)
  }

  /** `limit` is the warmth generation of the snapshot being read; it is compared last. */
  function PersistObject(s: seq<Byte>, limit: Word64): (r: Parsed<WarmthObject>) {
    match PersistHeader(s)
    case Fail => Fail
    case Got(h, s1) =>
    match GetOwners(s1)
    case Fail => Fail
    case Got(w, s2) =>
    match GetStatus(s2)
    case Fail => Fail
    case Got(st, s3) =>
    match PersistNumbers(s3)
    case Fail => Fail
    case Got(n, s4) =>
    match GetDeps(s4)
    case Fail => Fail
    case Got(deps, s5) =>
    match GetEnding(s5)
    case Fail => Fail
    case Got(e, s6) =>
    if n.warmthGen > limit then Fail else Got(Assemble(h, w, st, n, deps, e), s6)
  }

  // ---- agreement of the two readers ----

  lemma HeadersAgree(s: seq<Byte>)
    ensures PersistHeader(s) == WireHeader(s)
  {
    hide GetId, GetText, GetU8;
  }

  function ClampNumbers(n: Numbers): Numbers {
    n.(confidence := ClampUnit(n.confidence), freshness := ClampUnit(n.freshness))
  }

  predicate FiniteParts(n: Numbers) {
    Finite(n.estimatedTtr) && Finite(n.observedTtr) && Finite(n.confidence) && Finite(n.freshness)
  }

  lemma NumbersAgree(s: seq<Byte>)
    ensures PersistNumbers(s) ==
      (var r := WireNumbers(s); if r.Got? && FiniteParts(r.value) then Got(ClampNumbers(r.value), r.rest) else Fail)
  {
    hide GetCosts, GetU64, GetU8, ResidencyOf, Finite, ClampUnit;
  }

  /** The snapshot reader accepts exactly what the wire reader accepts with all four doubles finite and
      a generation within the snapshot's, and then both produce the same object at the same position. */
  lemma ReadersAgree(s: seq<Byte>, limit: Word64)
    ensures PersistObject(s, limit).Got? <==>
      WireFields(s).Got? && WireFields(s).value.FiniteNumbers() && WireFields(s).value.warmthGen <= limit
    ensures PersistObject(s, limit).Got? ==> PersistObject(s, limit) == WireObject(s)
  {
    hide PersistHeader, WireHeader, PersistNumbers, WireNumbers, GetOwners, GetStatus, GetDeps, GetEnding, Finite, ClampUnit;
    HeadersAgree(s);
    var h := WireHeader(s);
    if h.Got? && GetOwners(h.rest).Got? && GetStatus(GetOwners(h.rest).rest).Got? {
      NumbersAgree(GetStatus(GetOwners(h.rest).rest).rest);
    }
  }

  // ---- reading back what was written ----

  function NormOpt(v: Option<Id128>): Option<Id128> {
    if v == Some(0) then None else v
  }

  function NormOwners(w: Owners): Owners {
    Owners(NormOpt(w.model), NormOpt(w.artifact), NormOpt(w.replica), NormOpt(w.engine))
  }

  function NormEnding(e: Ending): Ending {
    if e.invalidation == Some([]) then e.(invalidation := None) else e
  }

  /** What survives a trip through the bytes: zero identities and empty reasons read as absent. */
  function Norm(o: WarmthObject): WarmthObject {
    o.(model := NormOpt(o.model), artifact := NormOpt(o.artifact), replica := NormOpt(o.replica),
       engine := NormOpt(o.engine), invalidation := NormEnding(EndingOf(o)).invalidation)
     .Clamp()
  }

  /** Every string length fits its 32-bit prefix. */
  predicate Sized(o: WarmthObject) {
    && |o.device| < U32_LIMIT && |o.backend| < U32_LIMIT && |o.owner| < U32_LIMIT && |o.stateReason| < U32_LIMIT
    && (o.invalidation.Some? ==> |o.invalidation.value| < U32_LIMIT)
  }

  lemma HeaderBack(h: Header, tail: seq<Byte>)
    requires |h.device| < U32_LIMIT && |h.backend| < U32_LIMIT && |h.owner| < U32_LIMIT
    ensures WireHeader(PutHeader(h, tail)) == Got(h, tail)
  {
    hide PutId, PutU8, PutText, GetId, GetU8, GetText;
  }

  lemma OptBack(v: Option<Id128>, tail: seq<Byte>)
    ensures GetOpt(PutOpt(v, tail)) == Got(NormOpt(v), tail)
  {
    hide PutId, PutU8, GetId, GetU8;
  }

  lemma OwnersBack(w: Owners, tail: seq<Byte>)
    ensures GetOwners(PutOwners(w, tail)) == Got(NormOwners(w), tail)
  {
    hide PutOpt, GetOpt, NormOpt;
    OptBack(w.engine, tail);
    OptBack(w.replica, PutOpt(w.engine, tail));
    OptBack(w.artifact, PutOpt(w.replica, PutOpt(w.engine, tail)));
    OptBack(w.model, PutOpt(w.artifact, PutOpt(w.replica, PutOpt(w.engine, tail))));
  }

  lemma {:induction false} DimsBack(dims: seq<DimensionStatus>, i: nat, tail: seq<Byte>)
    requires i <= |dims|
    ensures GetDims(PutDims(dims, i, tail), |dims| - i, dims[..i]) == Got(dims, tail)
    decreases |dims| - i
  {
    hide PutU8, GetU8;
    if i == |dims| {
      assert dims[..i] == dims;
    } else {
      DimsBack(dims, i + 1, tail);
      assert dims[..i + 1] == dims[..i] + [dims[i]];
    }
  }

  lemma StatusBack(s: Status, tail: seq<Byte>)
    requires |s.reason| < U32_LIMIT
    ensures GetStatus(PutStatus(s, tail)) == Got(s, tail)
  {
    hide PutU8, PutText, PutDims, GetU8, GetText, GetDims;
    DimsBack(s.dims, 0, tail);
    assert s.dims[..0] == [];
  }

  lemma TimeBack(t: Timestamp)
    ensures WordTime(TimeWord(t)) == t
  {
  }

  lemma ResidencyBack(r: Residency)
    ensures ResidencyOf(ResidencyCode(r)) == Some(r)
  {
  }

  lemma NumbersBack(n: Numbers, tail: seq<Byte>)
    ensures WireNumbers(PutNumbers(n, tail)) == Got(n, tail)
  {
    hide PutU8, PutU64, GetU8, GetU64, TimeWord, WordTime, ResidencyOf, ResidencyCode;
    TimeBack(n.prepared);
    TimeBack(n.used);
    ResidencyBack(n.residency);
  }

  /** How many kinds from k on are present. */
  function CountKinds(m: map<DependencyKind, Word64>, k: nat): nat
    requires k <= 12
    decreases 12 - k
  {
    if k == 12 then 0 else (if k in m then 1 else 0) + CountKinds(m, k + 1)
  }

  function Below(m: map<DependencyKind, Word64>, k: nat): map<DependencyKind, Word64> {
    map i | i in m && i < k :: m[i]
  }

  lemma {:induction false} CountAll(m: map<DependencyKind, Word64>, k: nat)
    requires k <= 12
    ensures |Below(m, k)| + CountKinds(m, k) == |m|
    decreases 12 - k
  {
    if k == 12 {
      assert Below(m, 12) == m;
    } else {
      CountAll(m, k + 1);
      BelowNext(m, k);
    }
  }

  lemma BelowNext(m: map<DependencyKind, Word64>, k: nat)
    requires k < 12
    ensures k in m ==> Below(m, k + 1) == Below(m, k)[k := m[k]] && |Below(m, k + 1)| == |Below(m, k)| + 1
    ensures k !in m ==> Below(m, k + 1) == Below(m, k)
  {
  }

  lemma {:induction false} KindsBack(m: map<DependencyKind, Word64>, k: nat, tail: seq<Byte>)
    requires k <= 12
    ensures GetKinds(PutKinds(m, k, tail), CountKinds(m, k), Below(m, k)) == Got(m, tail)
    decreases 12 - k
  {
    hide PutU8, PutU64, GetU8, GetU64;
    if k == 12 {
      assert Below(m, 12) == m;
    } else {
      KindsBack(m, k + 1, tail);
      BelowNext(m, k);
    }
  }

  lemma {:induction false} AtMostTwelve(m: map<DependencyKind, Word64>, k: nat)
    requires k <= 12
    ensures CountKinds(m, k) <= 12 - k
    decreases 12 - k
  {
    if k < 12 {
      AtMostTwelve(m, k + 1);
    }
  }

  lemma DepsBack(m: map<DependencyKind, Word64>, tail: seq<Byte>)
    ensures GetDeps(PutDeps(m, tail)) == Got(m, tail)
  {
    hide PutU32, GetU32, PutKinds, GetKinds, CountKinds;
    assert Below(m, 0) == map[];
    CountAll(m, 0);
    AtMostTwelve(m, 0);
    KindsBack(m, 0, tail);
  }

  lemma ProvenanceBack(p: Provenance)
    ensures ProvenanceOf(ProvenanceCode(p)) == Some(p)
  {
  }

  lemma EndingBack(e: Ending, tail: seq<Byte>)
    requires e.invalidation.Some? ==> |e.invalidation.value| < U32_LIMIT
    ensures GetEnding(PutEnding(e, tail)) == Got(NormEnding(e), tail)
  {
    hide PutU8, PutText, GetU8, GetText, ProvenanceOf, ProvenanceCode;
    ProvenanceBack(e.provenance);
  }

  /** Every object of representable size comes back from the wire, whatever bytes follow it. */
  lemma WireRoundTrip(o: WarmthObject, tail: seq<Byte>)
    requires Sized(o)
    ensures WireObject(PutObject(o, tail)) == Got(Norm(o), tail)
    ensures WireFields(PutObject(o, tail)).Got?
    ensures WireFields(PutObject(o, tail)).value.FiniteNumbers() == o.FiniteNumbers()
  {
    hide PutHeader, PutOwners, PutStatus, PutNumbers, PutDeps, PutEnding;
    hide WireHeader, GetOwners, GetStatus, WireNumbers, GetDeps, GetEnding, NormOpt, NormEnding, ClampUnit, Finite;
    var t5 := PutEnding(EndingOf(o), tail);
    var t4 := PutDeps(o.depGens, t5);
    var t3 := PutNumbers(NumbersOf(o), t4);
    var t2 := PutStatus(StatusOf(o), t3);
    var t1 := PutOwners(OwnersOf(o), t2);
    EndingBack(EndingOf(o), tail);
    DepsBack(o.depGens, t5);
    NumbersBack(NumbersOf(o), t4);
    StatusBack(StatusOf(o), t3);
    OwnersBack(OwnersOf(o), t2);
    HeaderBack(HeaderOf(o), t1);
    EndingKeeps(EndingOf(o));
  }

  lemma EndingKeeps(e: Ending)
    ensures NormEnding(e) == Ending(NormEnding(e).invalidation, e.provenance)
  {
  }

  /** The snapshot reader takes the written object back exactly when its doubles are finite and its
      generation is within the snapshot's. */
  lemma PersistRoundTrip(o: WarmthObject, limit: Word64, tail: seq<Byte>)
    requires Sized(o)
    ensures PersistObject(PutObject(o, tail), limit) ==
      if o.FiniteNumbers() && o.warmthGen <= limit then Got(Norm(o), tail) else Fail
  {
    hide PutObject, WireFields, PersistObject, Finite, NormOpt, NormEnding, ClampUnit, Sized;
    WireRoundTrip(o, tail);
    ReadersAgree(PutObject(o, tail), limit);
  }

  // ---- normal forms and sizes ----

  lemma PutOptNorm(v: Option<Id128>, tail: seq<Byte>)
    ensures PutOpt(NormOpt(v), tail) == PutOpt(v, tail)
  {
  }

  lemma PutEndingNorm(e: Ending, tail: seq<Byte>)
    ensures PutEnding(NormEnding(e), tail) == PutEnding(e, tail)
  {
  }

  lemma NormIdempotent(o: WarmthObject)
    ensures Norm(Norm(o)) == Norm(o)
    ensures o.FiniteNumbers() ==> Norm(o).FiniteNumbers()
  {
    ClampUnitIdempotent(o.confidence);
    ClampUnitIdempotent(o.freshness);
  }

  /** The normal form of an object is written as the very same bytes. */
  lemma NormSameBytes(o: WarmthObject, tail: seq<Byte>)
    requires o.Clamped()
    ensures PutObject(Norm(o), tail) == PutObject(o, tail)
  {
    hide PutHeader, PutOpt, PutStatus, PutNumbers, PutDeps, PutEnding, NormOpt, NormEnding, ClampUnit;
    EndingKeeps(EndingOf(o));
    PutEndingNorm(EndingOf(o), tail);
    var t2 := PutStatus(StatusOf(o), PutNumbers(NumbersOf(o), PutDeps(o.depGens, PutEnding(EndingOf(o), tail))));
    PutOptNorm(o.engine, t2);
    PutOptNorm(o.replica, PutOpt(o.engine, t2));
    PutOptNorm(o.artifact, PutOpt(o.replica, PutOpt(o.engine, t2)));
    PutOptNorm(o.model, PutOpt(o.artifact, PutOpt(o.replica, PutOpt(o.engine, t2))));
  }

  function HeaderSize(h: Header): nat {
    61 + |h.device| + |h.backend| + |h.owner|
  }

  function OptSize(v: Option<Id128>): nat {
    if v.Some? then 17 else 1
  }

  function OwnersSize(w: Owners): nat {
    OptSize(w.model) + OptSize(w.artifact) + OptSize(w.replica) + OptSize(w.engine)
  }

  function EndingSize(e: Ending): nat {
    2 + if e.invalidation.Some? then 4 + |e.invalidation.value| else 0
  }

  function ObjectSize(o: WarmthObject): nat {
    HeaderSize(HeaderOf(o)) + OwnersSize(OwnersOf(o)) + 17 + |o.stateReason| + 78 + 9 * |o.depGens| + EndingSize(EndingOf(o))
  }

  lemma HeaderSizes(h: Header, s: seq<Byte>)
    ensures |PutHeader(h, s)| == HeaderSize(h) + |s|
    ensures WireHeader(s).Got? ==> |s| == HeaderSize(WireHeader(s).value) + |WireHeader(s).rest|
  {
    hide PutId, PutU8, PutText, GetId, GetU8, GetText;
  }

  lemma OwnersSizes(w: Owners, s: seq<Byte>)
    ensures |PutOwners(w, s)| <= OwnersSize(w) + |s|
    ensures GetOwners(s).Got? ==> |s| >= OwnersSize(GetOwners(s).value) + |GetOwners(s).rest|
  {
    hide PutOpt, GetOpt;
  }

  lemma CostsSize(s: seq<Byte>)
    ensures GetCosts(s).Got? ==> |s| == 32 + |GetCosts(s).rest|
  {
    hide GetU64, WordTime;
  }

  lemma NumbersSizes(s: seq<Byte>)
    ensures WireNumbers(s).Got? ==> |s| == 74 + |WireNumbers(s).rest|
  {
    hide GetCosts, GetU8, GetU64, ResidencyOf;
    CostsSize(s);
  }

  lemma {:induction false} KindsSize(m: map<DependencyKind, Word64>, k: nat, tail: seq<Byte>)
    requires k <= 12
    ensures |PutKinds(m, k, tail)| == 9 * CountKinds(m, k) + |tail|
    decreases 12 - k
  {
    hide PutU8, PutU64;
    if k < 12 {
      KindsSize(m, k + 1, tail);
    }
  }

  lemma DepsSize(m: map<DependencyKind, Word64>, tail: seq<Byte>)
    ensures |PutDeps(m, tail)| == 4 + 9 * |m| + |tail|
  {
    hide PutU32, PutKinds, CountKinds;
    KindsSize(m, 0, tail);
    CountAll(m, 0);
    assert Below(m, 0) == map[];
  }

  lemma PutObjectSize(o: WarmthObject, tail: seq<Byte>)
    ensures |PutObject(o, tail)| <= ObjectSize(o) + |tail|
  {
    hide PutHeader, PutOwners, PutStatus, PutNumbers, PutDeps, PutEnding, HeaderSize, OwnersSize;
    var t5 := PutEnding(EndingOf(o), tail);
    var t4 := PutDeps(o.depGens, t5);
    var t2 := PutStatus(StatusOf(o), PutNumbers(NumbersOf(o), t4));
    DepsSize(o.depGens, t5);
    OwnersSizes(OwnersOf(o), t2);
    HeaderSizes(HeaderOf(o), PutOwners(OwnersOf(o), t2));
  }

  lemma AssembledSize(h: Header, w: Owners, st: Status, n: Numbers, deps: map<DependencyKind, Word64>, e: Ending)
    ensures ObjectSize(Assemble(h, w, st, n, deps, e)) ==
      HeaderSize(h) + OwnersSize(w) + 17 + |st.reason| + 78 + 9 * |deps| + EndingSize(e)
  {
  }

  lemma ClampKeepsSize(o: WarmthObject)
    ensures ObjectSize(o.Clamp()) == ObjectSize(o)
  {
  }

  lemma WireFieldsSize(s: seq<Byte>)
    ensures WireFields(s).Got? ==> |s| >= ObjectSize(WireFields(s).value) + |WireFields(s).rest|
  {
    hide WireHeader, GetOwners, GetStatus, WireNumbers, GetDeps, GetEnding;
    hide HeaderSize, OwnersSize, EndingSize, ObjectSize, Assemble;
    if WireFields(s).Got? {
      var h := WireHeader(s);
      var w := GetOwners(h.rest);
      var st := GetStatus(w.rest);
      var n := WireNumbers(st.rest);
      var deps := GetDeps(n.rest);
      var e := GetEnding(deps.rest);
      HeaderSizes(h.value, s);
      OwnersSizes(w.value, h.rest);
      NumbersSizes(st.rest);
      EndingSizeOf(deps.rest);
      AssembledSize(h.value, w.value, st.value, n.value, deps.value, e.value);
    }
  }

  lemma EndingSizeOf(s: seq<Byte>)
    ensures GetEnding(s).Got? ==> |s| == EndingSize(GetEnding(s).value) + |GetEnding(s).rest|
  {
    hide GetEnding;
  }

  lemma WireObjectSize(s: seq<Byte>)
    ensures WireObject(s).Got? ==> |s| >= ObjectSize(WireObject(s).value) + |WireObject(s).rest|
  {
    hide WireFields, ObjectSize;
    WireFieldsSize(s);
    if WireFields(s).Got? {
      ClampKeepsSize(WireFields(s).value);
    }
  }

  /** Writing out what was read never takes more bytes than were read, so it still fits. */
  lemma RewriteNoLonger(s: seq<Byte>, tail: seq<Byte>)
    requires WireObject(s).Got?
    ensures |PutObject(WireObject(s).value, tail)| - |tail| <= |s| - |WireObject(s).rest|
  {
    hide PutObject, WireObject, ObjectSize;
    WireObjectSize(s);
    PutObjectSize(WireObject(s).value, tail);
  }

  lemma SizedWhenShort(o: WarmthObject, tail: seq<Byte>)
    requires |PutObject(o, tail)| < U32_LIMIT
    ensures Sized(o)
  {
    hide PutHeader, PutOwners, PutStatus, PutNumbers, PutDeps;
    var t5 := PutEnding(EndingOf(o), tail);
    var t4 := PutDeps(o.depGens, t5);
    var t2 := PutStatus(StatusOf(o), PutNumbers(NumbersOf(o), t4));
    DepsSize(o.depGens, t5);
    OwnersShort(OwnersOf(o), t2);
    HeaderSizes(HeaderOf(o), PutOwners(OwnersOf(o), t2));
  }

  lemma OwnersShort(w: Owners, tail: seq<Byte>)
    ensures |PutOwners(w, tail)| >= |tail|
  {
    OptShort(w.engine, tail);
    OptShort(w.replica, PutOpt(w.engine, tail));
    OptShort(w.artifact, PutOpt(w.replica, PutOpt(w.engine, tail)));
    OptShort(w.model, PutOpt(w.artifact, PutOpt(w.replica, PutOpt(w.engine, tail))));
    hide PutOpt;
  }

  lemma OptShort(v: Option<Id128>, tail: seq<Byte>)
    ensures |PutOpt(v, tail)| >= |tail|
  {
    hide PutId, PutU8;
  }

  // ---- several objects in a row ----

  function PutObjects(os: seq<WarmthObject>, i: nat, tail: seq<Byte>): (r: seq<Byte>)
    requires i <= |os|
    decreases |os| - i
  {
    if i == |os| then tail else PutObject(os[i], PutObjects(os, i + 1, tail))
  }

  function NormAll(os: seq<WarmthObject>): (r: seq<WarmthObject>)
    ensures |r| == |os|
    ensures forall i :: 0 <= i < |os| ==> r[i] == Norm(os[i])
  {
    seq(|os|, i requires 0 <= i < |os| => Norm(os[i]))
  }

  predicate AllSized(os: seq<WarmthObject>) {
    forall i :: 0 <= i < |os| ==> Sized(os[i])
  }
}
