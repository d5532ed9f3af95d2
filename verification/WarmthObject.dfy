/** A warmth object.  The registries hold objects by value, so an object is a value here and its
    setters return the updated object. */
module WarmthObjects {
  import opened Basics
  import opened Doubles
  import opened WarmthStates

  datatype DimensionStatus = COLD_DIM | DISCOVERED_DIM | PARTIAL_DIM | READY_DIM | VALID_DIM | SUSPECT_DIM

  datatype Residency = NONE | STORAGE_ONLY | HOST_ONLY | DEVICE_RESIDENT | MIRRORED

  datatype Provenance = LOCAL | COORDINATOR | DERIVED | REPORTED | MEASURED

  type Category = c: Byte | c <= 11
  type Lifecycle = c: Byte | c <= 6
  type DependencyKind = c: Byte | c <= 11

  const APPLICATION_DEFINED: Category := 11

  const CUDA_CONTEXT: nat := 5
  const KERNEL: nat := 6
  const GRAPH: nat := 7
  const ALLOCATOR: nat := 8

  function AllDims(d: DimensionStatus): (s: seq<DimensionStatus>)
    ensures |s| == 12 && forall i :: 0 <= i < 12 ==> s[i] == d
  {
    [d, d, d, d, d, d, d, d, d, d, d, d]
  }

  type Dimensions = s: seq<DimensionStatus> | |s| == 12 witness AllDims(COLD_DIM)

  /** The twelve dimensions with the four device-local ones, 5 to 8, set to one status. */
  predicate DeviceSet(d: Dimensions, d': Dimensions, status: DimensionStatus) {
    forall i :: 0 <= i < 12 ==> d'[i] == if 5 <= i <= 8 then status else d[i]
  }

  datatype WarmthObject = WarmthObject(
    id: Id128,
    category: Category,
    workload: Id128,
    node: Id128,
    device: Text,
    backend: Text,
    owner: Text,
    model: Option<Id128>,
    artifact: Option<Id128>,
    replica: Option<Id128>,
    engine: Option<Id128>,
    state: WarmthState,
    stateReason: Text,
    dims: Dimensions,
    lastPrepared: Timestamp,
    lastUsed: Timestamp,
    estimatedCost: Word64,
    measuredCost: Word64,
    estimatedTtr: Word64,
    observedTtr: Word64,
    residency: Residency,
    lifecycle: Lifecycle,
    confidence: Word64,
    freshness: Word64,
    warmthGen: Word64,
    depGens: map<DependencyKind, Word64>,
    invalidation: Option<Text>,
    provenance: Provenance)
  {
    predicate Ready() {
      ExecutionReady(state)
    }

    /** The guarded transition: an edge outside the table leaves the object unchanged. */
    function Transition(to: WarmthState, reason: Text): WarmthObject {
      if TransitionAllowed(state, to) then this.(state := to, stateReason := reason) else this
    }

    /** The four device-local dimensions all set to one status. */
    function SetDevice(status: DimensionStatus): WarmthObject {
      this.(dims := dims[CUDA_CONTEXT := status][KERNEL := status][GRAPH := status][ALLOCATOR := status])
    }

    predicate DeviceIs(status: DimensionStatus) {
      dims[CUDA_CONTEXT] == dims[KERNEL] == dims[GRAPH] == dims[ALLOCATOR] == status
    }

    /** Confidence and freshness only ever enter through the clamping setters. */
    predicate Clamped() {
      ClampUnit(confidence) == confidence && ClampUnit(freshness) == freshness
    }

    /** The four doubles that the snapshot encoder insists are finite. */
    predicate FiniteNumbers() {
      Finite(estimatedTtr) && Finite(observedTtr) && Finite(confidence) && Finite(freshness)
    }

    function Clamp(): WarmthObject {
      this.(confidence := ClampUnit(confidence), freshness := ClampUnit(freshness))
    }
  }

  /** The constructor of the source: COLD, nothing measured. */
  function NewObject(id: Id128, category: Category, workload: Id128, node: Id128,
                     device: Text, backend: Text): WarmthObject
  {
    WarmthObject(id, category, workload, node, device, backend, [],
                 None, None, None, None, COLD, [], AllDims(COLD_DIM), 0, 0, 0, 0, 0, 0,
                 NONE, 0, 0, 0, 0, map[], None, LOCAL)
  }

  /** PREPARING then WARM, falling back through COLD: the path shared by `reach_warm` of the
      coordinator and `make_warm` of the fabric. */
  function ReachWarm(o: WarmthObject, why: Text): WarmthObject {
    if o.Ready() then o
    else
      var prepared :=
        if TransitionAllowed(o.state, PREPARING) then o.Transition(PREPARING, why)
        else o.Transition(COLD, why).Transition(PREPARING, why);
      prepared.Transition(WARM, why)
  }

  /** From any of the ten states the path ends execution-ready, and only state and reason move. */
  lemma ReachWarmIsReady(o: WarmthObject, why: Text)
    ensures ReachWarm(o, why).Ready()
    ensures ReachWarm(o, why) == o.(state := ReachWarm(o, why).state, stateReason := ReachWarm(o, why).stateReason)
    ensures !o.Ready() ==> ReachWarm(o, why).state == WARM && ReachWarm(o, why).stateReason == why
  {
  }
}
