/** The in-process fabric: its state as a value, one step per critical section, and the world of
    concurrent `warm` calls around it. */
module FabricModel {
  import opened Basics
  import opened WarmthStates
  import opened WarmthObjects
  import opened Policies
  import opened Decay
  import opened Budgets
  import opened Snapshots
  import opened SnapshotGrammar

  datatype Config = Config(workload: Id128, node: Id128, device: Text, backend: Text, policy: Policy)

  datatype Fab = Fab(
    config: Config,
    objects: map<Id128, WarmthObject>,
    budget: Ledger,
    warmthGen: Word64,
    depGen: Word64,
    policyGen: Word64)
  {
    predicate ReadyAt(id: Id128) {
      id in objects && objects[id].Ready()
    }

    function Put(o: WarmthObject, id: Id128): Fab {
      this.(objects := objects[id := o])
    }
  }

  function Start(config: Config): Fab {
    Fab(config, map[], EmptyLedger(config.policy.budgets), 1, 1, config.policy.generation)
  }

  // ---- operations without a concurrent part ----

  /** The ownership aspects a caller may attach at registration. */
  datatype Owner = Owner(logical: Text, model: Option<Id128>, artifact: Option<Id128>,
                         replica: Option<Id128>, engine: Option<Id128>)

  function Registered(f: Fab, id: Id128, category: Category, owner: Owner, gen: Word64): WarmthObject {
    NewObject(id, category, f.config.workload, f.config.node, f.config.device, f.config.backend)
      .(owner := owner.logical, model := owner.model, artifact := owner.artifact, replica := owner.replica,
        engine := owner.engine, warmthGen := gen)
  }

  /** `register_object`; the id is the content digest of owner and category, `gen` the warmth generation as
      it was read before the lock was taken. */
  function Register(f: Fab, id: Id128, category: Category, owner: Owner, gen: Word64): Fab {
    f.Put(Registered(f, id, category, owner, gen), id)
  }

  /** `invalidate`: refused when INVALIDATED cannot be entered; the allocator dimension is kept. */
  function Invalidate(f: Fab, id: Id128, reason: Text): (bool, Fab) {
    if id !in f.objects || !TransitionAllowed(f.objects[id].state, INVALIDATED) then (false, f)
    else
      var o := f.objects[id].(invalidation := Some(reason)).Transition(INVALIDATED, Ascii("invalidation"));
      (true, f.Put(o.(dims := o.dims[CUDA_CONTEXT := COLD_DIM][KERNEL := COLD_DIM][GRAPH := COLD_DIM]), id))
  }

  function Demote(f: Fab, id: Id128): (bool, Fab) {
    if id !in f.objects then (false, f)
    else
      match f.objects[id].state
      case HOT => (true, f.Put(f.objects[id].Transition(WARM, Ascii("demote")), id))
      case WARM => (true, f.Put(f.objects[id].Transition(PARTIALLY_WARM, Ascii("demote")), id))
      case PARTIALLY_WARM => (true, f.Put(f.objects[id].Transition(COLD, Ascii("demote")), id))
      case _ => (false, f)
  }

  /** `evict`: device-resident parts drop to the host and the four device dimensions go cold. */
  function Evict(f: Fab, id: Id128): (bool, Fab) {
    if id !in f.objects || !TransitionAllowed(f.objects[id].state, EVICTED) then (false, f)
    else
      var o := f.objects[id].Transition(EVICTED, Ascii("evict"));
      var residency := if o.residency == DEVICE_RESIDENT || o.residency == MIRRORED then HOST_ONLY else o.residency;
      (true, f.Put(o.(residency := residency).SetDevice(COLD_DIM), id))
  }

  function WarmToReady(f: Fab, id: Id128): (bool, Fab) {
    if id !in f.objects then (false, f)
    else
      var o := f.objects[id].(dims := AllDims(VALID_DIM));
      var o1 := if o.Ready() then o else ReachWarm(o, Ascii("warm_to_ready")).(invalidation := None);
      var o2 := o1.(residency := DEVICE_RESIDENT, provenance := MEASURED);
      (o2.Ready(), f.Put(o2, id))
  }

  function SetDimensions(f: Fab, id: Id128, dims: Dimensions): (bool, Fab) {
    if id !in f.objects then (false, f) else (true, f.Put(f.objects[id].(dims := dims), id))
  }

  function MarkUsed(f: Fab, id: Id128, now: Timestamp): (bool, Fab) {
    if id !in f.objects then (false, f) else (true, f.Put(f.objects[id].(lastUsed := now), id))
  }

  function DecayEach(m: map<Id128, WarmthObject>, p: DecayPolicy, now: Timestamp, flags: Flags): map<Id128, WarmthObject> {
    map id | id in m :: ApplyDecay(m[id], p, now, flags)
  }

  function DecayAll(f: Fab, now: Timestamp, flags: Flags): Fab {
    f.(objects := DecayEach(f.objects, f.config.policy.decay, now, flags))
  }

  // ---- the three phases of warm ----

  /** Phase 1, under the lock: admission and PREPARING.  A refused transition gives the hold back. */
  function WarmBegin(f: Fab, id: Id128): (Option<Hold>, Fab) {
    if id !in f.objects then (None, f)
    else
      match Acquire(f.budget)
      case None => (None, f)
      case Some((hold, budget)) =>
        if TransitionAllowed(f.objects[id].state, PREPARING)
        then (Some(hold), f.(budget := budget).Put(f.objects[id].Transition(PREPARING, Ascii("warming")), id))
        else (None, f.(budget := ReleaseHold(budget, hold)))
  }

  /** What the unlocked phase 2 measured. */
  datatype Outcome = Outcome(success: bool, duration: Word64, bytes: Word64)

  function Completed(o: WarmthObject, r: Outcome, now: Timestamp): WarmthObject {
    o.Transition(WARM, Ascii("warm_completed"))
      .(invalidation := None, measuredCost := r.bytes, observedTtr := r.duration, lastPrepared := now,
        lastUsed := now, provenance := MEASURED, residency := DEVICE_RESIDENT)
  }

  /** Phase 3, under the lock again: release, then apply the outcome if the object is still there. */
  function WarmFinish(f: Fab, id: Id128, hold: Hold, r: Outcome, now: Timestamp): (bool, Fab) {
    var f1 := f.(budget := ReleaseHold(f.budget, hold));
    if id !in f.objects then (false, f1)
    else if r.success then (true, f1.Put(Completed(f.objects[id], r, now), id))
    else (false, f1.Put(f.objects[id].Transition(FAILED, Ascii("warming_hook_failed")), id))
  }

  // ---- snapshot and recovery ----

  /** Objects in ascending id order, as the ordered registry lists them. */
  ghost function Listed(m: map<Id128, WarmthObject>): seq<WarmthObject>
    decreases |m|
  {
    if m == map[] then []
    else
      var id := Least(m.Keys);
      assert |(m - {id}).Keys| < |m| by {
        assert (m - {id}).Keys == m.Keys - {id};
      }
      [m[id]] + Listed(m - {id})
  }

  ghost function TakeSnapshot(f: Fab): Snapshot {
    Snapshot(1, f.warmthGen, f.depGen, f.policyGen, f.config.policy, Listed(f.objects))
  }

  const REVALIDATE: Text := Ascii("restart_revalidation_required")

  /** Nothing device-local survives a restart. */
  function Revalidate(o: WarmthObject): WarmthObject {
    (if o.Ready() then o.Transition(DISCOVERED, Ascii("restart_revalidation")) else o)
      .(invalidation := Some(REVALIDATE)).SetDevice(COLD_DIM).(provenance := REPORTED)
  }

  function Restore(os: seq<WarmthObject>): map<Id128, WarmthObject> {
    if os == [] then map[]
    else Restore(os[..|os| - 1])[os[|os| - 1].id := Revalidate(os[|os| - 1])]
  }

  /** The critical section of `recover`, after the file has been decoded. */
  function Recover(f: Fab, s: Snapshot): Fab {
    Fab(f.config.(policy := s.policy), Restore(s.objects), EmptyLedger(s.policy.budgets),
        NextGeneration(s.warmthGen), NextGeneration(s.depGen), NextGeneration(s.policyGen))
  }

  /** `recover`: a file that does not decode changes nothing. */
  function Load(f: Fab, file: seq<Byte>): (bool, Fab) {
    match Decode(file)
    case None => (false, f)
    case Some(s) => (true, Recover(f, s))
  }

  // ---- the world around the fabric ----

  /** A `warm` call between its phases 1 and 3. */
  datatype Pending = Pending(id: Id128, hold: Hold)

  datatype World = World(fab: Fab, pending: map<Word64, Pending>)

  datatype Event =
    | EvRegister(id: Id128, category: Category, owner: Owner, gen: Word64)
    | EvInvalidate(id: Id128, reason: Text)
    | EvDemote(id: Id128)
    | EvEvict(id: Id128)
    | EvWarmToReady(id: Id128)
    | EvSetDimensions(id: Id128, dims: Dimensions)
    | EvMarkUsed(id: Id128, now: Timestamp)
    | EvDecay(now: Timestamp, flags: Flags)
    | EvBumpDependency
    | EvBumpWarmth
    | EvWarmBegin(call: Word64, id: Id128)
    | EvWarmFinish(call: Word64, outcome: Outcome, now: Timestamp)
    | EvRecover(file: seq<Byte>)

  /** The snapshot an event recovers from, if it does. */
  function Loaded(e: Event): Option<Snapshot> {
    if e.EvRecover? then Decode(e.file) else None
  }

  function FabStep(w: World, e: Event): Fab {
    match e
    case EvRegister(id, category, owner, gen) => Register(w.fab, id, category, owner, gen)
    case EvInvalidate(id, reason) => Invalidate(w.fab, id, reason).1
    case EvDemote(id) => Demote(w.fab, id).1
    case EvEvict(id) => Evict(w.fab, id).1
    case EvWarmToReady(id) => WarmToReady(w.fab, id).1
    case EvSetDimensions(id, dims) => SetDimensions(w.fab, id, dims).1
    case EvMarkUsed(id, now) => MarkUsed(w.fab, id, now).1
    case EvDecay(now, flags) => DecayAll(w.fab, now, flags)
    case EvBumpDependency => w.fab.(depGen := NextGeneration(w.fab.depGen))
    case EvBumpWarmth => w.fab.(warmthGen := NextGeneration(w.fab.warmthGen))
    case EvWarmBegin(call, id) => WarmBegin(w.fab, id).1
    case EvWarmFinish(call, r, now) =>
      if call in w.pending then WarmFinish(w.fab, w.pending[call].id, w.pending[call].hold, r, now).1 else w.fab
    case EvRecover(file) => Load(w.fab, file).1
  }

  function PendingStep(w: World, e: Event): map<Word64, Pending> {
    match e
    case EvWarmBegin(call, id) =>
      var hold := WarmBegin(w.fab, id).0;
      if hold.Some? then w.pending[call := Pending(id, hold.value)] else w.pending
    case EvWarmFinish(call, _, _) => w.pending - {call}
    case _ => w.pending
  }

  function Step(w: World, e: Event): World {
    World(FabStep(w, e), PendingStep(w, e))
  }

  /** A call starts once and finishes only if it was admitted; no counter is about to wrap.  A recovery may
      happen at any time, from any file. */
  predicate Enabled(w: World, e: Event) {
    match e
    case EvWarmBegin(call, _) => call !in w.pending && Headroom(w.fab.budget)
    case EvWarmFinish(call, _, _) => call in w.pending
    case _ => true
  }

  predicate Run(config: Config, worlds: seq<World>, events: seq<Event>) {
    && |worlds| == |events| + 1
    && worlds[0] == World(Start(config), map[])
    && forall i :: 0 <= i < |events| ==> Enabled(worlds[i], events[i]) && worlds[i + 1] == Step(worlds[i], events[i])
  }
}
