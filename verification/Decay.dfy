/** Deterministic decay of an object under a policy, and what any number of decays can do. */
module Decay {
  import opened Basics
  import opened Doubles
  import opened WarmthStates
  import opened WarmthObjects
  import opened Policies

  datatype Reason =
    | IDLE_ELAPSED | MEMORY_PRESSURE | PROCESS_RESTART | DEVICE_RESET | DEPENDENCY_GENERATION_CHANGE

  datatype Result = Result(changed: bool, state: WarmthState, reason: Reason)

  /** The external flags of one decay call. */
  datatype Flags = Flags(memoryPressure: bool, dependencyChanged: bool, deviceReset: bool, processRestart: bool)

  const IDLE := Flags(false, false, false, false)

  function ReasonText(r: Reason): Text {
    match r
    case IDLE_ELAPSED => Ascii("IDLE_ELAPSED")
    case MEMORY_PRESSURE => Ascii("MEMORY_PRESSURE")
    case PROCESS_RESTART => Ascii("PROCESS_RESTART")
    case DEVICE_RESET => Ascii("DEVICE_RESET")
    case DEPENDENCY_GENERATION_CHANGE => Ascii("DEPENDENCY_GENERATION_CHANGE")
  }

  function Keep(o: WarmthObject): Result {
    Result(false, o.state, IDLE_ELAPSED)
  }

  function ToStale(o: WarmthObject, reason: Reason): Result {
    if o.state != STALE then Result(true, STALE, reason) else Keep(o)
  }

  /** A threshold fires when it is positive and at least that long has passed. */
  predicate Fires(threshold: Word64, since: Timestamp, now: Timestamp) {
    Less(ZERO, threshold) && ElapsedAtLeast(since, now, threshold)
  }

  function Baseline(o: WarmthObject): Timestamp {
    if o.lastUsed != 0 then o.lastUsed else o.lastPrepared
  }

  function DecayIdle(o: WarmthObject, p: DecayPolicy, now: Timestamp): Result {
    var since := Baseline(o);
    match o.state
    case HOT =>
      if Fires(p.hotToWarm, since, now) then Result(true, WARM, IDLE_ELAPSED) else Keep(o)
    case WARM =>
      if Fires(p.warmToStale, since, now) then Result(true, STALE, IDLE_ELAPSED)
      else if Less(p.warmToPartial, p.warmToStale) && Fires(p.warmToPartial, since, now)
      then Result(true, PARTIALLY_WARM, IDLE_ELAPSED)
      else Keep(o)
    case PARTIALLY_WARM =>
      if Fires(p.partialToCold, since, now) then Result(true, COLD, IDLE_ELAPSED) else Keep(o)
    case STALE =>
      if Fires(p.staleToInvalidated, since, now) then Result(true, INVALIDATED, IDLE_ELAPSED) else Keep(o)
    case _ => Keep(o)
  }

  /** `decay_object`. */
  function DecayObject(o: WarmthObject, p: DecayPolicy, now: Timestamp, f: Flags): Result {
    if o.state.COLD? || o.state.DISCOVERED? || o.state.EVICTED? || o.state.FAILED? || o.state.INVALIDATED? then Keep(o)
    else if f.dependencyChanged then ToStale(o, DEPENDENCY_GENERATION_CHANGE)
    else if f.deviceReset && p.onDeviceReset then ToStale(o, DEVICE_RESET)
    else if f.processRestart && p.onProcessRestart then ToStale(o, PROCESS_RESTART)
    else if f.memoryPressure && p.onMemoryPressure && o.state == HOT then Result(true, WARM, MEMORY_PRESSURE)
    else if f.memoryPressure && p.onMemoryPressure && o.state == WARM then Result(true, PARTIALLY_WARM, MEMORY_PRESSURE)
    else if f.memoryPressure && p.onMemoryPressure && o.state == PARTIALLY_WARM then Result(true, COLD, MEMORY_PRESSURE)
    else DecayIdle(o, p, now)
  }

  /** What the fabric does with the proposal: the guarded transition, if something changed. */
  function ApplyDecay(o: WarmthObject, p: DecayPolicy, now: Timestamp, f: Flags): WarmthObject {
    var r := DecayObject(o, p, now, f);
    if r.changed then o.Transition(r.state, ReasonText(r.reason)) else o
  }

  /** Steps left before a state can decay no further. */
  function Rank(s: WarmthState): nat {
    match s
    case HOT => 4
    case WARM => 3
    case PARTIALLY_WARM => 2
    case PREPARING => 2
    case STALE => 1
    case _ => 0
  }

  /** A proposal is an edge of the table, so the guard never refuses it, and it is strictly downhill:
      a proposed state can never be execution-ready unless the object was hotter. */
  lemma ProposalIsDownhillEdge(o: WarmthObject, p: DecayPolicy, now: Timestamp, f: Flags)
    ensures var r := DecayObject(o, p, now, f);
            if r.changed then
              && TransitionAllowed(o.state, r.state)
              && Rank(r.state) < Rank(o.state)
              && Level(r.state) <= Level(o.state)
              && ApplyDecay(o, p, now, f) == o.(state := r.state, stateReason := ReasonText(r.reason))
            else r.state == o.state && ApplyDecay(o, p, now, f) == o
  {
  }

  predicate Settled(s: WarmthState) {
    s.COLD? || s.DISCOVERED? || s.EVICTED? || s.FAILED? || s.INVALIDATED?
  }

  predicate Forced(p: DecayPolicy, f: Flags) {
    f.dependencyChanged || (f.deviceReset && p.onDeviceReset) || (f.processRestart && p.onProcessRestart)
  }

  /** A changed dependency, device or process outweighs everything else: whatever is not settled goes stale. */
  lemma ForcedDecayIsStale(o: WarmthObject, p: DecayPolicy, now: Timestamp, f: Flags)
    requires Forced(p, f)
    ensures ApplyDecay(o, p, now, f).state == if Settled(o.state) then o.state else STALE
  {
    ProposalIsDownhillEdge(o, p, now, f);
  }

  /** Memory pressure takes a live object exactly one state down, however recently it was used. */
  lemma PressureStepsDown(o: WarmthObject, p: DecayPolicy, now: Timestamp, f: Flags)
    requires !Forced(p, f) && f.memoryPressure && p.onMemoryPressure && LiveWarm(o.state)
    ensures ApplyDecay(o, p, now, f).state == if o.state.HOT? then WARM else if o.state.WARM? then PARTIALLY_WARM else COLD
  {
    ProposalIsDownhillEdge(o, p, now, f);
  }

  /** Without flags an object changes exactly when the threshold of its own state has passed since it was
      last used, or last prepared if it never was. */
  lemma IdleThresholds(o: WarmthObject, p: DecayPolicy, now: Timestamp)
    ensures var since := if o.lastUsed != 0 then o.lastUsed else o.lastPrepared;
      DecayObject(o, p, now, IDLE).changed <==>
        || (o.state.HOT? && Fires(p.hotToWarm, since, now))
        || (o.state.WARM? && Fires(p.warmToStale, since, now))
        || (o.state.WARM? && Fires(p.warmToPartial, since, now) && Less(p.warmToPartial, p.warmToStale))
        || (o.state.PARTIALLY_WARM? && Fires(p.partialToCold, since, now))
        || (o.state.STALE? && Fires(p.staleToInvalidated, since, now))
  {
  }

  /** A finite threshold fires exactly when it is a positive number of seconds and at least that many have
      passed; clocks that ran backwards count as no time.  NaN and the infinities never fire. */
  lemma FiresExactly(threshold: Word64, since: Timestamp, now: Timestamp)
    ensures Finite(threshold) ==>
      (Fires(threshold, since, now) <==>
         Value(threshold) > 0.0 && (if now > since then now - since else 0) as real / 1000.0 >= Value(threshold))
    ensures !Finite(threshold) ==> !Fires(threshold, since, now)
  {
    if Finite(threshold) {
      ZeroIsZero();
      LessIsRealOrder(ZERO, threshold);
    }
  }

  lemma ZeroIsZero()
    ensures Finite(ZERO) && Value(ZERO) == 0.0
  {
    hide Size;
    SizeZero();
  }

  /** What a decay does, by outcome, with the causes in their order: a forced decay, then memory pressure, then
      idleness.  PREPARING goes stale when forced and otherwise waits. */
  predicate DecayedTo(o: WarmthObject, o': WarmthObject, p: DecayPolicy, now: Timestamp, f: Flags) {
    var device := f.deviceReset && p.onDeviceReset;
    var process := f.processRestart && p.onProcessRestart;
    var forced := f.dependencyChanged || device || process;
    var pressure := f.memoryPressure && p.onMemoryPressure;
    var since := if o.lastUsed != 0 then o.lastUsed else o.lastPrepared;
    var stale := Fires(p.warmToStale, since, now);
    var toStale := (o.state.HOT? || o.state.WARM? || o.state.PARTIALLY_WARM? || o.state.PREPARING?) && forced;
    var idleStale := o.state.WARM? && !forced && !pressure && stale;
    var toInvalid := o.state.STALE? && !forced && Fires(p.staleToInvalidated, since, now);
    var toCold := o.state.PARTIALLY_WARM? && !forced && (pressure || Fires(p.partialToCold, since, now));
    var toPartial := o.state.WARM? && !forced &&
      (pressure || (!stale && Less(p.warmToPartial, p.warmToStale) && Fires(p.warmToPartial, since, now)));
    var toWarm := o.state.HOT? && !forced && (pressure || Fires(p.hotToWarm, since, now));
    && (toStale || idleStale ==> o'.state == STALE)
    && (toInvalid ==> o'.state == INVALIDATED)
    && (toCold ==> o'.state == COLD)
    && (toPartial ==> o'.state == PARTIALLY_WARM)
    && (toWarm ==> o'.state == WARM)
    && (if toStale || idleStale || toInvalid || toCold || toPartial || toWarm
        then o' == o.(state := o'.state, stateReason := o'.stateReason)
        else o' == o)
    && (toStale ==> o'.stateReason == if f.dependencyChanged then Ascii("DEPENDENCY_GENERATION_CHANGE")
                                      else if device then Ascii("DEVICE_RESET") else Ascii("PROCESS_RESTART"))
    && (toCold || toPartial || toWarm ==>
          o'.stateReason == if pressure then Ascii("MEMORY_PRESSURE") else Ascii("IDLE_ELAPSED"))
    && (idleStale || toInvalid ==> o'.stateReason == Ascii("IDLE_ELAPSED"))
  }

  lemma DecayByOutcome(o: WarmthObject, p: DecayPolicy, now: Timestamp, f: Flags)
    ensures DecayedTo(o, ApplyDecay(o, p, now, f), p, now, f)
  {
    hide Fires, Less;
    ProposalIsDownhillEdge(o, p, now, f);
  }

  /** One decay call: the arguments the caller chose. */
  datatype Call = Call(policy: DecayPolicy, now: Timestamp, flags: Flags)

  function ApplyAll(o: WarmthObject, calls: seq<Call>): WarmthObject
    decreases |calls|
  {
    if calls == [] then o
    else
      var c := calls[0];
      ApplyAll(ApplyDecay(o, c.policy, c.now, c.flags), calls[1..])
  }

  /** How many calls of the sequence change the object. */
  function Changes(o: WarmthObject, calls: seq<Call>): nat
    decreases |calls|
  {
    if calls == [] then 0
    else
      var c := calls[0];
      (if DecayObject(o, c.policy, c.now, c.flags).changed then 1 else 0)
      + Changes(ApplyDecay(o, c.policy, c.now, c.flags), calls[1..])
  }

  lemma {:induction false} ChangesWithinRank(o: WarmthObject, calls: seq<Call>)
    ensures Changes(o, calls) + Rank(ApplyAll(o, calls).state) <= Rank(o.state)
    ensures Level(ApplyAll(o, calls).state) <= Level(o.state)
    decreases |calls|
  {
    if calls != [] {
      var c := calls[0];
      ProposalIsDownhillEdge(o, c.policy, c.now, c.flags);
      ChangesWithinRank(ApplyDecay(o, c.policy, c.now, c.flags), calls[1..]);
    }
  }

  /** Any sequence of decay calls, with any policies, times and flags, changes an object at most four
      times, never raises its level, and never makes an object execution-ready. */
  lemma AtMostFourChanges(o: WarmthObject, calls: seq<Call>)
    ensures Changes(o, calls) <= 4
    ensures Level(ApplyAll(o, calls).state) <= Level(o.state)
    ensures ApplyAll(o, calls).Ready() ==> o.Ready()
  {
    ChangesWithinRank(o, calls);
  }

  /** Repeated idle decay at a fixed time, run until nothing changes. */
  function SettleIdle(o: WarmthObject, p: DecayPolicy, now: Timestamp): (r: WarmthObject)
    ensures !DecayObject(r, p, now, IDLE).changed
    decreases Rank(o.state)
  {
    var r := DecayObject(o, p, now, IDLE);
    if r.changed then
      ProposalIsDownhillEdge(o, p, now, IDLE);
      SettleIdle(ApplyDecay(o, p, now, IDLE), p, now)
    else o
  }

  lemma {:induction false} SettleIdleNeverRises(o: WarmthObject, p: DecayPolicy, now: Timestamp)
    ensures Level(SettleIdle(o, p, now).state) <= Level(o.state)
    decreases Rank(o.state)
  {
    ProposalIsDownhillEdge(o, p, now, IDLE);
    if DecayObject(o, p, now, IDLE).changed {
      SettleIdleNeverRises(ApplyDecay(o, p, now, IDLE), p, now);
    }
  }

  lemma FiresLater(threshold: Word64, since: Timestamp, now: Timestamp, later: Timestamp)
    requires now <= later && Fires(threshold, since, now)
    ensures Fires(threshold, since, later)
  {
    ElapsedMonotone(since, now, later, threshold);
  }

  /** Waiting longer never leaves an object warmer: the fixed point of idle decay is antitone in time. */
  lemma {:induction false} SettleIdleAntitone(o: WarmthObject, p: DecayPolicy, now: Timestamp, later: Timestamp)
    requires now <= later
    ensures Level(SettleIdle(o, p, later).state) <= Level(SettleIdle(o, p, now).state)
    decreases Rank(o.state)
  {
    ProposalIsDownhillEdge(o, p, now, IDLE);
    ProposalIsDownhillEdge(o, p, later, IDLE);
    var r := DecayObject(o, p, now, IDLE);
    var r' := DecayObject(o, p, later, IDLE);
    SettleIdleNeverRises(o, p, later);
    if r.changed {
      var since := Baseline(o);
      forall th | Fires(th, since, now) ensures Fires(th, since, later) {
        FiresLater(th, since, now, later);
      }
      if r' == r {
        SettleIdleAntitone(ApplyDecay(o, p, now, IDLE), p, now, later);
      } else {
        assert o.state == WARM && r'.state == STALE;
        SettleIdleNeverRises(ApplyDecay(o, p, later, IDLE), p, later);
      }
    }
  }
}
