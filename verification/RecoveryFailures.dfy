/** Runs of the fabric, each from files that decode, in which the properties with an exact condition fail. */
module RecoveryFailures {
  import opened Basics
  import opened Doubles
  import opened WarmthStates
  import opened WarmthObjects
  import opened Policies
  import opened Budgets
  import opened Snapshots
  import opened ObjectGrammar
  import opened SnapshotGrammar
  import opened FabricModel
  import opened FabricProofs
  import opened FabricEffects
  import opened Recovery

  // ---- files ----

  /** A small object of a workload and node 1. */
  function Sample(state: WarmthState): WarmthObject {
    NewObject(1, APPLICATION_DEFINED, 1, 1, [], []).(state := state)
  }

  function Holding(state: WarmthState): Snapshot {
    Snapshot(1, 1, 1, 1, DefaultPolicy(1), [Sample(state)])
  }

  lemma DefaultsFinite()
    ensures DefaultPolicy(1).FiniteNumbers()
  {
  }

  lemma HoldingReadable(state: WarmthState)
    ensures FiniteSnapshot(Holding(state)) && Readable(Holding(state))
  {
    hide PutPayload, PutObject;
    var s, o := Holding(state), Sample(state);
    DefaultsFinite();
    assert Finite(0);
    PayloadSize(s);
    assert PutObjects(s.objects, 1, []) == [];
    assert PutObjects(s.objects, 0, []) == PutObject(o, []);
    PutObjectSize(o, []);
  }

  /** For each of the ten states there is a file that decodes and holds one object, in that state. */
  lemma FileHolding(state: WarmthState)
    ensures exists b :: Decode(b) == Some(NormSnapshot(Holding(state)))
  {
    hide Decode, Readable, FiniteSnapshot, NormSnapshot, PutPayload;
    HoldingReadable(state);
    SnapshotRoundTrip(Holding(state));
    var b := Encode(Holding(state)).value;
    assert Decode(b) == Some(NormSnapshot(Holding(state)));
  }

  /** Recovering such a file leaves one object, revalidated. */
  lemma HoldingRecovered(state: WarmthState)
    ensures var s := NormSnapshot(Holding(state));
            && s.objects == [Norm(Sample(state))] && s.objects[0].id == 1 && s.objects[0].state == state
            && s.warmthGen == s.policyGen == 1 && s.policy == DefaultPolicy(1)
            && Restore(s.objects) == map[1 := Revalidate(Norm(Sample(state)))]
  {
    hide Norm, Revalidate;
    var s := NormSnapshot(Holding(state));
    NormHasId(Sample(state));
    NormKeepsState(Sample(state));
    assert s.objects == [Norm(Sample(state))];
    assert s.objects[..0] == [];
    assert Restore([]) == map[];
  }

  // ---- reachable worlds ----

  ghost predicate Reachable(config: Config, w: World) {
    exists worlds, events :: Run(config, worlds, events) && worlds[|events|] == w
  }

  lemma StartReachable(config: Config)
    ensures Reachable(config, World(Start(config), map[]))
  {
    var w := World(Start(config), map[]);
    var none: seq<Event> := [];
    assert Run(config, [w], none) && [w][|none|] == w;
  }

  lemma ReachStep(config: Config, w: World, e: Event)
    requires Reachable(config, w) && Enabled(w, e)
    ensures Reachable(config, Step(w, e))
  {
    hide Step, Enabled;
    var worlds, events :| Run(config, worlds, events) && worlds[|events|] == w;
    var worlds', events' := worlds + [Step(w, e)], events + [e];
    forall i | 0 <= i < |events'|
      ensures Enabled(worlds'[i], events'[i]) && worlds'[i + 1] == Step(worlds'[i], events'[i])
    {
      if i < |events| {
        assert worlds'[i] == worlds[i] && worlds'[i + 1] == worlds[i + 1] && events'[i] == events[i];
      }
    }
    assert Run(config, worlds', events') && worlds'[|events'|] == Step(w, e);
  }

  lemma StepIs(w: World, e: Event)
    ensures Step(w, e).fab == FabStep(w, e)
  {
    hide FabStep;
  }

  lemma AlwaysEnabled(w: World, e: Event)
    requires e.EvRegister? || e.EvRecover?
    ensures Enabled(w, e)
  {
  }

  // ---- a file with a HOT object ----

  /** Whatever the configuration, recovering a file with a HOT object right after the start ends the time in
      which ready objects carry no reason, and in which no object is HOT. */
  lemma HotFileBreaksClean(config: Config)
    ensures exists w: World, e: Event ::
              && Reachable(config, w) && Enabled(w, e) && Loaded(e).Some?
              && Clean(w.fab) && !Clean(Step(w, e).fab)
              && Cool(w.fab) && !Cool(Step(w, e).fab)
  {
    hide Decode, NormSnapshot, FabStep, Reachable;
    var w := World(Start(config), map[]);
    StartReachable(config);
    FileHolding(HOT);
    HoldingRecovered(HOT);
    var b :| Decode(b) == Some(NormSnapshot(Holding(HOT)));
    var e := EvRecover(b);
    assert !LoadsCold(e);
    assert Clean(w.fab) && Cool(w.fab);
    StepClean(w, e);
    StepCool(w, e);
    assert Step(w, e).fab == FabStep(w, e);
  }

  /** Whatever the configuration, recovering a file with a PREPARING object leaves it PREPARING with no call in
      progress. */
  lemma PreparingFileBreaks(config: Config)
    ensures exists w: World, e: Event ::
              && Reachable(config, w) && Enabled(w, e) && Loaded(e).Some? && w.pending == map[]
              && PreparingBacked(w) && !PreparingBacked(Step(w, e))
  {
    hide Decode, NormSnapshot, FabStep, Reachable;
    var w := World(Start(config), map[]);
    StartReachable(config);
    FileHolding(PREPARING);
    HoldingRecovered(PREPARING);
    var b :| Decode(b) == Some(NormSnapshot(Holding(PREPARING)));
    var e := EvRecover(b);
    assert Loaded(e).value.objects[0].state.PREPARING?;
    assert !CallFor(w, Loaded(e).value.objects[0].id);
    StepBacked(w, e);
  }

  // ---- a save after a recovery ----

  /** Whatever the configuration, after one recovery the two policy generations differ, and the next save
      writes a file that does not decode. */
  lemma RecoveryBreaksNextSave(config: Config)
    ensures exists w: World, e: Event ::
              && Reachable(config, w) && Enabled(w, e) && Loaded(e).Some?
              && InStep(w.fab) && !InStep(Step(w, e).fab)
              && Encode(TakeSnapshot(Step(w, e).fab)).Some?
              && Decode(Encode(TakeSnapshot(Step(w, e).fab)).value).None?
  {
    hide Decode, NormSnapshot, FabStep, Reachable, TakeSnapshot, PutPayload, FiniteSnapshot, Recover, InStep;
    hide Step, Enabled, Start;
    var w := World(Start(config), map[]);
    StartReachable(config);
    FileHolding(COLD);
    HoldingRecovered(COLD);
    var b :| Decode(b) == Some(NormSnapshot(Holding(COLD)));
    var e := EvRecover(b);
    AlwaysEnabled(w, e);
    StepIs(w, e);
    LoadStep(w, e);
    RecoveryInStep(w.fab, b);
    SecondSaveUnreadable(w.fab, b);
    StartInStep(config);
  }

  lemma StartInStep(config: Config)
    ensures InStep(Start(config))
  {
  }

  // ---- a recovery under a warm call in progress ----

  const CONFIG: Config := Config(1, 1, [], [], DefaultPolicy(1))

  const NOBODY: Owner := Owner([], None, None, None, None)

  /** One cold object, registered in generation 1. */
  function Registered1(): World {
    Step(World(Start(CONFIG), map[]), EvRegister(1, APPLICATION_DEFINED, NOBODY, 1))
  }

  lemma FreshAdmits()
    ensures Acquire(EmptyLedger(UNLIMITED)).Some? && Headroom(EmptyLedger(UNLIMITED))
  {
  }

  lemma RegisteredCold()
    ensures Reachable(CONFIG, Registered1())
    ensures var w := Registered1();
            && w.pending == map[] && w.fab.budget == EmptyLedger(UNLIMITED) && w.fab.warmthGen == 1
            && w.fab.objects.Keys == {1} && w.fab.objects[1].state == COLD && Savable(w.fab.objects[1], 1, 1)
  {
    hide Reachable;
    StartReachable(CONFIG);
    ReachStep(CONFIG, World(Start(CONFIG), map[]), EvRegister(1, APPLICATION_DEFINED, NOBODY, 1));
    ZeroDelivered();
  }

  /** The first phase of a call on a cold object admits it from a fresh tracker. */
  lemma BeginAdmits(w: World, call: Word64)
    requires w.fab.budget == EmptyLedger(UNLIMITED) && call !in w.pending
    requires 1 in w.fab.objects && w.fab.objects[1].state == COLD
    ensures Enabled(w, EvWarmBegin(call, 1)) && WarmBegin(w.fab, 1).0.Some?
    ensures var w' := Step(w, EvWarmBegin(call, 1));
            && w'.pending == w.pending[call := Pending(1, WarmBegin(w.fab, 1).0.value)]
            && w'.fab == WarmBegin(w.fab, 1).1
            && w'.fab.objects.Keys == w.fab.objects.Keys && w'.fab.objects[1].id == w.fab.objects[1].id
  {
    hide Acquire;
    FreshAdmits();
  }

  lemma ColdRecovered(w: World, b: seq<Byte>)
    requires Decode(b) == Some(NormSnapshot(Holding(COLD)))
    ensures var w' := Step(w, EvRecover(b));
            && Enabled(w, EvRecover(b)) && w' == World(Recover(w.fab, Decode(b).value), w.pending)
            && w'.fab.budget == EmptyLedger(UNLIMITED) && w'.fab.warmthGen == 2
            && 1 in w'.fab.objects && w'.fab.objects[1].state == COLD
  {
    hide Decode, Restore, NormSnapshot, Norm;
    HoldingRecovered(COLD);
    ColdStaysCold(Norm(Sample(COLD)));
    NormKeepsState(Sample(COLD));
  }

  lemma ColdStaysCold(o: WarmthObject)
    requires o.state == COLD
    ensures Revalidate(o).state == COLD
  {
  }

  /** Register, begin a call, recover, begin a second call, finish the first: the first call's completion
      releases the second call's reservations, so the tracker is balanced while that call is in progress. */
  lemma RecoveryConfusesReservations()
    ensures exists w: World, e: Event ::
              && Reachable(CONFIG, w) && Enabled(w, e) && Loaded(e).Some?
              && Admission(w) && !Admission(Step(w, e))
    ensures exists w: World :: Reachable(CONFIG, w) && |w.pending| == 1 && w.fab.budget.Balanced() && !Admission(w)
  {
    hide Decode, Reachable, Step, Recover, WarmBegin, WarmFinish, NormSnapshot, Holding, Admission, Enabled;
    FileHolding(COLD);
    var b :| Decode(b) == Some(NormSnapshot(Holding(COLD)));
    var w1 := Registered1();
    RegisteredCold();
    BeginAdmits(w1, 1);
    var w2 := Step(w1, EvWarmBegin(1, 1));
    ReachStep(CONFIG, w1, EvWarmBegin(1, 1));
    ColdRecovered(w2, b);
    var w3 := Step(w2, EvRecover(b));
    ReachStep(CONFIG, w2, EvRecover(b));
    UnderACall(w1, w2, b);
    BeginAdmits(w3, 2);
    var w4 := Step(w3, EvWarmBegin(2, 1));
    ReachStep(CONFIG, w3, EvWarmBegin(2, 1));
    var e := EvWarmFinish(1, Outcome(true, 0, 0), 0);
    FinishStep(w4, 1, Outcome(true, 0, 0), 0);
    ReachStep(CONFIG, w4, e);
    HoldingRecovered(COLD);
    StaleCompletionReleases(w1.fab, Decode(b).value, 1, 1, Outcome(true, 0, 0), 0);
    BalancedUnderACall(Step(w4, e), 2);
  }

  lemma UnderACall(w1: World, w2: World, b: seq<Byte>)
    requires Decode(b).Some? && w1 == Registered1() && w2 == Step(w1, EvWarmBegin(1, 1)) && 1 in w2.pending
    ensures Admission(w2) && Enabled(w2, EvRecover(b)) && Loaded(EvRecover(b)).Some?
    ensures !Admission(Step(w2, EvRecover(b)))
  {
    hide Decode, Accounts, WarmBegin, Step;
    RegisteredCold();
    RegisteredAdmission(w1);
    FreshAdmits();
    BeginKeepsAdmission(w1, 1, 1);
    StepAdmission(w2, EvRecover(b));
  }

  lemma RegisteredAdmission(w: World)
    requires w == Registered1()
    ensures Admission(w)
  {
    StartAdmission(CONFIG);
    StepAdmission(World(Start(CONFIG), map[]), EvRegister(1, APPLICATION_DEFINED, NOBODY, 1));
  }

  lemma FinishStep(w: World, call: Word64, r: Outcome, now: Timestamp)
    requires call in w.pending
    ensures Enabled(w, EvWarmFinish(call, r, now))
    ensures Step(w, EvWarmFinish(call, r, now)) ==
            World(WarmFinish(w.fab, w.pending[call].id, w.pending[call].hold, r, now).1, w.pending - {call})
  {
    hide WarmFinish;
  }

  lemma BalancedUnderACall(w: World, call: Word64)
    requires w.fab.budget.Balanced() && call in w.pending
    ensures !Admission(w)
  {
    hide Accounts;
    assert call in Holds(w.pending);
    if Admission(w) {
      BalancedIffNoHolds(w.fab.budget, Holds(w.pending));
    }
  }

  // ---- registries that cannot be saved ----

  const NAN: Word64 := 0x7FF8_0000_0000_0000

  /** Register, begin, finish with a duration that is not a number: the next save fails to encode. */
  lemma NanDurationBreaksSave()
    ensures exists w: World, e: Event ::
              && Reachable(CONFIG, w) && Enabled(w, e) && e.EvWarmFinish? && IsNaN(e.outcome.duration)
              && AllSavable(w.fab) && !AllSavable(Step(w, e).fab)
              && Encode(TakeSnapshot(Step(w, e).fab)).None?
  {
    hide Reachable, Step, WarmBegin, WarmFinish, Enabled, AllSavable, FabStep, TakeSnapshot;
    var w1 := Registered1();
    RegisteredCold();
    RegisteredSavable();
    BeginAdmits(w1, 1);
    var w2 := Step(w1, EvWarmBegin(1, 1));
    ReachStep(CONFIG, w1, EvWarmBegin(1, 1));
    StepIs(w1, EvWarmBegin(1, 1));
    StepSavable(w1, EvWarmBegin(1, 1));
    var r := Outcome(true, NAN, 0);
    var e := EvWarmFinish(1, r, 0);
    FinishStep(w2, 1, r, 0);
    StepIs(w2, e);
    StepSavable(w2, e);
    FinishedNan(w2.fab, w2.pending[1].hold);
    NotEncoded(Step(w2, e).fab);
  }

  lemma RegisteredSavable()
    ensures AllSavable(Registered1().fab)
  {
    hide Savable;
    RegisteredCold();
  }

  lemma FinishedNan(f: Fab, hold: Hold)
    requires f.objects.Keys == {1}
    ensures var f' := WarmFinish(f, 1, hold, Outcome(true, NAN, 0), 0).1;
            f'.objects.Keys == {1} && !f'.objects[1].FiniteNumbers()
    ensures f.objects[1].id == 1 ==> WarmFinish(f, 1, hold, Outcome(true, NAN, 0), 0).1.objects[1].id == 1
  {
    hide TransitionAllowed;
    assert !Finite(NAN);
  }

  lemma NotEncoded(f: Fab)
    requires f.objects.Keys == {1} && f.objects[1].id == 1 && !f.objects[1].FiniteNumbers()
    ensures Encode(TakeSnapshot(f)).None?
  {
    hide Listed, PutPayload;
    ListedIs(f.objects);
    assert IdAmong(1, Listed(f.objects));
  }

  /** The generation a registration reads without the lock can be ahead of the registry: bump twice, read 3,
      recover a file of generation 1, file the object with 3. */
  lemma RecoveryBetweenReadAndFiling()
    ensures exists worlds: seq<World>, events: seq<Event> ::
              && Run(CONFIG, worlds, events) && |events| == 4
              && events[3].EvRegister? && events[3].gen == worlds[2].fab.warmthGen
              && AllSavable(worlds[3].fab) && !AllSavable(worlds[4].fab)
  {
    hide Decode, Step, NormSnapshot, Holding, Enabled, AllSavable;
    FileHolding(COLD);
    var b :| Decode(b) == Some(NormSnapshot(Holding(COLD)));
    var w0 := World(Start(CONFIG), map[]);
    var w1 := Step(w0, EvBumpWarmth);
    var w2 := Step(w1, EvBumpWarmth);
    var w3 := Step(w2, EvRecover(b));
    var e := EvRegister(1, APPLICATION_DEFINED, NOBODY, w2.fab.warmthGen);
    var w4 := Step(w3, e);
    BumpedTwice(w0, w1, w2);
    ColdRecovered(w2, b);
    RecoverySavable(w2.fab, b);
    StepSavable(w3, e);
    StepIs(w3, e);
    assert Enabled(w3, e) by {
      AlwaysEnabled(w3, e);
    }
    var worlds := [w0, w1, w2, w3, w4];
    var events := [EvBumpWarmth, EvBumpWarmth, EvRecover(b), e];
    assert Run(CONFIG, worlds, events);
  }

  lemma BumpedTwice(w0: World, w1: World, w2: World)
    requires w0 == World(Start(CONFIG), map[])
    requires w1 == Step(w0, EvBumpWarmth) && w2 == Step(w1, EvBumpWarmth)
    ensures w2.fab.warmthGen == 3 && Enabled(w0, EvBumpWarmth) && Enabled(w1, EvBumpWarmth)
  {
  }
}
