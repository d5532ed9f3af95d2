/** From a running fabric to a snapshot file and back: what a save always yields, what recovery keeps,
    and why a save after a recovery cannot be read. */
module Recovery {
  import opened Basics
  import opened Doubles
  import opened WarmthStates
  import opened WarmthObjects
  import opened Policies
  import opened Decay
  import opened Budgets
  import opened Snapshots
  import opened ObjectGrammar
  import opened SnapshotGrammar
  import opened FabricModel
  import opened FabricProofs

  // ---- every run keeps the fabric fit for saving ----

  /** An object as a save must find it: filed under its own identity, finite and clamped, of a generation
      already reached. */
  predicate Savable(o: WarmthObject, id: Id128, gen: Word64) {
    o.id == id && Delivered(o) && o.warmthGen <= gen
  }

  ghost predicate AllSavable(f: Fab) {
    forall id :: id in f.objects ==> Savable(f.objects[id], id, f.warmthGen)
  }

  /** A registration files a generation already reached, and the operation behind `warm` reports a finite
      duration for an object that is still there. */
  predicate Saves(w: World, e: Event) {
    match e
    case EvRegister(_, _, _, gen) => gen <= w.fab.warmthGen
    case EvWarmFinish(call, r, _) =>
      call in w.pending && w.pending[call].id in w.fab.objects && r.success ==> Finite(r.duration)
    case _ => true
  }

  /** The step rewrote at most the subject, and left that savable. */
  ghost predicate RewritesSubject(w: World, e: Event) {
    var f' := FabStep(w, e); var id := Subject(w, e);
    && f'.warmthGen == w.fab.warmthGen
    && (f'.objects == w.fab.objects
        || (id in f'.objects && f'.objects == w.fab.objects[id := f'.objects[id]]
            && Savable(f'.objects[id], id, w.fab.warmthGen)))
  }

  lemma BeginSavable(w: World, e: Event)
    requires e.EvWarmBegin? && AllSavable(w.fab)
    ensures RewritesSubject(w, e)
  {
    hide Finite, ClampUnit, TransitionAllowed, Acquire, ReleaseHold;
  }

  lemma FinishSavable(w: World, e: Event)
    requires e.EvWarmFinish? && Saves(w, e) && AllSavable(w.fab)
    ensures RewritesSubject(w, e)
  {
    hide Finite, ClampUnit, TransitionAllowed, ReleaseHold;
  }

  lemma ReadySavable(w: World, e: Event)
    requires e.EvWarmToReady? && AllSavable(w.fab)
    ensures RewritesSubject(w, e)
  {
    hide Finite, ClampUnit, TransitionAllowed;
  }

  lemma WarmPhaseSavable(w: World, e: Event)
    requires WarmPhase(e) && Saves(w, e) && AllSavable(w.fab)
    ensures RewritesSubject(w, e)
  {
    hide RewritesSubject, Saves, Savable;
    if e.EvWarmBegin? {
      BeginSavable(w, e);
    } else if e.EvWarmFinish? {
      FinishSavable(w, e);
    } else {
      ReadySavable(w, e);
    }
  }

  lemma OtherSavable(w: World, e: Event)
    requires OneObject(e) && !WarmPhase(e) && Saves(w, e) && AllSavable(w.fab)
    ensures RewritesSubject(w, e)
  {
    hide Finite, ClampUnit, TransitionAllowed, Decode;
    ZeroDelivered();
  }

  lemma ZeroDelivered()
    ensures Finite(0) && ClampUnit(0) == 0
  {
  }

  lemma DecaySavable(o: WarmthObject, id: Id128, gen: Word64, p: DecayPolicy, now: Timestamp, flags: Flags)
    requires Savable(o, id, gen)
    ensures Savable(ApplyDecay(o, p, now, flags), id, gen)
  {
    hide Finite, ClampUnit, ApplyDecay, DecayObject;
    ProposalIsDownhillEdge(o, p, now, flags);
  }

  lemma LaterGeneration(o: WarmthObject, id: Id128, gen: Word64, later: Word64)
    requires Savable(o, id, gen) && gen <= later
    ensures Savable(o, id, later)
  {
  }

  lemma RecoverySavable(f: Fab, file: seq<Byte>)
    requires Decode(file).Some?
    ensures AllSavable(Recover(f, Decode(file).value)) && Decode(file).value.policy.FiniteNumbers()
  {
    hide Decode, Restore, PutPayload, Delivered, Finite;
    var s := Decode(file).value;
    DecodedIsReadable(file);
    RestoreIs(s.objects);
    RestoredAreSavable(Restore(s.objects), s.objects, s.warmthGen, NextGeneration(s.warmthGen));
  }

  lemma StepKeepsSavable(w: World, e: Event)
    requires AllSavable(w.fab) && Saves(w, e)
    ensures AllSavable(FabStep(w, e))
  {
    hide Savable, Saves, Decode;
    var f, f' := w.fab, FabStep(w, e);
    match e
    case EvDecay(now, flags) =>
      forall id | id in f'.objects ensures Savable(f'.objects[id], id, f'.warmthGen) {
        DecaySavable(f.objects[id], id, f.warmthGen, f.config.policy.decay, now, flags);
      }
    case EvBumpDependency =>
    case EvBumpWarmth =>
      forall id | id in f'.objects ensures Savable(f'.objects[id], id, f'.warmthGen) {
        LaterGeneration(f.objects[id], id, f.warmthGen, f'.warmthGen);
      }
    case EvRecover(file) => if Decode(file).Some? { RecoverySavable(f, file); }
    case _ =>
      hide FabStep;
      if WarmPhase(e) {
        WarmPhaseSavable(w, e);
      } else {
        OtherSavable(w, e);
      }
  }

  /** One step keeps the registry fit for saving, exactly when it files no generation from the future and no
      duration that is NaN or infinite. */
  lemma StepSavable(w: World, e: Event)
    requires AllSavable(w.fab)
    ensures AllSavable(FabStep(w, e)) <==> Saves(w, e)
  {
    hide FabStep, AllSavable;
    if Saves(w, e) {
      StepKeepsSavable(w, e);
    } else {
      SpoilsSave(w, e);
    }
  }

  lemma SpoilsSave(w: World, e: Event)
    requires !Saves(w, e)
    ensures !AllSavable(FabStep(w, e))
  {
    hide ClampUnit, TransitionAllowed, ReleaseHold, Finite;
    var id := Subject(w, e);
    assert id in FabStep(w, e).objects && !Savable(FabStep(w, e).objects[id], id, FabStep(w, e).warmthGen);
  }

  /** When every state of a run can be saved, exactly. */
  lemma {:induction false} SavableExactly(config: Config, worlds: seq<World>, events: seq<Event>, n: nat)
    requires Run(config, worlds, events) && n < |worlds|
    ensures (forall i :: 0 <= i <= n ==> AllSavable(worlds[i].fab)) <==>
            (forall i :: 0 <= i < n ==> Saves(worlds[i], events[i]))
  {
    hide FabStep, PendingStep, Saves, Savable, Enabled, Run;
    RunStarts(config, worlds, events);
    if n > 0 {
      SavableExactly(config, worlds, events, n - 1);
      hide AllSavable;
      RunStep(config, worlds, events, n - 1);
      if AllSavable(worlds[n - 1].fab) {
        StepSavable(worlds[n - 1], events[n - 1]);
      }
    }
  }

  lemma GenerationNotBehind(w: World, e: Event)
    requires Loaded(e) == None
    ensures w.fab.warmthGen <= FabStep(w, e).warmthGen
    ensures FabStep(w, e).config == w.fab.config && FabStep(w, e).policyGen == w.fab.policyGen
  {
    hide Decode, TransitionAllowed, Acquire, ReleaseHold, Restore, DecayEach;
  }

  lemma {:induction false} GenerationsGrow(config: Config, worlds: seq<World>, events: seq<Event>, k: nat, i: nat)
    requires Run(config, worlds, events) && k <= i < |worlds|
    requires forall m :: k <= m < i ==> Loaded(events[m]) == None
    ensures worlds[k].fab.warmthGen <= worlds[i].fab.warmthGen
  {
    hide FabStep, PendingStep, Enabled, Loaded;
    if k < i {
      GenerationsGrow(config, worlds, events, k, i - 1);
      GenerationNotBehind(worlds[i - 1], events[i - 1]);
    }
  }

  /** The generation a registration read without the lock is one already reached, unless a recovery came in
      between. */
  lemma UnlockedReadIsReached(config: Config, worlds: seq<World>, events: seq<Event>, k: nat, i: nat)
    requires Run(config, worlds, events) && k <= i < |events|
    requires events[i].EvRegister? && events[i].gen == worlds[k].fab.warmthGen
    requires forall m :: k <= m < i ==> Loaded(events[m]) == None
    ensures Saves(worlds[i], events[i])
  {
    hide Step, Enabled, Loaded;
    GenerationsGrow(config, worlds, events, k, i);
  }

  // ---- the two policy generations ----

  /** The snapshot of the last recovery among the first n events. */
  ghost function LastLoaded(events: seq<Event>, n: nat): Option<Snapshot>
    requires n <= |events|
    decreases n, |events|
  {
    if n == 0 then None
    else if Loaded(events[n - 1]).Some? then Loaded(events[n - 1])
    else LastLoaded(events, n - 1)
  }

  /** The authority's policy generation agrees with the one inside the policy record. */
  predicate InStep(f: Fab) {
    f.policyGen == f.config.policy.generation
  }

  lemma RecoveryInStep(f: Fab, file: seq<Byte>)
    requires Decode(file).Some?
    ensures InStep(Recover(f, Decode(file).value)) <==> Decode(file).value.policyGen == U64_LIMIT - 1
    ensures Recover(f, Decode(file).value).config.policy.FiniteNumbers()
  {
    hide Decode, Restore, PutPayload, Delivered, Finite;
    DecodedIsReadable(file);
  }

  /** The generations agree until a recovery separates them: the next save is readable only if the last
      recovered file held a saturated policy generation. */
  lemma {:induction false} InStepExactly(config: Config, worlds: seq<World>, events: seq<Event>, n: nat)
    requires Run(config, worlds, events) && n < |worlds| && config.policy.FiniteNumbers()
    ensures InStep(worlds[n].fab) <==>
            (LastLoaded(events, n).Some? ==> LastLoaded(events, n).value.policyGen == U64_LIMIT - 1)
    ensures worlds[n].fab.config.policy.FiniteNumbers()
  {
    hide FabStep, PendingStep, Enabled, Decode, Recover, Finite, Run;
    RunStarts(config, worlds, events);
    if n > 0 {
      InStepExactly(config, worlds, events, n - 1);
      RunStep(config, worlds, events, n - 1);
      var w, e := worlds[n - 1], events[n - 1];
      if Loaded(e).Some? {
        LoadStep(w, e);
        RecoveryInStep(w.fab, e.file);
      } else {
        GenerationNotBehind(w, e);
      }
    }
  }

  lemma LoadStep(w: World, e: Event)
    requires Loaded(e).Some?
    ensures FabStep(w, e) == Recover(w.fab, Decode(e.file).value)
  {
    hide Decode, Recover;
  }

  // ---- the listing of the registry ----

  predicate TakenFrom(os: seq<WarmthObject>, m: map<Id128, WarmthObject>) {
    forall i :: 0 <= i < |os| ==> os[i].id in m && m[os[i].id] == os[i]
  }

  ghost predicate Exhausts(os: seq<WarmthObject>, m: map<Id128, WarmthObject>) {
    forall id :: id in m ==> IdAmong(id, os)
  }

  predicate Ascending(os: seq<WarmthObject>) {
    forall i, j :: 0 <= i < j < |os| ==> os[i].id < os[j].id
  }

  lemma ConsAscending(os: seq<WarmthObject>, o: WarmthObject)
    requires Ascending(os) && forall i :: 0 <= i < |os| ==> o.id < os[i].id
    ensures Ascending([o] + os)
  {
  }

  lemma AscendingIsDistinct(os: seq<WarmthObject>)
    requires Ascending(os)
    ensures Distinct(os)
  {
  }

  lemma AboveLeast(os: seq<WarmthObject>, m: map<Id128, WarmthObject>)
    requires m != map[] && TakenFrom(os, m - {Least(m.Keys)})
    ensures forall i :: 0 <= i < |os| ==> Least(m.Keys) < os[i].id
  {
    KeysNonempty(m);
    forall i | 0 <= i < |os| ensures Least(m.Keys) < os[i].id {
      assert os[i].id in m.Keys && os[i].id != Least(m.Keys);
    }
  }

  lemma ConsTaken(os: seq<WarmthObject>, m: map<Id128, WarmthObject>, id: Id128)
    requires id in m && m[id].id == id && TakenFrom(os, m - {id})
    ensures TakenFrom([m[id]] + os, m)
  {
    var all := [m[id]] + os;
    forall i | 0 <= i < |all| ensures all[i].id in m && m[all[i].id] == all[i] {
      if i > 0 {
        assert all[i] == os[i - 1];
      }
    }
  }

  lemma ConsExhausts(os: seq<WarmthObject>, m: map<Id128, WarmthObject>, id: Id128)
    requires id in m && m[id].id == id && Exhausts(os, m - {id})
    ensures Exhausts([m[id]] + os, m)
  {
    var all := [m[id]] + os;
    forall k | k in m ensures IdAmong(k, all) {
      if k == id {
        assert all[0].id == id;
      } else {
        assert k in m - {id};
        var j :| 0 <= j < |os| && os[j].id == k;
        assert all[j + 1].id == k;
      }
    }
  }

  lemma WithoutLeast(m: map<Id128, WarmthObject>)
    requires m != map[]
    ensures m.Keys != {} && Least(m.Keys) in m
    ensures |m - {Least(m.Keys)}| == |m| - 1
    ensures Listed(m) == [m[Least(m.Keys)]] + Listed(m - {Least(m.Keys)})
  {
    KeysNonempty(m);
    var id := Least(m.Keys);
    assert (m - {id}).Keys == m.Keys - {id};
    assert |(m - {id}).Keys| == |m.Keys| - 1;
  }

  lemma {:induction false} ListedIs(m: map<Id128, WarmthObject>)
    requires forall id :: id in m ==> m[id].id == id
    ensures |Listed(m)| == |m| && Ascending(Listed(m)) && TakenFrom(Listed(m), m) && Exhausts(Listed(m), m)
    ensures Distinct(Listed(m))
    decreases |m|
  {
    if m != map[] {
      hide Listed, TakenFrom, Exhausts, Distinct, Least, Ascending;
      WithoutLeast(m);
      var id := Least(m.Keys);
      ListedIs(m - {id});
      AboveLeast(Listed(m - {id}), m);
      ConsAscending(Listed(m - {id}), m[id]);
      ConsTaken(Listed(m - {id}), m, id);
      ConsExhausts(Listed(m - {id}), m, id);
    }
    AscendingIsDistinct(Listed(m));
  }

  lemma SavesReadable(f: Fab)
    requires AllSavable(f) && f.config.policy.FiniteNumbers()
    ensures FiniteSnapshot(TakeSnapshot(f))
    ensures Readable(TakeSnapshot(f)) <==>
              |PutPayload(TakeSnapshot(f))| < U32_LIMIT && |f.objects| <= MAX_OBJECTS && InStep(f)
    ensures |TakeSnapshot(f).objects| == |f.objects|
  {
    hide Listed, PutPayload, Finite, ClampUnit;
    ListedIs(f.objects);
    var os := Listed(f.objects);
    forall i | 0 <= i < |os| ensures os[i].FiniteNumbers() && os[i].warmthGen <= f.warmthGen {
      assert Savable(os[i], os[i].id, f.warmthGen);
    }
  }

  // ---- recovery ----

  /** What recovery changes: at most state and reason, the invalidation, the four device dimensions and
      the provenance.  Identity, costs, times, generations and dependencies are durable. */
  predicate DurablePartsKept(o: WarmthObject, r: WarmthObject) {
    && r == o.(state := r.state, stateReason := r.stateReason, dims := r.dims, invalidation := r.invalidation,
               provenance := r.provenance)
    && r.DeviceIs(COLD_DIM)
    && (forall i :: 0 <= i < 12 && i != CUDA_CONTEXT && i != KERNEL && i != GRAPH && i != ALLOCATOR ==> r.dims[i] == o.dims[i])
    && r.invalidation == Some(REVALIDATE) && r.provenance == REPORTED
  }

  lemma RevalidateKeeps(o: WarmthObject)
    ensures DurablePartsKept(o, Revalidate(o))
  {
  }

  /** The recovery pipeline.  A fabric that ran through any interleaving of any operations, recoveries
      included, from a finite policy and with registrations and durations as `Saves` asks, saves a file.  That
      file decodes iff it fits the format's size limits and the last recovery, if any, was from a saturated
      policy generation; recovering it into any fabric yields exactly the saved objects, durable parts
      unchanged, device dimensions cold, ready iff saved HOT, and all three generations advanced. */
  lemma RecoveryPipeline(config: Config, worlds: seq<World>, events: seq<Event>, other: Fab)
    requires Run(config, worlds, events) && config.policy.FiniteNumbers()
    requires forall k :: 0 <= k < |events| ==> Saves(worlds[k], events[k])
    ensures var f := worlds[|events|].fab; var last := LastLoaded(events, |events|);
      && Encode(TakeSnapshot(f)).Some?
      && (Decode(Encode(TakeSnapshot(f)).value).Some? <==>
            |PutPayload(TakeSnapshot(f))| < U32_LIMIT && |f.objects| <= MAX_OBJECTS
            && (last.Some? ==> last.value.policyGen == U64_LIMIT - 1))
      && (Decode(Encode(TakeSnapshot(f)).value).Some? ==>
            Recovered(f, Recover(other, Decode(Encode(TakeSnapshot(f)).value).value)))
  {
    hide Readable, FiniteSnapshot, TakeSnapshot, PutPayload, Decode, Saves, Recovered, Recover, LastLoaded, Finite;
    hide AllSavable, InStep, Step, Enabled;
    SavableExactly(config, worlds, events, |events|);
    InStepExactly(config, worlds, events, |events|);
    var f := worlds[|events|].fab;
    assert AllSavable(f);
    SavesReadable(f);
    SnapshotRoundTrip(TakeSnapshot(f));
    RecoverFromSave(f, other);
  }

  /** Nothing is ready after a restart, whatever happened before, as long as no recovered file held a HOT
      object. */
  lemma NothingReadyAfterRestart(config: Config, worlds: seq<World>, events: seq<Event>, g: Fab, id: Id128)
    requires Run(config, worlds, events) && Recovered(worlds[|events|].fab, g)
    requires forall i :: 0 <= i < |events| ==> LoadsCold(events[i])
    ensures !g.ReadyAt(id)
  {
    hide Step, LoadsCold, Enabled, DurablePartsKept;
    CoolExactly(config, worlds, events, |events|);
    assert Cool(worlds[|events|].fab);
  }

  /** g is f after a restart. */
  predicate Recovered(f: Fab, g: Fab) {
    && g.objects.Keys == f.objects.Keys
    && (forall id :: id in f.objects ==>
          DurablePartsKept(Norm(f.objects[id]), g.objects[id]) && (g.objects[id].Ready() <==> f.objects[id].state.HOT?))
    && g.config.policy == f.config.policy
    && g.budget == EmptyLedger(f.config.policy.budgets)
    && (f.warmthGen < U64_LIMIT - 1 ==> g.warmthGen == f.warmthGen + 1)
    && (f.depGen < U64_LIMIT - 1 ==> g.depGen == f.depGen + 1)
    && (f.policyGen < U64_LIMIT - 1 ==> g.policyGen == f.policyGen + 1)
  }

  lemma OneRecovered(o: WarmthObject, id: Id128, gen: Word64)
    requires Savable(o, id, gen)
    ensures DurablePartsKept(Norm(o), Revalidate(Norm(o)))
    ensures Revalidate(Norm(o)).Ready() <==> o.state.HOT?
    ensures Norm(o).id == id
  {
    hide Norm, Revalidate, DurablePartsKept, Delivered;
    NormHasId(o);
    NormKeepsState(o);
    RevalidateKeeps(Norm(o));
    ReadyAfterRestartIffHot(Norm(o));
  }

  lemma SavedAt(os: seq<WarmthObject>, r: map<Id128, WarmthObject>, j: nat)
    requires RestoredFrom(r, NormAll(os)) && j < |os|
    ensures os[j].id in r && r[os[j].id] == Revalidate(Norm(os[j]))
  {
    hide Norm, Revalidate, IdAmong;
    assert NormAll(os)[j] == Norm(os[j]);
    NormHasId(os[j]);
  }

  lemma SavedKeys(m: map<Id128, WarmthObject>, os: seq<WarmthObject>, r: map<Id128, WarmthObject>, id: Id128)
    requires TakenFrom(os, m) && Exhausts(os, m) && RestoredFrom(r, NormAll(os))
    ensures id in r <==> id in m
  {
    hide Norm, Revalidate, NormAll;
    SameIds(os, id);
  }

  lemma SavedIds(m: map<Id128, WarmthObject>, os: seq<WarmthObject>, r: map<Id128, WarmthObject>)
    requires TakenFrom(os, m) && Exhausts(os, m) && RestoredFrom(r, NormAll(os))
    ensures r.Keys == m.Keys
    ensures forall id :: id in m ==> r[id] == Revalidate(Norm(m[id]))
  {
    hide Norm, Revalidate, NormAll, RestoredFrom;
    forall id: Id128 ensures id in r <==> id in m {
      SavedKeys(m, os, r, id);
    }
    forall id | id in m ensures r[id] == Revalidate(Norm(m[id])) {
      assert IdAmong(id, os);
      var j :| 0 <= j < |os| && os[j].id == id;
      SavedAt(os, r, j);
    }
  }

  /** The registry after recovering the save: the saved objects, in normal form, revalidated. */
  lemma RegistryFromSave(f: Fab)
    requires AllSavable(f)
    ensures var m := Restore(NormAll(Listed(f.objects)));
            && m.Keys == f.objects.Keys
            && forall id :: id in f.objects ==> m[id] == Revalidate(Norm(f.objects[id]))
  {
    hide Norm, Revalidate, Listed, Restore, RestoredFrom, TakenFrom, Exhausts, Distinct, Ascending, Delivered;
    var os := Listed(f.objects);
    ListedIs(f.objects);
    NormDistinct(os);
    RestoreIs(NormAll(os));
    SavedIds(f.objects, os, Restore(NormAll(os)));
  }

  lemma RecoverFromSave(f: Fab, other: Fab)
    requires AllSavable(f)
    ensures Recovered(f, Recover(other, NormSnapshot(TakeSnapshot(f))))
  {
    hide Norm, Revalidate, DurablePartsKept, Listed, Restore, Savable;
    RegistryFromSave(f);
    forall id | id in f.objects
      ensures DurablePartsKept(Norm(f.objects[id]), Revalidate(Norm(f.objects[id])))
      ensures Revalidate(Norm(f.objects[id])).Ready() <==> f.objects[id].state.HOT?
    {
      OneRecovered(f.objects[id], id, f.warmthGen);
    }
  }

  lemma NormKeepsState(o: WarmthObject)
    ensures Norm(o).state == o.state
  {
  }

  lemma SameIds(os: seq<WarmthObject>, id: Id128)
    ensures IdAmong(id, NormAll(os)) <==> IdAmong(id, os)
  {
    assert os[..|os|] == os;
    NormKeepsId(os, |os|);
  }

  lemma NormDistinct(os: seq<WarmthObject>)
    requires Distinct(os)
    ensures Distinct(NormAll(os))
  {
    hide Norm;
    forall i | 0 <= i < |os| ensures NormAll(os)[i].id == os[i].id {
      NormHasId(os[i]);
    }
  }

  // ---- a second save ----

  lemma RevalidateKeepsNumbers(o: WarmthObject)
    ensures Revalidate(o).id == o.id && Revalidate(o).warmthGen == o.warmthGen
    ensures Delivered(o) ==> Delivered(Revalidate(o))
  {
    hide Finite, ClampUnit;
  }

  /** After recovering an accepted file, the next save writes a file that can be read back exactly when it
      fits and the saved policy generation was already saturated: recovery advances the authority's policy
      generation but not the one inside the policy record, and the decoder compares the two. */
  lemma SecondSaveUnreadable(f: Fab, b: seq<Byte>)
    requires Decode(b).Some?
    ensures var g := TakeSnapshot(Recover(f, Decode(b).value));
      && FiniteSnapshot(g)
      && (Decode(Encode(g).value).Some? <==>
            Decode(b).value.policyGen == U64_LIMIT - 1 && |PutPayload(g)| < U32_LIMIT)
  {
    hide PutPayload, Decode, Listed, Restore, Delivered, Revalidate;
    var s := Decode(b).value;
    DecodedIsReadable(b);
    var h := Recover(f, s);
    RestoreIs(s.objects);
    RestoredAreSavable(h.objects, s.objects, s.warmthGen, h.warmthGen);
    ListedIs(h.objects);
    RestoredSaves(h, s);
    SnapshotRoundTrip(TakeSnapshot(h));
  }

  lemma RestoredAreSavable(m: map<Id128, WarmthObject>, os: seq<WarmthObject>, saved: Word64, gen: Word64)
    requires RestoredFrom(m, os) && WithinGeneration(os, saved) && saved <= gen
    requires forall k :: 0 <= k < |os| ==> Delivered(os[k])
    ensures forall id :: id in m ==> m[id].id == id && Delivered(m[id]) && m[id].warmthGen <= gen
  {
    hide Delivered, Revalidate;
    forall id | id in m ensures m[id].id == id && Delivered(m[id]) && m[id].warmthGen <= gen {
      assert IdAmong(id, os);
      var j :| 0 <= j < |os| && os[j].id == id;
      RevalidateKeepsNumbers(os[j]);
    }
  }

  lemma RestoredSaves(h: Fab, s: Snapshot)
    requires forall id :: id in h.objects ==>
      h.objects[id].id == id && Delivered(h.objects[id]) && h.objects[id].warmthGen <= h.warmthGen
    requires |Listed(h.objects)| <= MAX_OBJECTS && s.policy.FiniteNumbers() && s.policy.generation == s.policyGen
    requires h.config.policy == s.policy && h.policyGen == NextGeneration(s.policyGen)
    ensures FiniteSnapshot(TakeSnapshot(h))
    ensures Readable(TakeSnapshot(h)) <==> s.policyGen == U64_LIMIT - 1 && |PutPayload(TakeSnapshot(h))| < U32_LIMIT
  {
    hide PutPayload, Listed, Finite, ClampUnit;
    ListedIs(h.objects);
    var os := Listed(h.objects);
    forall i | 0 <= i < |os| ensures os[i].FiniteNumbers() && os[i].warmthGen <= h.warmthGen {
      assert os[i].id in h.objects && h.objects[os[i].id] == os[i];
      assert Delivered(h.objects[os[i].id]);
    }
  }

  // ---- recovery under a warm call in progress ----

  /** The tracker is replaced and its identities restart: if a call is admitted from an empty tracker, a
      recovery follows and a second call is admitted, both hold the same reservations, and the completion of
      the first releases those of the second. */
  lemma StaleCompletionReleases(f: Fab, s: Snapshot, a: Id128, b: Id128, r: Outcome, now: Timestamp)
    requires f.budget == EmptyLedger(s.policy.budgets)
    requires WarmBegin(f, a).0.Some?
    requires WarmBegin(Recover(WarmBegin(f, a).1, s), b).0.Some?
    ensures var (h, f1) := WarmBegin(f, a);
            var (k, g) := WarmBegin(Recover(f1, s), b);
            k == h && !g.budget.Balanced() && WarmFinish(g, a, h.value, r, now).1.budget.Balanced()
  {
    hide Restore, TransitionAllowed, Completed;
    FreshHold(s.policy.budgets);
  }

  lemma FreshHold(limits: Limits)
    ensures var l := EmptyLedger(limits);
      Acquire(l).Some? ==>
        var (h, l') := Acquire(l).value;
        !l'.Balanced() && ReleaseHold(l', h).Balanced()
  {
  }
}
