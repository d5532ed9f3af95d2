/** What holds of the fabric under every interleaving of warm phases with the other operations. */
module FabricProofs {
  import opened Basics
  import opened WarmthStates
  import opened WarmthObjects
  import opened Policies
  import opened Decay
  import opened Budgets
  import opened Snapshots
  import opened SnapshotGrammar
  import opened FabricModel

  // ---- admission ----

  ghost function Holds(m: map<Word64, Pending>): map<Word64, Hold> {
    map c | c in m :: m[c].hold
  }

  /** The live reservations are exactly those of the calls between phase 1 and phase 3, under the limits of
      the policy in force. */
  ghost predicate Admission(w: World) {
    Accounts(w.fab.budget, Holds(w.pending)) && w.fab.budget.limits == w.fab.config.policy.budgets
  }

  lemma BeginKeepsAdmission(w: World, call: Word64, id: Id128)
    requires Admission(w) && call !in w.pending && Headroom(w.fab.budget)
    ensures Admission(Step(w, EvWarmBegin(call, id)))
  {
    hide Acquire, ReleaseHold, Accounts, TransitionAllowed;
    var w' := Step(w, EvWarmBegin(call, id));
    if id in w.fab.objects && Acquire(w.fab.budget).Some? {
      AdmitOrReturn(w.fab.budget, Holds(w.pending), call);
      var hold := Acquire(w.fab.budget).value.0;
      if TransitionAllowed(w.fab.objects[id].state, PREPARING) {
        assert Holds(w'.pending) == Holds(w.pending)[call := hold];
      }
    }
  }

  /** Admitting keeps the accounts; admitting and giving back at once keeps them too. */
  lemma AdmitOrReturn(l: Ledger, holds: map<Word64, Hold>, a: Word64)
    requires Accounts(l, holds) && Headroom(l) && a !in holds && Acquire(l).Some?
    ensures var (h, l') := Acquire(l).value;
            && Accounts(l', holds[a := h]) && l'.limits == l.limits
            && Accounts(ReleaseHold(l', h), holds) && ReleaseHold(l', h).limits == l.limits
  {
    var (h, l') := Acquire(l).value;
    AcquireAccounts(l, holds, a);
    ReleaseAccounts(l', holds[a := h], a);
    assert holds[a := h] - {a} == holds;
  }

  lemma FinishKeepsAdmission(w: World, call: Word64, r: Outcome, now: Timestamp)
    requires Admission(w) && call in w.pending
    ensures Admission(Step(w, EvWarmFinish(call, r, now)))
  {
    hide ReleaseHold, Accounts, TransitionAllowed;
    ReleaseAccounts(w.fab.budget, Holds(w.pending), call);
    assert Holds(w.pending - {call}) == Holds(w.pending) - {call};
  }

  /** A recovery starts a fresh tracker, so it keeps the books exact iff no call is in progress. */
  lemma RecoverAdmission(f: Fab, s: Snapshot, pending: map<Word64, Pending>)
    ensures Admission(World(Recover(f, s), pending)) <==> pending == map[]
  {
    hide Restore, NextGeneration;
    assert Holds(pending).Keys == pending.Keys;
    assert |Holds(pending)| == |pending|;
    if pending == map[] {
      assert Holds(pending) == map[];
    } else {
      assert |pending| != 0;
    }
  }

  /** A recovery happens while no warm call is between its phases 1 and 3. */
  predicate RecoversIdle(w: World, e: Event) {
    Loaded(e).Some? ==> w.pending == map[]
  }

  /** One step keeps the books exact, unless it recovers under a warm call in progress. */
  lemma StepAdmission(w: World, e: Event)
    requires Admission(w) && Enabled(w, e)
    ensures Admission(Step(w, e)) <==> RecoversIdle(w, e)
  {
    hide Decode, Accounts, Recover, Acquire, ReleaseHold, TransitionAllowed, DecayEach, WarmBegin, WarmFinish;
    match e
    case EvWarmBegin(call, id) => BeginKeepsAdmission(w, call, id);
    case EvWarmFinish(call, r, now) => FinishKeepsAdmission(w, call, r, now);
    case EvRecover(file) =>
      if Decode(file).Some? {
        RecoverAdmission(w.fab, Decode(file).value, w.pending);
      }
    case _ => assert FabStep(w, e).budget == w.fab.budget && FabStep(w, e).config == w.fab.config;
  }

  lemma RunStarts(config: Config, worlds: seq<World>, events: seq<Event>)
    requires Run(config, worlds, events)
    ensures |worlds| == |events| + 1 && worlds[0] == World(Start(config), map[])
  {
  }

  lemma RunStep(config: Config, worlds: seq<World>, events: seq<Event>, i: nat)
    requires Run(config, worlds, events) && i < |events|
    ensures i + 1 < |worlds| && Enabled(worlds[i], events[i]) && worlds[i + 1] == Step(worlds[i], events[i])
    ensures worlds[i + 1].fab == FabStep(worlds[i], events[i])
  {
    hide FabStep, PendingStep, Enabled;
  }

  /** When admission control survives a run with recoveries, exactly: the books are exact in every state up
      to n iff every recovery before n found no warm call in progress. */
  lemma {:induction false} AdmissionExactly(config: Config, worlds: seq<World>, events: seq<Event>, n: nat)
    requires Run(config, worlds, events) && n < |worlds|
    ensures (forall i :: 0 <= i <= n ==> Admission(worlds[i])) <==>
            (forall i :: 0 <= i < n ==> RecoversIdle(worlds[i], events[i]))
  {
    hide Step, Admission, RecoversIdle, Enabled, Run;
    RunStarts(config, worlds, events);
    if n == 0 {
      StartAdmission(config);
    } else {
      AdmissionExactly(config, worlds, events, n - 1);
      RunStep(config, worlds, events, n - 1);
      if Admission(worlds[n - 1]) {
        StepAdmission(worlds[n - 1], events[n - 1]);
      }
    }
  }

  lemma StartAdmission(config: Config)
    ensures Admission(World(Start(config), map[]))
  {
    assert Holds(map[]) == map[];
  }

  /** Admission under any interleaving of any number of calls, and of recoveries between them: usage is 2^30
      per call in progress, the books balance iff no call is in progress, and a device limit L admits at most
      L / 2^30 calls. */
  lemma AdmissionControl(config: Config, worlds: seq<World>, events: seq<Event>, n: nat)
    requires Run(config, worlds, events) && n < |worlds|
    requires forall i :: 0 <= i < n ==> RecoversIdle(worlds[i], events[i])
    ensures var w := worlds[n]; var limit := w.fab.config.policy.budgets[KindIndex(DEVICE_MEMORY)];
            && Covers(w.fab.budget.reservations, Holds(w.pending))
            && w.fab.budget.Usage(DEVICE_MEMORY) == 0x4000_0000 * |w.pending|
            && (w.fab.budget.Balanced() <==> w.pending == map[])
            && (limit != 0 ==> |w.pending| <= limit / 0x4000_0000)
  {
    hide Step;
    AdmissionExactly(config, worlds, events, n);
    var w := worlds[n];
    assert Admission(w);
    assert Holds(w.pending).Keys == w.pending.Keys;
    assert |Holds(w.pending)| == |w.pending|;
    assert Holds(w.pending) == map[] <==> w.pending == map[] by {
      assert |w.pending| == 0 <==> w.pending == map[];
      assert |Holds(w.pending)| == 0 <==> Holds(w.pending) == map[];
    }
    BalancedIffNoHolds(w.fab.budget, Holds(w.pending));
    if w.fab.budget.Limit(DEVICE_MEMORY) != 0 {
      HoldsWithinLimit(w.fab.budget, Holds(w.pending));
    }
  }

  // ---- an invalidation or eviction is not undone ----

  /** The states no completion, failure or decay leads out of. */
  predicate Quenched(s: WarmthState) {
    s.COLD? || s.INVALIDATED? || s.EVICTED? || s.FAILED?
  }

  /** A completion makes the object ready exactly when it does not find it quenched: the quenched states
      are precisely those without an edge to WARM.  STALE is not among them. */
  lemma CompletionLandsIffNotQuenched(o: WarmthObject, r: Outcome, now: Timestamp)
    ensures Completed(o, r, now).Ready() <==> !Quenched(o.state)
    ensures Quenched(o.state) ==> Completed(o, r, now).state == o.state
  {
  }

  predicate QuenchedAt(w: World, id: Id128) {
    id in w.fab.objects && Quenched(w.fab.objects[id].state)
  }

  predicate SavedQuenched(os: seq<WarmthObject>, id: Id128) {
    exists j :: 0 <= j < |os| && os[j].id == id && Quenched(os[j].state)
  }

  /** The only operations of the world that may start warming an object again, or lose it: warming it, and
      recovering a file that does not hold it quenched. */
  predicate Restarts(e: Event, id: Id128) {
    match e
    case EvWarmBegin(_, i) => i == id
    case EvWarmToReady(i) => i == id
    case EvRecover(_) => Loaded(e).Some? && !SavedQuenched(Loaded(e).value.objects, id)
    case _ => false
  }

  lemma StepKeepsQuenched(w: World, e: Event, id: Id128)
    requires QuenchedAt(w, id) && !Restarts(e, id)
    ensures QuenchedAt(Step(w, e), id)
  {
    hide Decode, FabStep, PendingStep;
    if e.EvRecover? || e.EvDecay? {
      RewriteKeepsQuenched(w, e, id);
    } else if WarmPhase(e) {
      WarmPhaseKeepsQuenched(w, e, id);
    } else {
      OtherKeepsQuenched(w, e, id);
    }
  }

  lemma RewriteKeepsQuenched(w: World, e: Event, id: Id128)
    requires QuenchedAt(w, id) && !Restarts(e, id) && (e.EvRecover? || e.EvDecay?)
    ensures var f' := FabStep(w, e); id in f'.objects && Quenched(f'.objects[id].state)
  {
    hide Decode, Restore, ApplyDecay, Recover;
    match e
    case EvRecover(file) => if Decode(file).Some? { RecoveryKeepsQuenched(w.fab, file, id); }
    case EvDecay(now, flags) => DecayKeepsQuenched(w.fab.objects[id], w.fab.config.policy.decay, now, flags);
  }

  lemma DecayKeepsQuenched(o: WarmthObject, p: DecayPolicy, now: Timestamp, flags: Flags)
    requires Quenched(o.state)
    ensures Quenched(ApplyDecay(o, p, now, flags).state)
  {
    ProposalIsDownhillEdge(o, p, now, flags);
  }

  lemma WarmPhaseKeepsQuenched(w: World, e: Event, id: Id128)
    requires QuenchedAt(w, id) && !Restarts(e, id) && WarmPhase(e)
    ensures var f' := FabStep(w, e); id in f'.objects && Quenched(f'.objects[id].state)
  {
    hide Acquire, ReleaseHold, ReachWarm;
  }

  lemma OtherKeepsQuenched(w: World, e: Event, id: Id128)
    requires QuenchedAt(w, id) && !WarmPhase(e) && !e.EvRecover? && !e.EvDecay?
    ensures var f' := FabStep(w, e); id in f'.objects && Quenched(f'.objects[id].state)
  {
  }

  lemma RecoveryKeepsQuenched(f: Fab, file: seq<Byte>, id: Id128)
    requires Decode(file).Some?
    ensures var m := Recover(f, Decode(file).value).objects;
            id in m && Quenched(m[id].state) <==> SavedQuenched(Decode(file).value.objects, id)
  {
    hide Decode, Restore, FiniteSnapshot, PutPayload, Distinct, RestoredFrom, SavedQuenched, Quenched;
    var os := Decode(file).value.objects;
    DecodedIsReadable(file);
    RestoreIs(os);
    RestoredQuenched(Restore(os), os, id);
  }

  lemma RestoredQuenched(m: map<Id128, WarmthObject>, os: seq<WarmthObject>, id: Id128)
    requires RestoredFrom(m, os)
    ensures id in m && Quenched(m[id].state) <==> SavedQuenched(os, id)
  {
    hide Revalidate, Quenched;
    if id in m && Quenched(m[id].state) {
      assert IdAmong(id, os);
      var j :| 0 <= j < |os| && os[j].id == id;
      RevalidateKeepsQuenched(os[j]);
    }
    if SavedQuenched(os, id) {
      var j :| 0 <= j < |os| && os[j].id == id && Quenched(os[j].state);
      RevalidateKeepsQuenched(os[j]);
    }
  }

  lemma RevalidateKeepsQuenched(o: WarmthObject)
    ensures Quenched(Revalidate(o).state) <==> Quenched(o.state)
  {
  }

  lemma {:induction false} StaysQuenched(config: Config, worlds: seq<World>, events: seq<Event>, i: nat, j: nat, id: Id128)
    requires Run(config, worlds, events) && i <= j < |worlds| && QuenchedAt(worlds[i], id)
    requires forall k :: i <= k < j ==> !Restarts(events[k], id)
    ensures QuenchedAt(worlds[j], id)
  {
    hide Step;
    if i < j {
      StaysQuenched(config, worlds, events, i, j - 1, id);
      StepKeepsQuenched(worlds[j - 1], events[j - 1], id);
    }
  }

  /** An accepted invalidate or evict holds against any number of pending completions, failures, decays
      and other operations until the object is explicitly warmed again. */
  lemma InvalidationIsNotUndone(config: Config, worlds: seq<World>, events: seq<Event>, i: nat, j: nat, id: Id128)
    requires Run(config, worlds, events) && i < j < |worlds|
    requires match events[i]
             case EvInvalidate(k, reason) => k == id && Invalidate(worlds[i].fab, id, reason).0
             case EvEvict(k) => k == id && Evict(worlds[i].fab, id).0
             case _ => false
    requires forall k :: i < k < j ==> !Restarts(events[k], id)
    ensures id in worlds[j].fab.objects && !worlds[j].fab.ReadyAt(id) && Quenched(worlds[j].fab.objects[id].state)
  {
    assert QuenchedAt(worlds[i + 1], id);
    StaysQuenched(config, worlds, events, i + 1, j, id);
  }

  /** A decay that lands during warming is lifted: PREPARING, decayed to STALE, ends WARM. */
  lemma DecayDuringWarmingIsLifted(w: World, call: Word64, r: Outcome, at: Timestamp, now: Timestamp, id: Id128)
    requires call in w.pending && w.pending[call].id == id && r.success
    requires id in w.fab.objects && w.fab.objects[id].state == PREPARING
    ensures var w1 := Step(w, EvDecay(at, Flags(false, true, false, false)));
            && w1.fab.objects[id].state == STALE
            && Step(w1, EvWarmFinish(call, r, now)).fab.ReadyAt(id)
  {
  }

  /** What a completion that finds the object quenched does report: the call returns true and clears the
      reason, although the object stays where the invalidation put it. */
  lemma LateCompletionReportsSuccess(f: Fab, id: Id128, hold: Hold, r: Outcome, now: Timestamp)
    requires id in f.objects && Quenched(f.objects[id].state) && r.success
    ensures var (ok, f') := WarmFinish(f, id, hold, r, now);
            && ok && id in f'.objects && f'.objects[id].state == f.objects[id].state
            && !f'.ReadyAt(id) && f'.objects[id].invalidation == None
  {
    CompletionLandsIffNotQuenched(f.objects[id], r, now);
  }

  // ---- ready objects carry no invalidation reason ----

  ghost predicate Clean(f: Fab) {
    forall id {:trigger f.ReadyAt(id)} :: f.ReadyAt(id) ==> f.objects[id].invalidation == None
  }

  predicate CleanObject(o: WarmthObject) {
    o.Ready() ==> o.invalidation == None
  }

  lemma DecayKeepsClean(o: WarmthObject, p: DecayPolicy, now: Timestamp, flags: Flags)
    requires CleanObject(o)
    ensures CleanObject(ApplyDecay(o, p, now, flags))
  {
    ProposalIsDownhillEdge(o, p, now, flags);
  }

  lemma PutKeepsClean(f: Fab, f': Fab, o: WarmthObject, id: Id128)
    requires Clean(f) && CleanObject(o) && f'.objects == f.objects[id := o]
    ensures Clean(f')
  {
    forall i | f'.ReadyAt(i) ensures f'.objects[i].invalidation == None {
      if i != id {
        assert f.ReadyAt(i);
      }
    }
  }

  predicate NoneHot(os: seq<WarmthObject>) {
    forall i :: 0 <= i < |os| ==> !os[i].state.HOT?
  }

  /** A file that is recovered holds no HOT object. */
  predicate LoadsCold(e: Event) {
    Loaded(e).Some? ==> NoneHot(Loaded(e).value.objects)
  }

  /** A recovered registry is clean iff the file held no HOT object: HOT alone survives revalidation, with
      the reason revalidation sets. */
  lemma RecoveredClean(f: Fab, s: Snapshot)
    requires Distinct(s.objects)
    ensures Clean(Recover(f, s)) <==> NoneHot(s.objects)
    ensures Cool(Recover(f, s)) <==> NoneHot(s.objects)
  {
    hide Restore, Distinct, Revalidate, NextGeneration;
    var os, g := s.objects, Recover(f, s);
    RestoreIs(os);
    forall i | 0 <= i < |os| ensures g.ReadyAt(os[i].id) <==> os[i].state.HOT? {
      ReadyAfterRestartIffHot(os[i]);
    }
    forall id | id in g.objects ensures exists i :: 0 <= i < |os| && os[i].id == id && g.objects[id] == Revalidate(os[i]) {
      assert IdAmong(id, os);
    }
    forall o: WarmthObject ensures Revalidate(o).invalidation.Some? && (Revalidate(o).state.HOT? <==> o.state.HOT?) {
      RevalidateSets(o);
    }
  }

  lemma RevalidateSets(o: WarmthObject)
    ensures Revalidate(o).invalidation.Some? && (Revalidate(o).state.HOT? <==> o.state.HOT?)
  {
  }

  /** No object is HOT. */
  ghost predicate Cool(f: Fab) {
    forall id :: id in f.objects ==> !f.objects[id].state.HOT?
  }

  /** Each operation other than a recovery either leaves the registry alone, rewrites one object that stays
      clean, or decays all. */
  lemma StepKeepsClean(w: World, e: Event)
    requires Clean(w.fab) && Loaded(e) == None
    ensures Clean(FabStep(w, e))
  {
    hide Decode, FabStep, LeavesSubjectClean;
    forall id | id in w.fab.objects ensures CleanObject(w.fab.objects[id]) {
      assert w.fab.ReadyAt(id) ==> w.fab.objects[id].invalidation == None;
    }
    if OneObject(e) {
      SubjectClean(w, e);
      SubjectKeepsClean(w, e);
    } else if e.EvDecay? {
      DecayAllClean(w, e);
    } else {
      RegistryUntouched(w, e);
      SameObjectsClean(w.fab, FabStep(w, e));
    }
  }

  lemma SubjectKeepsClean(w: World, e: Event)
    requires Clean(w.fab) && LeavesSubjectClean(w, e)
    ensures Clean(FabStep(w, e))
  {
    hide FabStep, Clean, CleanObject;
    var f, f' := w.fab, FabStep(w, e);
    if f'.objects == f.objects {
      SameObjectsClean(f, f');
    } else {
      PutKeepsClean(f, f', f'.objects[Subject(w, e)], Subject(w, e));
    }
  }

  lemma SameObjectsClean(f: Fab, f': Fab)
    requires Clean(f) && f'.objects == f.objects
    ensures Clean(f')
  {
    assert forall id :: f'.ReadyAt(id) == f.ReadyAt(id);
  }

  lemma DecayAllClean(w: World, e: Event)
    requires e.EvDecay? && forall id :: id in w.fab.objects ==> CleanObject(w.fab.objects[id])
    ensures Clean(FabStep(w, e))
  {
    var f, f' := w.fab, FabStep(w, e);
    forall id | f'.ReadyAt(id) ensures f'.objects[id].invalidation == None {
      DecayKeepsClean(f.objects[id], f.config.policy.decay, e.now, e.flags);
    }
  }

  lemma RegistryUntouched(w: World, e: Event)
    requires !OneObject(e) && !e.EvDecay? && Loaded(e) == None
    ensures FabStep(w, e).objects == w.fab.objects
  {
    hide Decode;
  }

  /** One step keeps ready objects free of a reason, unless it recovers a file with a HOT object. */
  lemma StepClean(w: World, e: Event)
    requires Clean(w.fab)
    ensures Clean(FabStep(w, e)) <==> LoadsCold(e)
  {
    hide Decode, Recover, FiniteSnapshot, PutPayload, Distinct, Clean, NoneHot;
    if Loaded(e).Some? {
      DecodedIsReadable(e.file);
      RecoveredClean(w.fab, Loaded(e).value);
    } else {
      StepKeepsClean(w, e);
    }
  }

  predicate OneObject(e: Event) {
    !e.EvDecay? && !e.EvBumpDependency? && !e.EvBumpWarmth? && !e.EvRecover?
  }

  /** The one object an event is about. */
  function Subject(w: World, e: Event): Id128 {
    match e
    case EvRegister(id, _, _, _) => id
    case EvInvalidate(id, _) => id
    case EvDemote(id) => id
    case EvEvict(id) => id
    case EvWarmToReady(id) => id
    case EvSetDimensions(id, _) => id
    case EvMarkUsed(id, _) => id
    case EvWarmBegin(_, id) => id
    case EvWarmFinish(call, _, _) => if call in w.pending then w.pending[call].id else 0
    case _ => 0
  }

  predicate WarmPhase(e: Event) {
    e.EvWarmBegin? || e.EvWarmFinish? || e.EvWarmToReady?
  }

  /** The step rewrote at most the subject, and left that clean. */
  ghost predicate LeavesSubjectClean(w: World, e: Event) {
    var f' := FabStep(w, e); var id := Subject(w, e);
    || f'.objects == w.fab.objects
    || (id in f'.objects && f'.objects == w.fab.objects[id := f'.objects[id]] && CleanObject(f'.objects[id]))
  }

  lemma WarmPhaseClean(w: World, e: Event)
    requires WarmPhase(e) && forall id :: id in w.fab.objects ==> CleanObject(w.fab.objects[id])
    ensures LeavesSubjectClean(w, e)
  {
    hide TransitionAllowed, Acquire, ReleaseHold;
  }

  lemma OtherClean(w: World, e: Event)
    requires OneObject(e) && !WarmPhase(e) && forall id :: id in w.fab.objects ==> CleanObject(w.fab.objects[id])
    ensures LeavesSubjectClean(w, e)
  {
    hide TransitionAllowed;
  }

  lemma SubjectClean(w: World, e: Event)
    requires OneObject(e)
    requires forall id :: id in w.fab.objects ==> CleanObject(w.fab.objects[id])
    ensures LeavesSubjectClean(w, e)
  {
    hide LeavesSubjectClean, CleanObject;
    if WarmPhase(e) {
      WarmPhaseClean(w, e);
    } else {
      OtherClean(w, e);
    }
  }

  /** When ready objects stay free of a reason, exactly: in every state up to n iff no file recovered before n
      held a HOT object. */
  lemma {:induction false} CleanExactly(config: Config, worlds: seq<World>, events: seq<Event>, n: nat)
    requires Run(config, worlds, events) && n < |worlds|
    ensures (forall i :: 0 <= i <= n ==> Clean(worlds[i].fab)) <==> (forall i :: 0 <= i < n ==> LoadsCold(events[i]))
  {
    hide FabStep, PendingStep, LoadsCold, Enabled, Run;
    RunStarts(config, worlds, events);
    if n == 0 {
      assert forall id :: !worlds[0].fab.ReadyAt(id);
    } else {
      CleanExactly(config, worlds, events, n - 1);
      hide Clean;
      RunStep(config, worlds, events, n - 1);
      if Clean(worlds[n - 1].fab) {
        StepClean(worlds[n - 1], events[n - 1]);
      }
    }
  }

  /** In every interleaving, recoveries included, a ready object carries no invalidation reason, as long as no
      recovered file held a HOT object. */
  lemma ReadyMeansNoReason(config: Config, worlds: seq<World>, events: seq<Event>, n: nat, id: Id128)
    requires Run(config, worlds, events) && n < |worlds| && worlds[n].fab.ReadyAt(id)
    requires forall i :: 0 <= i < n ==> LoadsCold(events[i])
    ensures worlds[n].fab.objects[id].invalidation == None
  {
    hide Step, LoadsCold, Enabled;
    CleanExactly(config, worlds, events, n);
    assert Clean(worlds[n].fab);
  }

  // ---- no object becomes HOT ----

  lemma SubjectCool(w: World, e: Event)
    requires OneObject(e) && Cool(w.fab)
    ensures Cool(FabStep(w, e))
  {
    hide TransitionAllowed, Acquire, ReleaseHold;
  }

  lemma StepCool(w: World, e: Event)
    requires Cool(w.fab)
    ensures Cool(FabStep(w, e)) <==> LoadsCold(e)
  {
    hide Decode, Recover, FiniteSnapshot, PutPayload, Distinct, NoneHot;
    match e
    case EvRecover(file) =>
      if Loaded(e).Some? {
        DecodedIsReadable(file);
        RecoveredClean(w.fab, Loaded(e).value);
      }
    case EvDecay(now, flags) =>
      forall id | id in w.fab.objects ensures !ApplyDecay(w.fab.objects[id], w.fab.config.policy.decay, now, flags).state.HOT? {
        ProposalIsDownhillEdge(w.fab.objects[id], w.fab.config.policy.decay, now, flags);
      }
    case EvBumpDependency =>
    case EvBumpWarmth =>
    case _ => SubjectCool(w, e);
  }

  /** No operation of the fabric makes an object HOT: one is held only after a file that held one. */
  lemma {:induction false} CoolExactly(config: Config, worlds: seq<World>, events: seq<Event>, n: nat)
    requires Run(config, worlds, events) && n < |worlds|
    ensures (forall i :: 0 <= i <= n ==> Cool(worlds[i].fab)) <==> (forall i :: 0 <= i < n ==> LoadsCold(events[i]))
  {
    hide FabStep, PendingStep, LoadsCold, Enabled, Run;
    RunStarts(config, worlds, events);
    if n > 0 {
      CoolExactly(config, worlds, events, n - 1);
      hide Cool;
      RunStep(config, worlds, events, n - 1);
      if Cool(worlds[n - 1].fab) {
        StepCool(worlds[n - 1], events[n - 1]);
      }
    }
  }

  // ---- the registry a recovery restores ----

  /** Recovery leaves an object ready exactly when it was saved HOT: HOT to DISCOVERED is not an edge. */
  lemma ReadyAfterRestartIffHot(o: WarmthObject)
    ensures Revalidate(o).Ready() <==> o.state.HOT?
  {
  }

  ghost predicate RestoredFrom(m: map<Id128, WarmthObject>, os: seq<WarmthObject>) {
    && (forall id: Id128 :: id in m <==> IdAmong(id, os))
    && (forall i :: 0 <= i < |os| ==> os[i].id in m && m[os[i].id] == Revalidate(os[i]))
  }

  lemma AmongSnoc(os: seq<WarmthObject>, o: WarmthObject, id: Id128)
    ensures IdAmong(id, os + [o]) <==> IdAmong(id, os) || id == o.id
  {
    if IdAmong(id, os) {
      var j :| 0 <= j < |os| && os[j].id == id;
      assert (os + [o])[j].id == id;
    }
    assert (os + [o])[|os|] == o;
  }

  lemma SnocRestored(m: map<Id128, WarmthObject>, os: seq<WarmthObject>, o: WarmthObject)
    requires RestoredFrom(m, os) && !IdAmong(o.id, os)
    ensures RestoredFrom(m[o.id := Revalidate(o)], os + [o])
  {
    hide Revalidate;
    var m', all := m[o.id := Revalidate(o)], os + [o];
    forall id: Id128 ensures id in m' <==> IdAmong(id, all) {
      AmongSnoc(os, o, id);
    }
    forall i | 0 <= i < |all| ensures all[i].id in m' && m'[all[i].id] == Revalidate(all[i]) {
      if i < |os| {
        assert all[i] == os[i];
        assert IdAmong(os[i].id, os);
      }
    }
  }

  lemma DistinctInit(os: seq<WarmthObject>)
    requires Distinct(os) && os != []
    ensures Distinct(os[..|os| - 1]) && !IdAmong(os[|os| - 1].id, os[..|os| - 1])
  {
  }

  lemma {:induction false} RestoreIs(os: seq<WarmthObject>)
    requires Distinct(os)
    ensures |Restore(os)| == |os| && RestoredFrom(Restore(os), os)
    decreases |os|
  {
    hide Revalidate, RestoredFrom, Distinct, IdAmong;
    if os == [] {
      NothingRestored();
    } else {
      var before := os[..|os| - 1];
      var o := os[|os| - 1];
      DistinctInit(os);
      RestoreIs(before);
      NotRestored(Restore(before), before, o.id);
      SnocRestored(Restore(before), before, o);
      assert os == before + [o];
    }
  }

  lemma NothingRestored()
    ensures RestoredFrom(map[], [])
  {
  }

  lemma NotRestored(m: map<Id128, WarmthObject>, os: seq<WarmthObject>, id: Id128)
    requires RestoredFrom(m, os) && !IdAmong(id, os)
    ensures id !in m
  {
    hide IdAmong;
  }
}
