/** What each critical section of the fabric does, object by object and field by field, said without the
    functions that compute it; and that an object is PREPARING only while a call is warming it. */
module FabricEffects {
  import opened Basics
  import opened WarmthStates
  import opened WarmthObjects
  import opened Policies
  import opened Decay
  import opened Budgets
  import opened Snapshots
  import opened SnapshotGrammar
  import opened FabricModel
  import opened FabricProofs
  import ObjectGrammar
  import Recovery
  import Formats
  import opened SnapshotFormats

  /** Only the object changes, or is added. */
  predicate OnlyObject(f: Fab, f': Fab, id: Id128) {
    && id in f'.objects && f' == f.(objects := f'.objects) && f'.objects == f.objects[id := f'.objects[id]]
  }

  // ---- operations without a concurrent part ----

  lemma RegisterEffect(w: World, id: Id128, category: Category, owner: Owner, gen: Word64)
    ensures var f, f' := w.fab, Step(w, EvRegister(id, category, owner, gen)).fab;
      && OnlyObject(f, f', id)
      && var o := f'.objects[id];
         && o.id == id && o.category == category && o.workload == f.config.workload && o.node == f.config.node
         && o.device == f.config.device && o.backend == f.config.backend && o.owner == owner.logical
         && o.model == owner.model && o.artifact == owner.artifact && o.replica == owner.replica
         && o.engine == owner.engine && o.warmthGen == gen
         && o.state == COLD && o.stateReason == [] && (forall i :: 0 <= i < 12 ==> o.dims[i] == COLD_DIM)
         && o.lastPrepared == 0 && o.lastUsed == 0 && o.estimatedCost == 0 && o.measuredCost == 0
         && o.estimatedTtr == 0 && o.observedTtr == 0 && o.residency == NONE && o.lifecycle == 0
         && o.confidence == 0 && o.freshness == 0 && o.depGens == map[] && o.invalidation == None
         && o.provenance == LOCAL
  {
  }

  /** Invalidation is refused for an unknown or evicted object; otherwise three of the device dimensions, not
      the allocator's, go cold. */
  lemma InvalidateEffect(w: World, id: Id128, reason: Text)
    ensures var f, f' := w.fab, Step(w, EvInvalidate(id, reason)).fab;
      && Invalidate(f, id, reason) == (id in f.objects && !f.objects[id].state.EVICTED?, f')
      && if id !in f.objects || f.objects[id].state.EVICTED? then f' == f
         else
           && OnlyObject(f, f', id)
           && var o, o' := f.objects[id], f'.objects[id];
              && o' == o.(state := INVALIDATED, stateReason := Ascii("invalidation"), invalidation := Some(reason),
                          dims := o'.dims)
              && forall i :: 0 <= i < 12 ==> o'.dims[i] == if 5 <= i <= 7 then COLD_DIM else o.dims[i]
  {
  }

  lemma DemoteEffect(w: World, id: Id128)
    ensures var f, f' := w.fab, Step(w, EvDemote(id)).fab;
      var live := id in f.objects && (f.objects[id].state.HOT? || f.objects[id].state.WARM? || f.objects[id].state.PARTIALLY_WARM?);
      && Demote(f, id) == (live, f')
      && if !live then f' == f
         else
           && OnlyObject(f, f', id)
           && f'.objects[id] == f.objects[id].(stateReason := Ascii("demote"), state := f'.objects[id].state)
           && Level(f'.objects[id].state) == (if f.objects[id].state.PARTIALLY_WARM? then 0 else Level(f.objects[id].state) - 1)
  {
  }

  /** Eviction is refused for an unknown or failed object; otherwise what was on the device drops to the host. */
  lemma EvictEffect(w: World, id: Id128)
    ensures var f, f' := w.fab, Step(w, EvEvict(id)).fab;
      && Evict(f, id) == (id in f.objects && !f.objects[id].state.FAILED?, f')
      && if id !in f.objects || f.objects[id].state.FAILED? then f' == f
         else
           && OnlyObject(f, f', id)
           && var o, o' := f.objects[id], f'.objects[id];
              && o' == o.(state := EVICTED, stateReason := Ascii("evict"), residency := o'.residency, dims := o'.dims)
              && o'.residency == (if o.residency.DEVICE_RESIDENT? || o.residency.MIRRORED? then HOST_ONLY else o.residency)
              && DeviceSet(o.dims, o'.dims, COLD_DIM)
  {
  }

  lemma WarmToReadyEffect(w: World, id: Id128)
    ensures var f, f' := w.fab, Step(w, EvWarmToReady(id)).fab;
      && WarmToReady(f, id) == (id in f.objects, f')
      && if id !in f.objects then f' == f
         else
           && OnlyObject(f, f', id)
           && var o, o' := f.objects[id], f'.objects[id]; var ready := o.state.WARM? || o.state.HOT?;
              && o' == o.(dims := o'.dims, residency := DEVICE_RESIDENT, provenance := MEASURED, state := o'.state,
                          stateReason := o'.stateReason, invalidation := o'.invalidation)
              && (forall i :: 0 <= i < 12 ==> o'.dims[i] == VALID_DIM)
              && if ready then o'.state == o.state && o'.stateReason == o.stateReason && o'.invalidation == o.invalidation
                 else o'.state == WARM && o'.stateReason == Ascii("warm_to_ready") && o'.invalidation == None
  {
    if id in w.fab.objects {
      ReachWarmIsReady(w.fab.objects[id].(dims := AllDims(VALID_DIM)), Ascii("warm_to_ready"));
    }
  }

  lemma SettersEffect(w: World, id: Id128, dims: Dimensions, now: Timestamp)
    ensures var f, f' := w.fab, Step(w, EvSetDimensions(id, dims)).fab;
      && SetDimensions(f, id, dims) == (id in f.objects, f')
      && if id !in f.objects then f' == f else OnlyObject(f, f', id) && f'.objects[id] == f.objects[id].(dims := dims)
    ensures var f, f' := w.fab, Step(w, EvMarkUsed(id, now)).fab;
      && MarkUsed(f, id, now) == (id in f.objects, f')
      && if id !in f.objects then f' == f else OnlyObject(f, f', id) && f'.objects[id] == f.objects[id].(lastUsed := now)
  {
  }

  lemma DecayEffect(w: World, now: Timestamp, flags: Flags)
    ensures var f, f' := w.fab, Step(w, EvDecay(now, flags)).fab;
      && f' == f.(objects := f'.objects) && f'.objects.Keys == f.objects.Keys
      && forall id :: id in f.objects ==> DecayedTo(f.objects[id], f'.objects[id], f.config.policy.decay, now, flags)
  {
    hide DecayedTo, ApplyDecay;
    forall id | id in w.fab.objects
      ensures DecayedTo(w.fab.objects[id], ApplyDecay(w.fab.objects[id], w.fab.config.policy.decay, now, flags),
                        w.fab.config.policy.decay, now, flags)
    {
      DecayByOutcome(w.fab.objects[id], w.fab.config.policy.decay, now, flags);
    }
  }

  lemma BumpEffect(w: World)
    ensures Step(w, EvBumpDependency).fab == w.fab.(depGen := Step(w, EvBumpDependency).fab.depGen)
    ensures Step(w, EvBumpWarmth).fab == w.fab.(warmthGen := Step(w, EvBumpWarmth).fab.warmthGen)
    ensures w.fab.depGen < 0xFFFF_FFFF_FFFF_FFFF ==> Step(w, EvBumpDependency).fab.depGen == w.fab.depGen + 1
    ensures w.fab.warmthGen < 0xFFFF_FFFF_FFFF_FFFF ==> Step(w, EvBumpWarmth).fab.warmthGen == w.fab.warmthGen + 1
    ensures w.fab.depGen == 0xFFFF_FFFF_FFFF_FFFF ==> Step(w, EvBumpDependency).fab == w.fab
    ensures w.fab.warmthGen == 0xFFFF_FFFF_FFFF_FFFF ==> Step(w, EvBumpWarmth).fab == w.fab
  {
  }

  // ---- the phases of warm ----

  predicate SlotLeft(l: Ledger) {
    l.Limit(CONCURRENT_WARMING_OPS) == 0 || l.Usage(CONCURRENT_WARMING_OPS) + 1 <= l.Limit(CONCURRENT_WARMING_OPS)
  }

  /** 2^30 bytes of device memory are left. */
  predicate MemoryLeft(l: Ledger) {
    l.Limit(DEVICE_MEMORY) == 0 || l.Usage(DEVICE_MEMORY) + 0x4000_0000 <= l.Limit(DEVICE_MEMORY)
  }

  predicate Preparable(o: WarmthObject) {
    !o.state.WARM? && !o.state.HOT? && !o.state.STALE? && !o.state.FAILED?
  }

  /** When a warming is admitted: 2^30 bytes of device memory must be left; the operation slot is taken exactly
      when one is left. */
  lemma AcquireExactly(l: Ledger)
    requires 0 < l.nextId && Headroom(l) && forall id :: id in l.reservations ==> 0 < id < l.nextId
    ensures Acquire(l).Some? <==> MemoryLeft(l)
    ensures Acquire(l).Some? ==> (Acquire(l).value.0.op != 0 <==> SlotLeft(l))
  {
    if Acquire(l).Some? {
      var l1 := Reserve(l, DEVICE_MEMORY, WARM_BYTES).1;
      assert l1.Usage(CONCURRENT_WARMING_OPS) == l.Usage(CONCURRENT_WARMING_OPS);
    }
  }

  /** Phase 1 is refused for an unknown object or without device memory, and then changes nothing; it is refused
      for a ready, stale or failed object, and then gives the hold back, its ids used up. */
  lemma BeginRefused(w: World, call: Word64, id: Id128)
    requires Admission(w) && call !in w.pending && Headroom(w.fab.budget)
    ensures var f := w.fab; var w' := Step(w, EvWarmBegin(call, id));
      && (id !in f.objects || !MemoryLeft(f.budget) ==> w' == w)
      && (id in f.objects && MemoryLeft(f.budget) && !Preparable(f.objects[id]) ==>
            && w' == World(f.(budget := w'.fab.budget), w.pending)
            && w'.fab.budget.reservations == f.budget.reservations
            && w'.fab.budget.nextId == f.budget.nextId + (if SlotLeft(f.budget) then 2 else 1))
  {
    hide Acquire, ReleaseHold, Accounts, Covers, HoldIds;
    BookedIds(w.fab.budget, Holds(w.pending));
    AcquireExactly(w.fab.budget);
    if id in w.fab.objects && Acquire(w.fab.budget).Some? {
      AcquireGrows(w.fab.budget);
      HoldGivenBack(w.fab.budget, Acquire(w.fab.budget).value.0, Acquire(w.fab.budget).value.1);
    }
  }

  /** Otherwise the call is admitted, holding ids never handed out before, and the object is PREPARING. */
  lemma BeginAdmitted(w: World, call: Word64, id: Id128)
    requires Admission(w) && call !in w.pending && Headroom(w.fab.budget)
    requires id in w.fab.objects && MemoryLeft(w.fab.budget) && Preparable(w.fab.objects[id])
    ensures var f := w.fab; var w' := Step(w, EvWarmBegin(call, id));
      && call in w'.pending && w'.pending == w.pending[call := Pending(id, w'.pending[call].hold)]
      && w'.fab == f.(budget := w'.fab.budget, objects := f.objects[id := w'.fab.objects[id]])
      && w'.fab.objects[id] == f.objects[id].(state := PREPARING, stateReason := Ascii("warming"))
      && w'.fab.budget.reservations.Keys == f.budget.reservations.Keys + HoldIds(w'.pending[call].hold)
      && HoldIds(w'.pending[call].hold) !! f.budget.reservations.Keys
      && (w'.pending[call].hold.op != 0 <==> SlotLeft(f.budget))
  {
    hide Acquire, ReleaseHold, Accounts, Covers, HoldIds;
    BookedIds(w.fab.budget, Holds(w.pending));
    AcquireExactly(w.fab.budget);
    AcquireGrows(w.fab.budget);
    HoldGivenBack(w.fab.budget, Acquire(w.fab.budget).value.0, Acquire(w.fab.budget).value.1);
  }

  lemma BookedIds(l: Ledger, holds: map<Word64, Hold>)
    requires Accounts(l, holds)
    ensures 0 < l.nextId && forall id :: id in l.reservations ==> 0 < id < l.nextId
  {
    hide Covers;
  }

  lemma HoldGivenBack(l: Ledger, h: Hold, l': Ledger)
    requires Grew(l, h, l') && 0 < l.nextId && forall id :: id in l.reservations ==> 0 < id < l.nextId
    ensures HoldIds(h) !! l.reservations.Keys && l'.reservations.Keys == l.reservations.Keys + HoldIds(h)
    ensures ReleaseHold(l', h).reservations == l.reservations && ReleaseHold(l', h).nextId == l'.nextId
  {
  }

  /** Phase 3 of a call in progress: its hold is given back whatever happens; a completion stores its
      measurements and makes the object WARM where the table allows it; a failure makes it FAILED unless it was
      evicted; an object that is gone is left alone. */
  lemma FinishEffect(w: World, call: Word64, r: Outcome, now: Timestamp)
    requires Admission(w) && call in w.pending
    ensures var f := w.fab; var w' := Step(w, EvWarmFinish(call, r, now)); var id := w.pending[call].id;
      && w'.pending == w.pending - {call}
      && w'.fab.budget.reservations == f.budget.reservations - HoldIds(w.pending[call].hold)
      && if id !in f.objects then w'.fab == f.(budget := w'.fab.budget)
         else
           && OnlyObject(f.(budget := w'.fab.budget), w'.fab, id)
           && FinishedAs(f.objects[id], w'.fab.objects[id], r, now)
  {
    hide ReleaseHold, Accounts, HoldIds, FinishedAs, Completed;
    ReleaseAccounts(w.fab.budget, Holds(w.pending), call);
    HoldReleased(w.fab.budget, Holds(w.pending), call);
    if w.pending[call].id in w.fab.objects {
      FinishIs(w.fab.objects[w.pending[call].id], r, now);
    }
  }

  predicate FinishedAs(o: WarmthObject, o': WarmthObject, r: Outcome, now: Timestamp) {
    if r.success then
      && o' == o.(invalidation := None, measuredCost := r.bytes, observedTtr := r.duration, lastPrepared := now,
                  lastUsed := now, provenance := MEASURED, residency := DEVICE_RESIDENT, state := o'.state,
                  stateReason := o'.stateReason)
      && if o.state.COLD? || o.state.INVALIDATED? || o.state.EVICTED? || o.state.FAILED?
         then o'.state == o.state && o'.stateReason == o.stateReason
         else o'.state == WARM && o'.stateReason == Ascii("warm_completed")
    else if o.state.EVICTED? then o' == o
    else o' == o.(state := FAILED, stateReason := Ascii("warming_hook_failed"))
  }

  lemma FinishIs(o: WarmthObject, r: Outcome, now: Timestamp)
    ensures r.success ==> FinishedAs(o, Completed(o, r, now), r, now)
    ensures !r.success ==> FinishedAs(o, o.Transition(FAILED, Ascii("warming_hook_failed")), r, now)
  {
  }

  lemma HoldReleased(l: Ledger, holds: map<Word64, Hold>, a: Word64)
    requires Accounts(l, holds) && a in holds
    ensures ReleaseHold(l, holds[a]).reservations == l.reservations - HoldIds(holds[a])
  {
    assert Live(l.reservations, holds[a]);
    ReleaseAccounts(l, holds, a);
  }

  // ---- recovery ----

  predicate RevalidatedAs(o: WarmthObject, o': WarmthObject) {
    && o' == o.(state := o'.state, stateReason := o'.stateReason, dims := o'.dims, provenance := REPORTED,
                invalidation := Some(Ascii("restart_revalidation_required")))
    && DeviceSet(o.dims, o'.dims, COLD_DIM)
    && if o.state.WARM? then o'.state == DISCOVERED && o'.stateReason == Ascii("restart_revalidation")
       else o'.state == o.state && o'.stateReason == o.stateReason
  }

  lemma RevalidateIs(o: WarmthObject)
    ensures RevalidatedAs(o, Revalidate(o))
  {
  }

  /** A file that decodes replaces registry, policy, tracker and generations; the calls in progress stay. */
  lemma RecoverEffect(w: World, file: seq<Byte>)
    ensures var f := w.fab; var w' := Step(w, EvRecover(file)); var g := w'.fab;
      if Decode(file).None? then w' == w
      else
        var s := Decode(file).value;
        && w'.pending == w.pending && g.config == f.config.(policy := s.policy)
        && g.budget == Ledger(s.policy.budgets, map[], map[], 1)
        && g.warmthGen == Next(s.warmthGen) && g.depGen == Next(s.depGen) && g.policyGen == Next(s.policyGen)
        && (forall id: Id128 :: id in g.objects <==> IdAmong(id, s.objects))
        && (forall i :: 0 <= i < |s.objects| ==>
              s.objects[i].id in g.objects && RevalidatedAs(s.objects[i], g.objects[s.objects[i].id]))
  {
    hide Decode, Restore, Revalidate, RevalidatedAs, IdAmong, PutPayload, FiniteSnapshot;
    if Decode(file).Some? {
      var os := Decode(file).value.objects;
      DecodedIsReadable(file);
      RestoreIs(os);
      forall i | 0 <= i < |os| ensures RevalidatedAs(os[i], Revalidate(os[i])) {
        RevalidateIs(os[i]);
      }
    }
  }

  /** The next generation, at most the largest one. */
  function Next(g: Word64): (n: Word64)
    ensures g < 0xFFFF_FFFF_FFFF_FFFF ==> n == g + 1
    ensures g == 0xFFFF_FFFF_FFFF_FFFF ==> n == g
  {
    if g < 0xFFFF_FFFF_FFFF_FFFF then g + 1 else g
  }

  // ---- PREPARING means that a call is in progress ----

  predicate CallFor(w: World, id: Id128) {
    exists c :: c in w.pending && w.pending[c].id == id
  }

  /** An object is PREPARING only while some call between its phases 1 and 3 is for it. */
  ghost predicate PreparingBacked(w: World) {
    forall id :: id in w.fab.objects && w.fab.objects[id].state.PREPARING? ==> CallFor(w, id)
  }

  /** A recovered file holds no PREPARING object without a call in progress for it. */
  ghost predicate LoadsBacked(w: World, e: Event) {
    Loaded(e).Some? ==>
      forall i :: 0 <= i < |Loaded(e).value.objects| && Loaded(e).value.objects[i].state.PREPARING? ==>
        CallFor(w, Loaded(e).value.objects[i].id)
  }

  lemma RecoveryBacked(w: World, e: Event)
    requires Loaded(e).Some?
    ensures PreparingBacked(Step(w, e)) <==> LoadsBacked(w, e)
  {
    hide Decode, CallFor;
    RecoverEffect(w, e.file);
    var w', os := Step(w, e), Loaded(e).value.objects;
    forall id ensures CallFor(w', id) <==> CallFor(w, id) {
      SameCalls(w, w', id);
    }
    if LoadsBacked(w, e) {
      forall id | id in w'.fab.objects && w'.fab.objects[id].state.PREPARING? ensures CallFor(w', id) {
        assert IdAmong(id, os);
        var i :| 0 <= i < |os| && os[i].id == id;
        assert RevalidatedAs(os[i], w'.fab.objects[id]);
      }
    }
    if PreparingBacked(w') {
      forall i | 0 <= i < |os| && os[i].state.PREPARING? ensures CallFor(w, os[i].id) {
        assert RevalidatedAs(os[i], w'.fab.objects[os[i].id]);
      }
    }
  }

  lemma SameCalls(w: World, w': World, id: Id128)
    requires w'.pending == w.pending
    ensures CallFor(w', id) <==> CallFor(w, id)
  {
  }

  /** No operation but phase 1 makes an object PREPARING. */
  lemma OthersPrepareNothing(w: World, e: Event, id: Id128)
    requires !e.EvWarmBegin? && !e.EvWarmFinish? && Loaded(e) == None
    requires id in FabStep(w, e).objects && FabStep(w, e).objects[id].state.PREPARING?
    ensures id in w.fab.objects && w.fab.objects[id].state.PREPARING?
  {
    hide Decode, ReachWarm;
    match e
    case EvWarmToReady(i) =>
      if i in w.fab.objects {
        ReachWarmIsReady(w.fab.objects[i].(dims := AllDims(VALID_DIM)), Ascii("warm_to_ready"));
      }
    case EvDecay(now, flags) => ProposalIsDownhillEdge(w.fab.objects[id], w.fab.config.policy.decay, now, flags);
    case _ =>
  }

  lemma BeginBacked(w: World, call: Word64, id: Id128)
    requires PreparingBacked(w) && call !in w.pending
    ensures PreparingBacked(Step(w, EvWarmBegin(call, id)))
  {
    hide Acquire, ReleaseHold, TransitionAllowed;
    var w' := Step(w, EvWarmBegin(call, id));
    forall i | i in w'.fab.objects && w'.fab.objects[i].state.PREPARING? ensures CallFor(w', i) {
      if i in w.fab.objects && w.fab.objects[i].state.PREPARING? {
        var c :| c in w.pending && w.pending[c].id == i;
        assert c in w'.pending && w'.pending[c].id == i;
      } else {
        assert i == id && call in w'.pending && w'.pending[call].id == id;
      }
    }
  }

  lemma FinishBacked(w: World, call: Word64, r: Outcome, now: Timestamp)
    requires PreparingBacked(w) && call in w.pending
    ensures PreparingBacked(Step(w, EvWarmFinish(call, r, now)))
  {
    hide ReleaseHold, Completed, FinishedAs;
    var w' := Step(w, EvWarmFinish(call, r, now));
    var id := w.pending[call].id;
    if id in w.fab.objects {
      FinishIs(w.fab.objects[id], r, now);
      NotPreparing(w.fab.objects[id], w'.fab.objects[id], r, now);
    }
    forall i | i in w'.fab.objects && w'.fab.objects[i].state.PREPARING? ensures CallFor(w', i) {
      assert i != id && i in w.fab.objects && w.fab.objects[i].state.PREPARING?;
      var c :| c in w.pending && w.pending[c].id == i;
      assert c in w'.pending && w'.pending[c].id == i;
    }
  }

  lemma NotPreparing(o: WarmthObject, o': WarmthObject, r: Outcome, now: Timestamp)
    requires FinishedAs(o, o', r, now)
    ensures !o'.state.PREPARING?
  {
  }

  /** One step keeps it, unless it recovers a file with a PREPARING object nobody is warming. */
  lemma StepBacked(w: World, e: Event)
    requires PreparingBacked(w) && Enabled(w, e)
    ensures PreparingBacked(Step(w, e)) <==> LoadsBacked(w, e)
  {
    hide Decode, CallFor, FabStep;
    if Loaded(e).Some? {
      RecoveryBacked(w, e);
    } else if e.EvWarmBegin? {
      BeginBacked(w, e.call, e.id);
    } else if e.EvWarmFinish? {
      FinishBacked(w, e.call, e.outcome, e.now);
    } else {
      OthersBacked(w, e);
    }
  }

  lemma OthersBacked(w: World, e: Event)
    requires PreparingBacked(w) && !e.EvWarmBegin? && !e.EvWarmFinish? && Loaded(e) == None
    ensures PreparingBacked(Step(w, e))
  {
    hide Decode, CallFor, FabStep;
    var w' := Step(w, e);
    forall id | id in w'.fab.objects && w'.fab.objects[id].state.PREPARING? ensures CallFor(w', id) {
      OthersPrepareNothing(w, e, id);
      SameCalls(w, w', id);
    }
  }

  /** In every run, exactly: no object is PREPARING without a call in progress for it, in all states up to n, iff
      no file recovered before n held a PREPARING object without such a call. */
  lemma {:induction false} PreparingExactly(config: Config, worlds: seq<World>, events: seq<Event>, n: nat)
    requires Run(config, worlds, events) && n < |worlds|
    ensures (forall i :: 0 <= i <= n ==> PreparingBacked(worlds[i])) <==>
            (forall i :: 0 <= i < n ==> LoadsBacked(worlds[i], events[i]))
  {
    hide Step, LoadsBacked, Enabled, Run;
    RunStarts(config, worlds, events);
    if n > 0 {
      PreparingExactly(config, worlds, events, n - 1);
      RunStep(config, worlds, events, n - 1);
      hide PreparingBacked;
      if PreparingBacked(worlds[n - 1]) {
        StepBacked(worlds[n - 1], events[n - 1]);
      }
    }
  }

  /** In particular: once no call is in progress, no object is left PREPARING. */
  lemma NothingLeftPreparing(config: Config, worlds: seq<World>, events: seq<Event>, n: nat, id: Id128)
    requires Run(config, worlds, events) && n < |worlds| && worlds[n].pending == map[]
    requires forall i :: 0 <= i < n ==> LoadsBacked(worlds[i], events[i])
    ensures id in worlds[n].fab.objects ==> !worlds[n].fab.objects[id].state.PREPARING?
  {
    hide Step, LoadsBacked, Enabled, Run;
    PreparingExactly(config, worlds, events, n);
    assert PreparingBacked(worlds[n]);
  }

  // ---- what a save writes ----

  /** The file of a fabric: epoch 1, its three generations, its policy, and its objects by ascending id. */
  lemma SaveLayout(f: Fab) returns (es: Formats.Entries)
    requires Recovery.AllSavable(f) && f.config.policy.FiniteNumbers() && |f.objects| <= 1_000_000
    requires |PutPayload(TakeSnapshot(f))| < U32_LIMIT && ObjectGrammar.AllSized(Listed(f.objects))
    ensures WrittenEntries(es, Listed(f.objects)) && |es| == |f.objects|
    ensures Encode(TakeSnapshot(f)) == Some(Formats.Lay(FileTable(Formats.Lay(
      [Formats.Num(8, 1), Formats.Num(8, f.warmthGen), Formats.Num(8, f.depGen), Formats.Num(8, f.policyGen)]
      + PolicyTable(f.config.policy) + [Formats.Num(4, |f.objects|)] + Formats.EntriesTable(es), [])), []))
  {
    hide Listed, PutPayload, PolicyTable, FileTable, Formats.Lay, Formats.EntriesTable, WrittenEntries, Encode;
    Recovery.SavesReadable(f);
    es := EncodeLayout(TakeSnapshot(f));
    EntriesCount(es, Listed(f.objects));
  }
}
