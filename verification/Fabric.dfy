/** The fabric facade: every operation equals its step of the model, one method per critical section. */
module Fabrics {
  import opened Basics
  import opened WarmthStates
  import opened WarmthObjects
  import opened Policies
  import opened Decay
  import opened Budgets
  import opened Snapshots
  import opened SnapshotGrammar
  import SnapshotCodec
  import F = FabricModel

  class WarmthFabric {
    var config: F.Config
    var objects: map<Id128, WarmthObject>
    var budget: BudgetTracker
    var warmthGen: Word64
    var depGen: Word64
    var policyGen: Word64

    ghost function View(): F.Fab
      reads this, budget
    {
      F.Fab(config, objects, budget.View(), warmthGen, depGen, policyGen)
    }

    constructor (config: F.Config)
      ensures View() == F.Start(config) && fresh(budget)
    {
      this.config := config;
      objects := map[];
      budget := new BudgetTracker(config.policy.budgets);
      warmthGen, depGen, policyGen := 1, 1, config.policy.generation;
    }

    /** `gen` is the warmth generation as it was read before the lock. */
    method Register(id: Id128, category: Category, owner: F.Owner, gen: Word64)
      modifies this`objects
      ensures View() == F.Register(old(View()), id, category, owner, gen)
    {
      var o := NewObject(id, category, config.workload, config.node, config.device, config.backend);
      o := o.(owner := owner.logical, model := owner.model, artifact := owner.artifact);
      o := o.(replica := owner.replica, engine := owner.engine, warmthGen := gen);
      objects := objects[id := o];
    }

    method Invalidate(id: Id128, reason: Text) returns (ok: bool)
      modifies this`objects
      ensures (ok, View()) == F.Invalidate(old(View()), id, reason)
    {
      if id !in objects {
        return false;
      }
      var o := objects[id];
      if !TransitionAllowed(o.state, INVALIDATED) {
        return false;
      }
      o := o.(invalidation := Some(reason));
      o := o.Transition(INVALIDATED, Ascii("invalidation"));
      o := o.(dims := o.dims[CUDA_CONTEXT := COLD_DIM]);
      o := o.(dims := o.dims[KERNEL := COLD_DIM]);
      o := o.(dims := o.dims[GRAPH := COLD_DIM]);
      objects := objects[id := o];
      ok := true;
    }

    method Demote(id: Id128) returns (ok: bool)
      modifies this`objects
      ensures (ok, View()) == F.Demote(old(View()), id)
    {
      if id !in objects {
        return false;
      }
      var o := objects[id];
      match o.state {
        case HOT => o := o.Transition(WARM, Ascii("demote"));
        case WARM => o := o.Transition(PARTIALLY_WARM, Ascii("demote"));
        case PARTIALLY_WARM => o := o.Transition(COLD, Ascii("demote"));
        case _ => return false;
      }
      objects := objects[id := o];
      ok := true;
    }

    method Evict(id: Id128) returns (ok: bool)
      modifies this`objects
      ensures (ok, View()) == F.Evict(old(View()), id)
    {
      if id !in objects {
        return false;
      }
      var o := objects[id];
      if !TransitionAllowed(o.state, EVICTED) {
        return false;
      }
      o := o.Transition(EVICTED, Ascii("evict"));
      if o.residency == DEVICE_RESIDENT || o.residency == MIRRORED {
        o := o.(residency := HOST_ONLY);
      }
      o := o.SetDevice(COLD_DIM);
      objects := objects[id := o];
      ok := true;
    }

    method WarmToReady(id: Id128) returns (ready: bool)
      modifies this`objects
      ensures (ready, View()) == F.WarmToReady(old(View()), id)
    {
      if id !in objects {
        return false;
      }
      var o := objects[id];
      o := o.(dims := AllDims(VALID_DIM));
      if !o.Ready() {
        o := ReachWarm(o, Ascii("warm_to_ready"));
        o := o.(invalidation := None);
      }
      o := o.(residency := DEVICE_RESIDENT, provenance := MEASURED);
      objects := objects[id := o];
      ready := o.Ready();
    }

    method SetDimensions(id: Id128, dims: Dimensions) returns (ok: bool)
      modifies this`objects
      ensures (ok, View()) == F.SetDimensions(old(View()), id, dims)
    {
      if id !in objects {
        return false;
      }
      objects := objects[id := objects[id].(dims := dims)];
      ok := true;
    }

    method MarkUsed(id: Id128, now: Timestamp) returns (ok: bool)
      modifies this`objects
      ensures (ok, View()) == F.MarkUsed(old(View()), id, now)
    {
      if id !in objects {
        return false;
      }
      objects := objects[id := objects[id].(lastUsed := now)];
      ok := true;
    }

    method DecayObjects(now: Timestamp, flags: Flags)
      modifies this`objects
      ensures View() == F.DecayAll(old(View()), now, flags)
    {
      ghost var before := objects;
      var todo := objects.Keys;
      while todo != {}
        invariant todo <= objects.Keys == before.Keys
        invariant forall id :: id in before ==>
          objects[id] == if id in todo then before[id] else ApplyDecay(before[id], config.policy.decay, now, flags)
        decreases todo
      {
        var id :| id in todo;
        var o := objects[id];
        var res := DecayObject(o, config.policy.decay, now, flags);
        if res.changed {
          o := o.Transition(res.state, ReasonText(res.reason));
        }
        objects := objects[id := o];
        todo := todo - {id};
      }
      assert objects == F.DecayEach(before, config.policy.decay, now, flags);
    }

    method BumpDependencyGeneration()
      modifies this`depGen
      ensures View() == old(View()).(depGen := NextGeneration(old(depGen)))
    {
      depGen := NextGeneration(depGen);
    }

    method BumpWarmthGeneration()
      modifies this`warmthGen
      ensures View() == old(View()).(warmthGen := NextGeneration(old(warmthGen)))
    {
      warmthGen := NextGeneration(warmthGen);
    }

    method ReleaseHold(h: Hold)
      modifies budget
      ensures budget.View() == Budgets.ReleaseHold(old(budget.View()), h)
    {
      var e := budget.ReleaseId(h.reservation);
      if h.op != 0 {
        e := budget.ReleaseId(h.op);
      }
    }

    /** Phase 1 of `warm`. */
    method WarmBegin(id: Id128) returns (hold: Option<Hold>)
      modifies this`objects, budget
      ensures (hold, View()) == F.WarmBegin(old(View()), id)
    {
      hide Budgets.Reserve, Budgets.ReleaseHold;
      if id !in objects {
        return None;
      }
      var o := objects[id];
      var reservation := budget.ReserveKind(DEVICE_MEMORY, WARM_BYTES);
      if reservation == 0 {
        return None;
      }
      var op := budget.ReserveKind(CONCURRENT_WARMING_OPS, 1);
      if !TransitionAllowed(o.state, PREPARING) {
        ReleaseHold(Hold(reservation, op));
        return None;
      }
      objects := objects[id := o.Transition(PREPARING, Ascii("warming"))];
      hold := Some(Hold(reservation, op));
    }

    /** Phase 3 of `warm`: `r` is what the unlocked operation returned. */
    method WarmFinish(id: Id128, hold: Hold, r: F.Outcome, now: Timestamp) returns (ok: bool)
      modifies this`objects, budget
      ensures (ok, View()) == F.WarmFinish(old(View()), id, hold, r, now)
    {
      hide Budgets.ReleaseHold;
      ReleaseHold(hold);
      if id !in objects {
        return false;
      }
      var o := objects[id];
      if r.success {
        o := o.Transition(WARM, Ascii("warm_completed"));
        o := o.(invalidation := None, measuredCost := r.bytes, observedTtr := r.duration);
        o := o.(lastPrepared := now, lastUsed := now, provenance := MEASURED, residency := DEVICE_RESIDENT);
        objects := objects[id := o];
        return true;
      }
      objects := objects[id := o.Transition(FAILED, Ascii("warming_hook_failed"))];
      ok := false;
    }

    /** The registry in ascending id order. */
    method Objects() returns (os: seq<WarmthObject>)
      ensures os == F.Listed(objects)
    {
      os := [];
      var todo: map<Id128, WarmthObject> := objects;
      while todo != map[]
        invariant os + F.Listed(todo) == F.Listed(objects)
        decreases |todo|
      {
        var id := FirstKey(todo);
        assert (todo - {id}).Keys == todo.Keys - {id};
        assert |(todo - {id}).Keys| == |todo.Keys| - 1;
        assert os + ([todo[id]] + F.Listed(todo - {id})) == (os + [todo[id]]) + F.Listed(todo - {id});
        os := os + [todo[id]];
        todo := todo - {id};
      }
    }

    method TakeSnapshot() returns (s: Snapshot)
      ensures s == F.TakeSnapshot(View())
    {
      var os := Objects();
      s := Snapshot(1, warmthGen, depGen, policyGen, config.policy, os);
    }

    method RestoreAll(os: seq<WarmthObject>)
      modifies this`objects
      ensures objects == F.Restore(os)
    {
      objects := map[];
      for i := 0 to |os|
        invariant objects == F.Restore(os[..i])
      {
        assert os[..i + 1][..i] == os[..i];
        var o := os[i];
        if ExecutionReady(o.state) || o.state == HOT {
          o := o.Transition(DISCOVERED, Ascii("restart_revalidation"));
        }
        o := o.(invalidation := Some(F.REVALIDATE));
        o := o.SetDevice(COLD_DIM);
        o := o.(provenance := REPORTED);
        objects := objects[o.id := o];
      }
      assert os[..|os|] == os;
    }

    /** `recover`, once the file has been read. */
    method Load(file: seq<Byte>) returns (ok: bool)
      modifies this
      ensures (ok, View()) == F.Load(old(View()), file)
    {
      hide Decode, F.Recover;
      var s := SnapshotCodec.DecodeSnapshot(file);
      if s.None? {
        return false;
      }
      Recover(s.value);
      ok := true;
    }

    /** The critical section of `recover`. */
    method Recover(s: Snapshot)
      modifies this
      ensures View() == F.Recover(old(View()), s) && fresh(budget)
    {
      warmthGen := NextGeneration(s.warmthGen);
      depGen := NextGeneration(s.depGen);
      policyGen := NextGeneration(s.policyGen);
      RestoreAll(s.objects);
      config := config.(policy := s.policy);
      budget := new BudgetTracker(s.policy.budgets);
    }
  }
}
