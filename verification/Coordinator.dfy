/** The coordinator itself: one method per critical section, each equal to its step of the model. */
module Coordinators {
  import opened Basics
  import opened WarmthStates
  import opened WarmthObjects
  import opened Policies
  import opened Decay
  import opened Budgets
  import opened MessageTypes
  import M = CoordinatorModel

  lemma ResultIgnoresBudget(s: M.Coord, b: Ledger, w: Id128, r: WarmResult, now: Timestamp)
    ensures M.ApplyResult(s.(budget := b), w, r, now) == M.ApplyResult(s, w, r, now).(budget := b)
  {
  }

  class Coordinator {
    var epoch: Word64
    var warmthGen: Word64
    var depGen: Word64
    var objects: map<Id128, WarmthObject>
    var conns: map<M.ConnId, M.Conn>
    var workers: map<Id128, M.ConnId>
    var lastBoot: map<Id128, Id128>
    var workerObjects: map<Id128, set<Id128>>
    const budget: BudgetTracker
    var inFlight: map<Word64, M.Attempt>
    var inFlightCount: Word64
    var attemptCounter: Word64

    ghost function View(): M.Coord
      reads this, budget
    {
      M.Coord(epoch, warmthGen, depGen, objects, conns, workers, lastBoot, workerObjects, budget.View(),
              inFlight, inFlightCount, attemptCounter)
    }

    constructor ()
      ensures View() == M.Start() && fresh(budget)
    {
      epoch, warmthGen, depGen := 0, 0, 0;
      objects, conns, workers, lastBoot, workerObjects := map[], map[], map[], map[], map[];
      inFlight, inFlightCount, attemptCounter := map[], 0, 1;
      budget := new BudgetTracker(UNLIMITED);
    }

    method Accept(c: M.ConnId)
      modifies this
      ensures View() == M.Step(old(View()), M.Accept(c))
    {
      conns := conns[c := M.Conn(true, false, 0, 0)];
    }

    method ConnOf(c: M.ConnId) returns (cs: M.Conn)
      ensures cs == View().ConnOf(c)
    {
      cs := if c in conns then conns[c] else M.Conn(false, false, 0, 0);
    }

    method Attribute(w: Id128, id: Id128)
      modifies this`workerObjects
      ensures View() == M.Attribute(old(View()), w, id)
    {
      workerObjects := workerObjects[w := (if w in workerObjects then workerObjects[w] else {}) + {id}];
    }

    /** Withdraws readiness from the named objects, one by one; ids without an object are skipped. */
    method RevokeEach(ids: set<Id128>, why: Text, reason: Text)
      modifies this`objects
      ensures objects == M.RevokeEach(old(objects), ids, why, reason)
    {
      ghost var before := objects;
      var todo := ids;
      while todo != {}
        invariant todo <= ids
        invariant objects.Keys == before.Keys
        invariant forall id :: id in before ==>
          objects[id] == if id in ids - todo then M.Revoke(before[id], why, reason) else before[id]
        decreases todo
      {
        var id :| id in todo;
        if id in objects {
          var o := objects[id];
          if LiveWarm(o.state) || o.state == STALE {
            o := o.Transition(INVALIDATED, why);
          }
          o := o.(invalidation := Some(reason));
          o := o.SetDevice(COLD_DIM);
          objects := objects[id := o];
        }
        todo := todo - {id};
      }
    }

    method InvalidateWorker(w: Id128)
      modifies this`objects, this`workerObjects
      ensures View() == M.InvalidateWorker(old(View()), w)
    {
      if w in workerObjects {
        RevokeEach(workerObjects[w], M.BOOT_CHANGED, M.BOOT_CHANGED);
        workerObjects := workerObjects[w := {}];
      }
    }

    method ObserveAll(w: Id128, os: seq<WarmthObject>)
      modifies this`objects, this`workerObjects
      ensures View() == M.ObserveAll(old(View()), w, os)
    {
      for i := 0 to |os|
        invariant View() == M.ObserveAll(old(View()), w, os[..i])
      {
        assert os[..i + 1][..i] == os[..i];
        var o := os[i];
        if o.id !in objects {
          var copy := o;
          if copy.Ready() {
            copy := copy.Transition(DISCOVERED, Ascii("observed-not-live"));
          }
          copy := copy.(provenance := REPORTED);
          objects := objects[o.id := copy];
        }
        Attribute(w, o.id);
      }
      assert os[..|os|] == os;
    }

    /** HELLO: the whole registration is one critical section. */
    method OnHello(c: M.ConnId, h: Hello) returns (accepted: bool)
      modifies this
      ensures accepted == M.HelloAccepted(old(View()), h)
      ensures View() == M.OnHello(old(View()), c, h)
    {
      if h.version != PROTOCOL_VERSION {
        return false;
      }
      if h.worker in workers {
        var other := ConnOf(workers[h.worker]);
        if other.boot != h.boot {
          return false;
        }
      }
      var cs := ConnOf(c);
      if h.worker in lastBoot && lastBoot[h.worker] != h.boot {
        InvalidateWorker(h.worker);
      }
      lastBoot := lastBoot[h.worker := h.boot];
      conns := conns[c := M.Conn(cs.alive, true, h.worker, h.boot)];
      workers := workers[h.worker := c];
      assert View() == M.Register(old(View()), c, h);
      ObserveAll(h.worker, h.observed);
      accepted := true;
    }

    /** REPORT: refused as a whole unless boot, epoch and both generations are current. */
    method OnReport(c: M.ConnId, p: Report, now: Timestamp) returns (accepted: bool)
      modifies this
      ensures accepted == M.Authorised(old(View()), c, p.boot, p.tag)
      ensures View() == M.OnReport(old(View()), c, p, now)
    {
      var cs := ConnOf(c);
      if !cs.registered || cs.boot != p.boot || p.tag.epoch != epoch || p.tag.warmthGen != warmthGen || p.tag.depGen != depGen {
        return false;
      }
      ReportAll(cs.id, p.objects, now);
      accepted := true;
    }

    method ReportAll(w: Id128, os: seq<WarmthObject>, now: Timestamp)
      modifies this`objects, this`workerObjects
      ensures View() == M.ReportAll(old(View()), w, os, now)
    {
      for i := 0 to |os|
        invariant View() == M.ReportAll(old(View()), w, os[..i], now)
      {
        assert os[..i + 1][..i] == os[..i];
        var o := os[i];
        if o.id !in objects {
          var copy := o;
          if copy.Ready() {
            copy := copy.Transition(DISCOVERED, Ascii("observed-not-live"));
          }
          copy := copy.(provenance := REPORTED);
          objects := objects[o.id := copy];
        } else {
          var cur := objects[o.id];
          cur := cur.(dims := o.dims, lastUsed := now, observedTtr := o.observedTtr, residency := o.residency,
                      provenance := REPORTED);
          if o.Ready() && !cur.Ready() {
            cur := cur.Transition(DISCOVERED, Ascii("observed-not-live"));
          }
          objects := objects[o.id := cur];
        }
        Attribute(w, o.id);
      }
      assert os[..|os|] == os;
    }

    method ReleaseHold(h: Hold)
      modifies budget
      ensures budget.View() == Budgets.ReleaseHold(old(budget.View()), h)
    {
      var e := budget.ReleaseId(h.reservation);
      if h.op != 0 {
        e := budget.ReleaseId(h.op);
      }
    }

    method ApplyResult(w: Id128, r: WarmResult, now: Timestamp)
      modifies this`objects, this`workerObjects
      ensures View() == M.ApplyResult(old(View()), w, r, now)
    {
      if r.success {
        var o: WarmthObject;
        if r.obj !in objects {
          o := NewObject(r.obj, APPLICATION_DEFINED, 0, 0, Ascii("cuda:0"), Ascii("cuda"));
        } else {
          o := objects[r.obj];
          if o.state == INVALIDATED {
            o := o.Transition(DISCOVERED, Ascii("invalidated"));
            o := o.(invalidation := None);
          }
        }
        o := ReachWarm(o, M.COMPLETED);
        o := o.(warmthGen := warmthGen, measuredCost := r.bytes, observedTtr := r.duration);
        o := o.(lastPrepared := now, lastUsed := now, provenance := MEASURED, residency := DEVICE_RESIDENT);
        objects := objects[r.obj := o];
        Attribute(w, r.obj);
      } else if r.obj in objects {
        objects := objects[r.obj := objects[r.obj].Transition(FAILED, r.error)];
      }
    }

    /** WARM_RESULT: settles the attempt it belongs to, or changes nothing. */
    method OnResult(c: M.ConnId, r: WarmResult, now: Timestamp) returns (settled: bool)
      modifies this, budget
      ensures settled == M.Settles(old(View()), c, r)
      ensures View() == M.OnResult(old(View()), c, r, now)
    {
      hide M.ApplyResult, Budgets.ReleaseHold;
      var cs := ConnOf(c);
      if !cs.registered || cs.boot != r.boot || r.tag.epoch != epoch || r.tag.warmthGen != warmthGen || r.tag.depGen != depGen {
        return false;
      }
      if r.attempt !in inFlight || inFlight[r.attempt].worker != cs.id || inFlight[r.attempt].obj != r.obj {
        return false;
      }
      ReleaseHold(inFlight[r.attempt].hold);
      ResultIgnoresBudget(old(View()), budget.View(), cs.id, r, now);
      ApplyResult(cs.id, r, now);
      inFlight := inFlight - {r.attempt};
      if inFlightCount > 0 {
        inFlightCount := inFlightCount - 1;
      }
      settled := true;
    }

    method OnDisconnect(c: M.ConnId, now: Timestamp)
      modifies this
      ensures View() == M.OnDisconnect(old(View()), c, now)
    {
      var cs := ConnOf(c);
      conns := conns[c := cs.(alive := false)];
      if !cs.registered {
        return;
      }
      if cs.id in workers && workers[cs.id] == c {
        workers := workers - {cs.id};
      }
      LoseAll(if cs.id in workerObjects then workerObjects[cs.id] else {}, now);
    }

    method LoseAll(mine: set<Id128>, now: Timestamp)
      modifies this`objects
      ensures objects == M.LoseEach(old(objects), mine, now)
    {
      ghost var before := objects;
      var todo := mine;
      while todo != {}
        invariant todo <= mine
        invariant objects.Keys == before.Keys
        invariant forall id :: id in before ==>
          objects[id] == if id in mine - todo then M.Lost(before[id], now) else before[id]
        decreases todo
      {
        var id :| id in todo;
        if id in objects {
          var o := objects[id];
          var next := DecayObject(o, DEFAULT_DECAY, now, Flags(false, false, false, true));
          if next.changed {
            o := o.Transition(next.state, Ascii("worker_disconnect"));
          }
          o := o.SetDevice(SUSPECT_DIM);
          objects := objects[id := o];
        }
        todo := todo - {id};
      }
    }

    /** The worker `issue_warm` targets. */
    method Target(preferred: Option<Id128>) returns (w: Option<Id128>)
      ensures w == M.Target(View(), preferred)
      ensures w.Some? ==> w.value in workers
    {
      if workers == map[] {
        return None;
      }
      var id: Id128;
      if preferred.Some? {
        id := preferred.value;
        if id !in workers {
          return None;
        }
      } else {
        id := FirstKey(workers);
      }
      var cs := ConnOf(workers[id]);
      w := if cs.registered then Some(id) else None;
    }

    /** First section of `issue_warm`: reserve, number the attempt, put it in flight, build the command. */
    method IssueWarm(obj: Id128, action: Byte, preferred: Option<Id128>) returns (topic: Option<WarmTopic>)
      modifies this, budget
      ensures View() == M.OnIssue(old(View()), obj, preferred)
      ensures topic == if M.Issues(old(View()), preferred)
                       then Some(WarmTopic(epoch, warmthGen, [WarmCmd(obj, action, old(attemptCounter))]))
                       else None
    {
      hide M.Target, Budgets.Reserve;
      var w := Target(preferred);
      if w.None? {
        return None;
      }
      var cs := ConnOf(workers[w.value]);
      var reservation := budget.ReserveKind(DEVICE_MEMORY, WARM_BYTES);
      if reservation == 0 {
        return None;
      }
      var op := budget.ReserveKind(CONCURRENT_WARMING_OPS, 1);
      var attempt := attemptCounter;
      attemptCounter := (attemptCounter + 1) % U64_LIMIT;
      inFlight := inFlight[attempt := M.Attempt(obj, cs.id, Hold(reservation, op))];
      inFlightCount := (inFlightCount + 1) % U64_LIMIT;
      topic := Some(WarmTopic(epoch, warmthGen, [WarmCmd(obj, action, attempt)]));
    }

    /** Second section of `issue_warm`, entered when the send failed. */
    method SendFailed(attempt: Word64)
      modifies this, budget
      ensures View() == M.OnSendFailed(old(View()), attempt)
    {
      if attempt in inFlight {
        ReleaseHold(inFlight[attempt].hold);
        inFlight := inFlight - {attempt};
        if inFlightCount > 0 {
          inFlightCount := inFlightCount - 1;
        }
      }
    }

    method BumpDependencyGeneration()
      modifies this
      ensures View() == M.Step(old(View()), M.BumpDependency)
    {
      depGen := (depGen + 1) % U64_LIMIT;
    }

    method BumpWarmthGeneration()
      modifies this
      ensures View() == M.Step(old(View()), M.BumpWarmth)
    {
      warmthGen := (warmthGen + 1) % U64_LIMIT;
    }

    /** Gives back every hold, visiting the attempts in ascending order. */
    method ReleaseAll()
      modifies budget
      ensures budget.View() == M.ReleaseAll(old(budget.View()), inFlight)
    {
      hide Budgets.ReleaseHold;
      var todo: map<Word64, M.Attempt> := inFlight;
      while todo != map[]
        invariant M.ReleaseAll(budget.View(), todo) == M.ReleaseAll(old(budget.View()), inFlight)
        decreases |todo|
      {
        var a := FirstKey(todo);
        RemoveShrinks(todo, a);
        ReleaseHold(todo[a].hold);
        todo := todo - {a};
      }
    }

    /** The attempts in flight are given up. */
    method DropAll()
      modifies this`inFlight, this`inFlightCount, budget
      ensures budget.View() == M.ReleaseAll(old(budget.View()), old(inFlight)) && inFlight == map[]
      ensures inFlightCount == if old(inFlight) != map[] then 0 else old(inFlightCount)
    {
      hide M.ReleaseAll, BudgetTracker.View;
      ReleaseAll();
      if inFlight != map[] {
        inFlightCount := 0;
      }
      inFlight := map[];
    }

    method RollEpoch()
      modifies this, budget
      ensures View() == M.OnRoll(old(View()))
    {
      hide M.RevokeEach, M.ReleaseAll, M.OnRoll, NextGeneration, Ascii, Bump, BudgetTracker.View;
      ghost var was := View();
      epoch := NextGeneration(epoch);
      warmthGen := (warmthGen + 1) % U64_LIMIT;
      depGen := (depGen + 1) % U64_LIMIT;
      RevokeEach(objects.Keys, Ascii("authority roll"), M.ROLLED);
      DropAll();
      RollIs(was, View());
    }
  }

  /** The fields of a rolled coordinator. */
  lemma RollIs(s: M.Coord, s': M.Coord)
    requires s'.epoch == NextGeneration(s.epoch)
    requires s'.warmthGen == (s.warmthGen + 1) % U64_LIMIT && s'.depGen == (s.depGen + 1) % U64_LIMIT
    requires s'.objects == M.RevokeEach(s.objects, s.objects.Keys, Ascii("authority roll"), M.ROLLED)
    requires s'.budget == M.ReleaseAll(s.budget, s.inFlight) && s'.inFlight == map[]
    requires s'.inFlightCount == if s.inFlight != map[] then 0 else s.inFlightCount
    requires s'.conns == s.conns && s'.workers == s.workers && s'.lastBoot == s.lastBoot
    requires s'.workerObjects == s.workerObjects && s'.attemptCounter == s.attemptCounter
    ensures s' == M.OnRoll(s)
  {
    hide M.RevokeEach, M.ReleaseAll, NextGeneration, Ascii;
  }
}
