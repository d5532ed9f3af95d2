/** Claims about whole runs of the coordinator: where readiness comes from, what a roll fences off,
    and what a boot change withdraws. */
module CoordinatorHistory {
  import opened Basics
  import opened WarmthStates
  import opened WarmthObjects
  import opened Policies
  import opened Budgets
  import opened MessageTypes
  import opened CoordinatorModel
  import opened CoordinatorInvariant
  import opened CoordinatorEffects

  // ---- which fields each event may touch ----

  /** The worker is the one that was asked for, or, if none was, that of the least registered id. */
  ghost predicate Addressed(s: Coord, preferred: Option<Id128>, worker: Id128) {
    exists w :: GoesTo(s, preferred, w) && worker == s.ConnOf(s.workers[w]).id
  }

  lemma IssueAddressed(s: Coord, obj: Id128, preferred: Option<Id128>)
    requires Issues(s, preferred)
    ensures Addressed(s, preferred, OnIssue(s, obj, preferred).inFlight[s.attemptCounter].worker)
  {
    hide Acquire, Target;
    TargetIs(s, preferred);
  }

  ghost predicate Shape(s: Coord, e: Event, s': Coord) {
    match e
    case Accept(c) => s' == s.(conns := s.conns[c := Conn(true, false, 0, 0)])
    case HelloMsg(c, h) =>
      if HelloAccepted(s, h)
      then s' == s.(objects := s'.objects, workerObjects := s'.workerObjects,
                    lastBoot := s.lastBoot[h.worker := h.boot], workers := s.workers[h.worker := c],
                    conns := s.conns[c := Conn(s.ConnOf(c).alive, true, h.worker, h.boot)])
      else s' == s
    case ReportMsg(_, _, _) => s' == s.(objects := s'.objects, workerObjects := s'.workerObjects)
    case ResultMsg(c, r, _) =>
      if Settles(s, c, r)
      then s' == Settle(s.(objects := s'.objects, workerObjects := s'.workerObjects), r.attempt)
      else s' == s
    case Disconnect(c, _) =>
      && s' == s.(conns := s.conns[c := s.ConnOf(c).(alive := false)], workers := s'.workers, objects := s'.objects)
      && (forall w :: w in s'.workers ==> w in s.workers && s'.workers[w] == s.workers[w])
      && (forall w :: w in s.workers && s.workers[w] != c ==> w in s'.workers)
    case Issue(obj, preferred) =>
      if Issues(s, preferred)
      then
        && s' == s.(budget := s'.budget, inFlight := s'.inFlight, inFlightCount := s'.inFlightCount,
                    attemptCounter := Bump(s.attemptCounter))
        && s.attemptCounter in s'.inFlight
        && s'.inFlight == s.inFlight[s.attemptCounter := s'.inFlight[s.attemptCounter]]
        && s'.inFlight[s.attemptCounter].obj == obj
        && Addressed(s, preferred, s'.inFlight[s.attemptCounter].worker)
        && Acquire(s.budget) == Some((s'.inFlight[s.attemptCounter].hold, s'.budget))
      else s' == s
    case SendFailed(a) => s' == if a in s.inFlight then Settle(s, a) else s
    case BumpDependency => s' == s.(depGen := Bump(s.depGen))
    case BumpWarmth => s' == s.(warmthGen := Bump(s.warmthGen))
    case Roll =>
      s' == s.(epoch := NextGeneration(s.epoch), warmthGen := Bump(s.warmthGen), depGen := Bump(s.depGen),
               objects := s'.objects, budget := ReleaseAll(s.budget, s.inFlight), inFlight := map[],
               inFlightCount := s'.inFlightCount)
  }

  lemma HelloShape(s: Coord, c: ConnId, h: Hello)
    requires Filed(s)
    ensures Shape(s, HelloMsg(c, h), OnHello(s, c, h))
  {
    hide Register, Withdrawn;
    if HelloAccepted(s, h) {
      RegisterShape(s, c, h);
      HelloKeepsFiled(s, c, h);
    }
  }

  lemma ReportShape(s: Coord, c: ConnId, p: Report, now: Timestamp)
    requires KeyedById(s)
    ensures Shape(s, ReportMsg(c, p, now), OnReport(s, c, p, now))
  {
    if Authorised(s, c, p.boot, p.tag) {
      ReportAllExtends(s, s.ConnOf(c).id, p.objects, now);
    }
  }

  lemma ResultShape(s: Coord, c: ConnId, r: WarmResult, now: Timestamp)
    ensures Shape(s, ResultMsg(c, r, now), OnResult(s, c, r, now))
  {
  }

  lemma StepShape(s: Coord, e: Event)
    requires Filed(s) && Enabled(s, e)
    ensures Shape(s, e, Step(s, e))
  {
    match e
    case HelloMsg(c, h) => HelloShape(s, c, h);
    case ReportMsg(c, p, now) => ReportShape(s, c, p, now);
    case ResultMsg(c, r, now) => ResultShape(s, c, r, now);
    case Disconnect(c, now) => DisconnectShape(s, c, now);
    case Issue(obj, preferred) =>
      if Issues(s, preferred) {
        IssueShape(s, obj, preferred);
        IssueAddressed(s, obj, preferred);
      }
    case _ =>
  }

  lemma RunStarts(states: seq<Coord>, events: seq<Event>)
    requires Run(states, events)
    ensures |states| == |events| + 1 && states[0] == Start()
  {
  }

  lemma BaseIsFiled(s: Coord)
    requires Base(s)
    ensures Filed(s)
  {
  }

  /** One step of a run: what holds before it, and what it may touch. */
  lemma RunStep(states: seq<Coord>, events: seq<Event>, i: nat)
    requires Run(states, events) && i < |events|
    ensures Base(states[i]) && Enabled(states[i], events[i]) && states[i + 1] == Step(states[i], events[i])
    ensures Shape(states[i], events[i], states[i + 1])
  {
    RunKeepsBase(states, events, i);
    StepShape(states[i], events[i]);
  }

  // ---- readiness needs a live connection ----

  /** When readiness stays backed in a run, exactly: up to state n every ready object is attributed to the
      worker of a live registered connection iff every accepted HELLO before n left the objects still ready
      vouched for. */
  lemma {:induction false} BackedExactly(states: seq<Coord>, events: seq<Event>, n: nat)
    requires Run(states, events) && n < |states|
    ensures (forall i :: 0 <= i <= n ==> Attribution(states[i])) <==>
            (forall i :: 0 <= i < n ==> SparesVouched(states[i], events[i]))
  {
    hide Step, Shape, Attribution, SparesVouched, Run, Base, Enabled;
    RunStarts(states, events);
    if n == 0 {
      StartInvariant();
    } else {
      BackedExactly(states, events, n - 1);
      RunStep(states, events, n - 1);
      if Attribution(states[n - 1]) {
        BaseIsFiled(states[n - 1]);
        StepAttribution(states[n - 1], events[n - 1]);
      }
    }
  }

  /** In particular: where no connection changes its worker id, a ready object is in every state attributed
      to the worker of some registered connection that has not been disconnected. */
  lemma ReadyNeedsLiveWorker(states: seq<Coord>, events: seq<Event>, n: nat, id: Id128)
    requires Run(states, events) && OneWorkerPerConnection(states, events) && n < |states| && states[n].ReadyAt(id)
    ensures exists c :: c in states[n].conns && states[n].conns[c].alive && states[n].conns[c].registered
                        && id in states[n].Attributed(states[n].conns[c].id)
  {
    RunKeepsInvariant(states, events, n);
    assert Vouched(states[n], id);
  }

  // ---- accounting ----

  /** At every lock release of every run: usage is 2^30 per attempt, the counter is the number of
      attempts, and the books balance iff nothing is in flight. */
  lemma BooksBalance(states: seq<Coord>, events: seq<Event>, n: nat)
    requires Run(states, events) && n < |states|
    ensures var s := states[n];
            && s.budget.Usage(DEVICE_MEMORY) == 0x4000_0000 * |s.inFlight|
            && s.inFlightCount == |s.inFlight|
            && (s.budget.Balanced() <==> s.inFlight == map[])
            && Covers(s.budget.reservations, Holds(s.inFlight))
  {
    RunKeepsBase(states, events, n);
    var s := states[n];
    assert Holds(s.inFlight).Keys == s.inFlight.Keys;
    assert |Holds(s.inFlight)| == |s.inFlight|;
    BalancedIffNoHolds(s.budget, Holds(s.inFlight));
    if s.inFlight != map[] {
      assert Holds(s.inFlight) != map[] by {
        assert |s.inFlight| != 0;
      }
    } else {
      assert Holds(s.inFlight) == map[];
    }
  }

  /** Settling an attempt finds both of its reservations live: neither release is a double release. */
  lemma SettleReleasesLiveReservations(s: Coord, a: Word64)
    requires Accounting(s) && a in s.inFlight
    ensures var h := s.inFlight[a].hold; var (e, l) := Release(s.budget, h.reservation);
            e == NO_ERROR && h.op != 0 && Release(l, h.op).0 == NO_ERROR
  {
    assert Holds(s.inFlight)[a] == s.inFlight[a].hold;
    ReleaseAccounts(s.budget, Holds(s.inFlight), a);
  }

  /** No release of a roll is a double release. */
  ghost predicate AllReleasesHit(l: Ledger, m: map<Word64, Attempt>)
    decreases |m|
  {
    m == map[] ||
    var a := Least(m.Keys);
    var (e, l1) := Release(l, m[a].hold.reservation);
    RemoveShrinks(m, a);
    && e == NO_ERROR
    && (m[a].hold.op != 0 ==> Release(l1, m[a].hold.op).0 == NO_ERROR)
    && AllReleasesHit(ReleaseHold(l, m[a].hold), m - {a})
  }

  lemma {:induction false} RollReleasesLiveReservations(l: Ledger, m: map<Word64, Attempt>)
    requires Accounts(l, Holds(m))
    ensures AllReleasesHit(l, m)
    decreases |m|
  {
    if m != map[] {
      var a := Least(m.Keys);
      RemoveShrinks(m, a);
      assert Holds(m)[a] == m[a].hold;
      ReleaseAccounts(l, Holds(m), a);
      assert Holds(m - {a}) == Holds(m) - {a};
      RollReleasesLiveReservations(ReleaseHold(l, m[a].hold), m - {a});
    }
  }

  /** A step issues only ids the ledger never handed out before. */
  ghost predicate FreshIds(l: Ledger, l': Ledger) {
    && l.nextId <= l'.nextId
    && forall id :: id in l'.reservations ==> id in l.reservations || l.nextId <= id
  }

  lemma SameLedgerIds(l: Ledger)
    ensures FreshIds(l, l)
  {
  }

  lemma ReleaseIds(l: Ledger, h: Hold)
    ensures FreshIds(l, ReleaseHold(l, h))
  {
  }

  lemma AcquireIds(l: Ledger, holds: map<Word64, Hold>)
    requires Acquire(l).Some? && Headroom(l) && Accounts(l, holds)
    ensures FreshIds(l, Acquire(l).value.1)
  {
    hide Acquire;
    AcquireGrows(l);
  }

  lemma RollIds(l: Ledger, m: map<Word64, Attempt>)
    requires Accounts(l, Holds(m))
    ensures FreshIds(l, ReleaseAll(l, m))
  {
    hide Accounts, ReleaseAll;
    ReleaseAllAccounts(l, m);
  }

  lemma SettleIds(s: Coord, a: Word64)
    requires a in s.inFlight
    ensures FreshIds(s.budget, Settle(s, a).budget)
  {
    hide ReleaseHold;
    ReleaseIds(s.budget, s.inFlight[a].hold);
  }

  lemma ShapeIds(s: Coord, e: Event, s': Coord)
    requires Accounting(s) && CountersBelowLimit(s) && Shape(s, e, s')
    ensures FreshIds(s.budget, s'.budget)
  {
    hide ReleaseHold, Acquire, ReleaseAll, FreshIds, HelloAccepted, NextGeneration, Accounts, Headroom, Settle;
    SameLedgerIds(s.budget);
    match e
    case ResultMsg(c, r, now) =>
      if Settles(s, c, r) {
        SettleIds(s.(objects := s'.objects, workerObjects := s'.workerObjects), r.attempt);
      }
    case Issue(obj, preferred) => if Issues(s, preferred) { AcquireIds(s.budget, Holds(s.inFlight)); }
    case SendFailed(a) => if a in s.inFlight { SettleIds(s, a); }
    case Roll => RollIds(s.budget, s.inFlight);
    case _ =>
  }

  lemma {:induction false} IdsStayFresh(states: seq<Coord>, events: seq<Event>, i: nat, j: nat)
    requires Run(states, events) && i <= j < |states|
    ensures FreshIds(states[i].budget, states[j].budget)
  {
    hide Step, Shape, Accounts, Filed, Run;
    RunStarts(states, events);
    if i < j {
      IdsStayFresh(states, events, i, j - 1);
      RunStep(states, events, j - 1);
      ShapeIds(states[j - 1], events[j - 1], states[j]);
    }
  }

  /** A reservation that was released never becomes live again: together with the two lemmas above,
      each reservation is released exactly once. */
  lemma ReleasedForGood(states: seq<Coord>, events: seq<Event>, i: nat, j: nat, id: Word64)
    requires Run(states, events) && i < j < |states|
    requires id in states[i].budget.reservations && id !in states[i + 1].budget.reservations
    ensures id !in states[j].budget.reservations
  {
    RunKeepsBase(states, events, i);
    IdsStayFresh(states, events, i, i + 1);
    IdsStayFresh(states, events, i + 1, j);
  }

  // ---- every rise to readiness settles its own attempt ----

  ghost predicate Rises(states: seq<Coord>, i: nat, id: Id128) {
    i + 1 < |states| && !states[i].ReadyAt(id) && states[i + 1].ReadyAt(id)
  }

  /** The step settles an attempt for the object by a successful result. */
  predicate Completes(s: Coord, e: Event, id: Id128) {
    e.ResultMsg? && Settles(s, e.conn, e.result) && e.result.success && e.result.obj == id
  }

  /** The step files the object for the first time, from an accepted frame that calls it HOT. */
  predicate EntersHot(s: Coord, e: Event, id: Id128) {
    && id !in s.objects
    && match e
       case HelloMsg(c, h) => HelloAccepted(s, h) && ArrivesHot(h.observed, id)
       case ReportMsg(c, p, _) => Authorised(s, c, p.boot, p.tag) && ArrivesHot(p.objects, id)
       case _ => false
  }

  /** What makes an object ready, exactly: a successful result for it, or its first arrival as HOT. */
  lemma OnlyResultsRaise(s: Coord, e: Event, id: Id128)
    requires Filed(s) && Enabled(s, e) && !s.ReadyAt(id)
    ensures Step(s, e).ReadyAt(id) <==> Completes(s, e, id) || EntersHot(s, e, id)
  {
    hide ArrivesHot;
    match e
    case HelloMsg(c, h) => if HelloAccepted(s, h) { HelloRaises(s, c, h, id); }
    case ReportMsg(c, p, now) => if Authorised(s, c, p.boot, p.tag) { ReportRaises(s, c, p, now, id); }
    case ResultMsg(c, r, now) => ResultRaises(s, c, r, now, id);
    case Disconnect(c, now) => DisconnectFacts(s, c, now);
    case Roll => RollRevokes(s);
    case _ =>
  }

  lemma HelloRaises(s: Coord, c: ConnId, h: Hello, id: Id128)
    requires Filed(s) && HelloAccepted(s, h) && !s.ReadyAt(id)
    ensures OnHello(s, c, h).ReadyAt(id) <==> id !in s.objects && ArrivesHot(h.observed, id)
  {
    hide Register, Withdrawn, ArrivesHot;
    var s2 := Register(s, c, h);
    RegisterShape(s, c, h);
    HelloKeepsFiled(s, c, h);
    assert !s2.ReadyAt(id) by {
      assert !Withdrawn(s, h).ReadyAt(id);
    }
    ObserveAllExactly(s2, h.worker, h.observed, id);
  }

  lemma ReportRaises(s: Coord, c: ConnId, p: Report, now: Timestamp, id: Id128)
    requires KeyedById(s) && Authorised(s, c, p.boot, p.tag) && !s.ReadyAt(id)
    ensures OnReport(s, c, p, now).ReadyAt(id) <==> id !in s.objects && ArrivesHot(p.objects, id)
  {
    hide ArrivesHot;
    ReportAllExtends(s, s.ConnOf(c).id, p.objects, now);
    ReportAllExactly(s, s.ConnOf(c).id, p.objects, now, id);
  }

  lemma ResultRaises(s: Coord, c: ConnId, r: WarmResult, now: Timestamp, id: Id128)
    requires !s.ReadyAt(id)
    ensures OnResult(s, c, r, now).ReadyAt(id) <==> Settles(s, c, r) && r.success && r.obj == id
  {
    WarmedIsReady(s, r, now);
    if r.obj in s.objects {
      FailedIsNotReady(s.objects[r.obj], r.error);
    }
  }

  /** The origin of an attempt: step j issued it for the object and worker, and nothing rolled since. */
  ghost predicate IssuedAt(states: seq<Coord>, events: seq<Event>, j: nat, n: nat, a: Word64, t: Attempt)
    requires |states| == |events| + 1
  {
    && j < n < |states|
    && events[j].Issue? && events[j].obj == t.obj
    && Issues(states[j], events[j].preferred)
    && Addressed(states[j], events[j].preferred, t.worker)
    && states[j].attemptCounter == a
    && a in states[j + 1].inFlight && states[j + 1].inFlight[a] == t
    && (forall k :: j < k < n ==> !events[k].Roll?)
  }

  /** An attempt in flight after a step was in flight before it, or was issued by it. */
  lemma ShapeAttempts(s: Coord, e: Event, s': Coord, a: Word64)
    requires Shape(s, e, s') && a in s'.inFlight
    ensures !e.Roll?
    ensures (a in s.inFlight && s'.inFlight[a] == s.inFlight[a])
            || (e.Issue? && Issues(s, e.preferred) && a == s.attemptCounter && s'.inFlight[a].obj == e.obj
                && Addressed(s, e.preferred, s'.inFlight[a].worker))
  {
  }

  lemma ShapeCounter(s: Coord, e: Event, s': Coord)
    requires CountersBelowLimit(s) && Shape(s, e, s')
    ensures s.attemptCounter <= s'.attemptCounter
    ensures e.Issue? && Issues(s, e.preferred) ==> s.attemptCounter < s'.attemptCounter
  {
    hide HelloAccepted, Settles, Issues, Acquire, ReleaseHold, ReleaseAll, Headroom, Target;
  }

  lemma OriginExtends(states: seq<Coord>, events: seq<Event>, j: nat, n: nat, a: Word64, t: Attempt)
    requires |states| == |events| + 1 && n < |events|
    requires IssuedAt(states, events, j, n, a, t) && !events[n].Roll?
    ensures IssuedAt(states, events, j, n + 1, a, t)
  {
  }

  lemma IssuedNow(states: seq<Coord>, events: seq<Event>, n: nat)
    requires |states| == |events| + 1 && n < |events|
    requires events[n].Issue? && Issues(states[n], events[n].preferred)
    requires var a := states[n].attemptCounter;
      && a in states[n + 1].inFlight && states[n + 1].inFlight[a].obj == events[n].obj
      && Addressed(states[n], events[n].preferred, states[n + 1].inFlight[a].worker)
    ensures var a := states[n].attemptCounter; IssuedAt(states, events, n, n + 1, a, states[n + 1].inFlight[a])
  {
  }

  lemma {:induction false} AttemptOrigin(states: seq<Coord>, events: seq<Event>, n: nat, a: Word64)
    requires Run(states, events) && n < |states| && a in states[n].inFlight
    ensures exists j :: IssuedAt(states, events, j, n, a, states[n].inFlight[a])
  {
    hide Step, Shape, Accounts, Filed, Enabled, IssuedAt, Issues, Addressed;
    if n > 0 {
      var s, e := states[n - 1], events[n - 1];
      RunStep(states, events, n - 1);
      ShapeAttempts(s, e, states[n], a);
      hide Run;
      if a in s.inFlight && states[n].inFlight[a] == s.inFlight[a] {
        AttemptOrigin(states, events, n - 1, a);
        var j :| IssuedAt(states, events, j, n - 1, a, s.inFlight[a]);
        OriginExtends(states, events, j, n - 1, a, s.inFlight[a]);
      } else {
        IssuedNow(states, events, n - 1);
      }
    }
  }

  ghost predicate Gone(s: Coord, a: Word64) {
    a < s.attemptCounter && a !in s.inFlight
  }

  lemma ShapeGone(s: Coord, e: Event, s': Coord, a: Word64)
    requires CountersBelowLimit(s) && Shape(s, e, s') && Gone(s, a)
    ensures Gone(s', a)
  {
    ShapeCounter(s, e, s');
    if a in s'.inFlight {
      ShapeAttempts(s, e, s', a);
    }
  }

  lemma {:induction false} GoneForGood(states: seq<Coord>, events: seq<Event>, i: nat, j: nat, a: Word64)
    requires Run(states, events) && i <= j < |states| && Gone(states[i], a)
    ensures Gone(states[j], a)
  {
    hide Step, Shape, Accounts, Filed, Run;
    RunStarts(states, events);
    if i < j {
      GoneForGood(states, events, i, j - 1, a);
      RunStep(states, events, j - 1);
      ShapeGone(states[j - 1], events[j - 1], states[j], a);
    }
  }

  ghost predicate SettledAt(states: seq<Coord>, i: nat, a: Word64) {
    i + 1 < |states| && a in states[i].inFlight && a !in states[i + 1].inFlight
  }

  /** No attempt settles twice, whether by a result, a failed send or a roll. */
  lemma SettlesOnce(states: seq<Coord>, events: seq<Event>, i: nat, j: nat, a: Word64)
    requires Run(states, events) && SettledAt(states, i, a) && SettledAt(states, j, a)
    ensures i == j
  {
    if i < j {
      SettledStaysGone(states, events, i, j, a);
    } else if j < i {
      SettledStaysGone(states, events, j, i, a);
    }
  }

  lemma SettledStaysGone(states: seq<Coord>, events: seq<Event>, i: nat, j: nat, a: Word64)
    requires Run(states, events) && SettledAt(states, i, a) && i < j < |states|
    ensures a !in states[j].inFlight
  {
    hide Step;
    RunStep(states, events, i);
    ShapeCounter(states[i], events[i], states[i + 1]);
    GoneForGood(states, events, i + 1, j, a);
  }

  /** Step i made the object ready by settling the attempt that step j issued for it, to the very worker
      whose connection delivered the result, with no roll in between. */
  ghost predicate RaisedBy(states: seq<Coord>, events: seq<Event>, j: nat, i: nat, id: Id128)
    requires |states| == |events| + 1
  {
    && j < i < |events|
    && events[i].ResultMsg? && events[i].result.success && events[i].result.obj == id
    && Settles(states[i], events[i].conn, events[i].result)
    && SettledAt(states, i, events[i].result.attempt)
    && IssuedAt(states, events, j, i, events[i].result.attempt, states[i].inFlight[events[i].result.attempt])
    && states[i].inFlight[events[i].result.attempt].worker == states[i].ConnOf(events[i].conn).id
    && states[i].inFlight[events[i].result.attempt].obj == id
  }

  lemma CompletionHasAnOrigin(states: seq<Coord>, events: seq<Event>, i: nat, id: Id128)
    requires Run(states, events) && i < |events|
    ensures Completes(states[i], events[i], id) <==> exists j :: RaisedBy(states, events, j, i, id)
  {
    hide Step;
    if Completes(states[i], events[i], id) {
      var a := events[i].result.attempt;
      RunStep(states, events, i);
      AttemptOrigin(states, events, i, a);
      var j :| IssuedAt(states, events, j, i, a, states[i].inFlight[a]);
      assert RaisedBy(states, events, j, i, id);
    }
  }

  /** The rises of every run, whatever the peers send: a step takes an object from not ready to ready exactly
      when it is an accepted, successful result of an earlier command for that object and worker, issued since
      the last roll, or the object's first arrival as HOT.  Different completions go back to different commands. */
  lemma EveryRiseIsItsOwnAttempt(states: seq<Coord>, events: seq<Event>)
    requires Run(states, events)
    ensures forall i: nat, id :: i < |events| && !states[i].ReadyAt(id) ==>
              (states[i + 1].ReadyAt(id) <==>
                 (exists j :: RaisedBy(states, events, j, i, id)) || EntersHot(states[i], events[i], id))
    ensures forall j: nat, i: nat, i': nat, id, id' ::
              RaisedBy(states, events, j, i, id) && RaisedBy(states, events, j, i', id') ==> i == i' && id == id'
  {
    hide Step, EntersHot;
    forall i: nat, id | i < |events| && !states[i].ReadyAt(id)
      ensures states[i + 1].ReadyAt(id) <==>
                (exists j :: RaisedBy(states, events, j, i, id)) || EntersHot(states[i], events[i], id)
    {
      RunStep(states, events, i);
      OnlyResultsRaise(states[i], events[i], id);
      CompletionHasAnOrigin(states, events, i, id);
    }
    forall j: nat, i: nat, i': nat, id, id' | RaisedBy(states, events, j, i, id) && RaisedBy(states, events, j, i', id')
      ensures i == i' && id == id'
    {
      SettlesOnce(states, events, i, i', states[j].attemptCounter);
    }
  }

  lemma HelloKeepsObjects(s: Coord, c: ConnId, h: Hello)
    requires Filed(s) && HelloAccepted(s, h)
    ensures s.objects.Keys <= OnHello(s, c, h).objects.Keys
  {
    hide Register, Withdrawn;
    RegisterShape(s, c, h);
    HelloKeepsFiled(s, c, h);
  }

  lemma StepKeepsObjects(s: Coord, e: Event)
    requires Filed(s) && Enabled(s, e)
    ensures s.objects.Keys <= Step(s, e).objects.Keys
  {
    match e
    case HelloMsg(c, h) => if HelloAccepted(s, h) { HelloKeepsObjects(s, c, h); }
    case ReportMsg(c, p, now) =>
      if Authorised(s, c, p.boot, p.tag) {
        ReportAllExtends(s, s.ConnOf(c).id, p.objects, now);
      }
    case Disconnect(c, now) => DisconnectFacts(s, c, now);
    case Roll => RollRevokes(s);
    case _ =>
  }

  lemma {:induction false} ObjectsStay(states: seq<Coord>, events: seq<Event>, i: nat, j: nat)
    requires Run(states, events) && i <= j < |states|
    ensures states[i].objects.Keys <= states[j].objects.Keys
  {
    hide Step, Shape, Accounts, Filed, Run;
    RunStarts(states, events);
    if i < j {
      ObjectsStay(states, events, i, j - 1);
      RunStep(states, events, j - 1);
      StepKeepsObjects(states[j - 1], events[j - 1]);
    }
  }

  /** A peer's word makes an object ready at most once in a run; every later rise is a completed command. */
  lemma EntersHotOnce(states: seq<Coord>, events: seq<Event>, i: nat, j: nat, id: Id128)
    requires Run(states, events) && i < j < |events| && EntersHot(states[i], events[i], id)
    ensures !EntersHot(states[j], events[j], id)
  {
    hide Step, ArrivesHot;
    RunStep(states, events, i);
    OnlyResultsRaise(states[i], events[i], id);
    ObjectsStay(states, events, i + 1, j);
  }

  /** Where no peer sends HOT, commands are the only way to become ready. */
  lemma WithoutHotOnlyCommandsRaise(states: seq<Coord>, events: seq<Event>, i: nat, id: Id128)
    requires Run(states, events) && NoPeerSendsHot(events) && Rises(states, i, id)
    ensures exists j :: RaisedBy(states, events, j, i, id)
  {
    hide Step;
    EveryRiseIsItsOwnAttempt(states, events);
    assert NoHotFrame(events[i]);
    assert !EntersHot(states[i], events[i], id) by {
      match events[i]
      case HelloMsg(_, h) => NoHotNeverArrives(h.observed, id);
      case ReportMsg(_, p, _) => NoHotNeverArrives(p.objects, id);
      case _ =>
    }
  }

  lemma {:induction false} NoHotNeverArrives(os: seq<WarmthObject>, id: Id128)
    requires NoHot(os)
    ensures !ArrivesHot(os, id)
    decreases |os|
  {
    if os != [] {
      NoHotNeverArrives(os[..|os| - 1], id);
      MentionsInit(os, id);
    }
  }

  // ---- the epoch fence ----

  ghost predicate NotBehind(s: Coord, s': Coord) {
    s.epoch <= s'.epoch && s.warmthGen <= s'.warmthGen && s.depGen <= s'.depGen
  }

  lemma ShapeNotBehind(s: Coord, e: Event, s': Coord)
    requires CountersBelowLimit(s) && Shape(s, e, s')
    ensures NotBehind(s, s')
    ensures e.Roll? ==> s.epoch < s'.epoch && s.warmthGen < s'.warmthGen && s.depGen < s'.depGen
  {
    hide Settle, Settles, HelloAccepted, Issues, Acquire, ReleaseAll, Headroom;
    match e
    case ResultMsg(c, r, _) => if Settles(s, c, r) { ResultKeepsAuthority(s, c, r, s'); }
    case SendFailed(a) => if a in s.inFlight { SettleKeepsAuthority(s, a); }
    case _ =>
  }

  lemma ResultKeepsAuthority(s: Coord, c: ConnId, r: WarmResult, s': Coord)
    requires Settles(s, c, r) && s' == Settle(s.(objects := s'.objects, workerObjects := s'.workerObjects), r.attempt)
    ensures s'.epoch == s.epoch && s'.warmthGen == s.warmthGen && s'.depGen == s.depGen
  {
    hide Settle;
    SettleKeepsAuthority(s.(objects := s'.objects, workerObjects := s'.workerObjects), r.attempt);
  }

  lemma SettleKeepsAuthority(s: Coord, a: Word64)
    requires a in s.inFlight
    ensures Settle(s, a).epoch == s.epoch && Settle(s, a).warmthGen == s.warmthGen && Settle(s, a).depGen == s.depGen
  {
  }

  lemma {:induction false} RunNotBehind(states: seq<Coord>, events: seq<Event>, i: nat, j: nat)
    requires Run(states, events) && i <= j < |states|
    ensures NotBehind(states[i], states[j])
  {
    hide Step, Shape, Accounts, Filed, Run;
    RunStarts(states, events);
    if i < j {
      RunNotBehind(states, events, i, j - 1);
      RunStep(states, events, j - 1);
      ShapeNotBehind(states[j - 1], events[j - 1], states[j]);
    }
  }

  /** Some component of the tag is a value that was current at step k. */
  ghost predicate ReadAt(s: Coord, t: Tag) {
    t.epoch == s.epoch || t.warmthGen == s.warmthGen || t.depGen == s.depGen
  }

  /** The epoch fence.  If any one component of a tag was read no later than a roll - the three reads of
      the acknowledgement are not under the lock, so the others may well be newer - then no REPORT or
      WARM_RESULT carrying that tag is accepted after the roll: the step changes nothing at all. */
  lemma RollFencesOffOldTags(states: seq<Coord>, events: seq<Event>, roll: nat, k: nat, m: nat, t: Tag)
    requires Run(states, events) && k <= roll < m < |events| && events[roll].Roll?
    requires ReadAt(states[k], t)
    requires match events[m] case ReportMsg(_, p, _) => p.tag == t case ResultMsg(_, r, _) => r.tag == t case _ => false
    ensures states[m + 1] == states[m]
  {
    RunNotBehind(states, events, k, roll);
    RunStep(states, events, roll);
    ShapeNotBehind(states[roll], events[roll], states[roll + 1]);
    RunNotBehind(states, events, roll + 1, m);
    assert !states[m].Current(t);
  }

  /** The same for a single bump: once the dependency or the warmth generation was bumped, no REPORT or
      WARM_RESULT whose tag carries a value that was current before the bump changes anything. */
  lemma BumpFencesOffOldTags(states: seq<Coord>, events: seq<Event>, bump: nat, k: nat, m: nat, t: Tag)
    requires Run(states, events) && k <= bump < m < |events|
    requires match events[bump]
             case BumpDependency => t.depGen == states[k].depGen
             case BumpWarmth => t.warmthGen == states[k].warmthGen
             case _ => false
    requires match events[m] case ReportMsg(_, p, _) => p.tag == t case ResultMsg(_, r, _) => r.tag == t case _ => false
    ensures states[m + 1] == states[m]
  {
    hide Run, Step;
    RunStarts(states, events);
    RunNotBehind(states, events, k, bump);
    RunStep(states, events, bump);
    BumpAdvances(states[bump], events[bump]);
    RunNotBehind(states, events, bump + 1, m);
    RunStep(states, events, m);
    StaleTagIgnored(states[m], events[m], t);
  }

  lemma BumpAdvances(s: Coord, e: Event)
    requires CountersBelowLimit(s)
    ensures e.BumpDependency? ==> Step(s, e).depGen == s.depGen + 1
    ensures e.BumpWarmth? ==> Step(s, e).warmthGen == s.warmthGen + 1
  {
  }

  lemma StaleTagIgnored(s: Coord, e: Event, t: Tag)
    requires match e case ReportMsg(_, p, _) => p.tag == t case ResultMsg(_, r, _) => r.tag == t case _ => false
    requires !s.Current(t)
    ensures Step(s, e) == s
  {
  }

  /** Right after the roll of any run nothing is ready, in flight or reserved. */
  lemma RollStartsClean(states: seq<Coord>, events: seq<Event>, roll: nat)
    requires Run(states, events) && roll < |events| && events[roll].Roll?
    ensures var s := states[roll + 1];
            (forall id :: !s.ReadyAt(id)) && s.inFlight == map[] && s.inFlightCount == 0 && s.budget.Balanced()
  {
    RunKeepsBase(states, events, roll);
    RollClearsEverything(states[roll]);
  }

  // ---- the boot gate ----

  /** A step that changes the boot on record for a worker leaves every object previously attributed to
      that worker not ready, with its four device dimensions cold. */
  lemma BootChangeWithdraws(s: Coord, e: Event, w: Id128, id: Id128)
    requires Filed(s) && Enabled(s, e)
    requires w in s.lastBoot && (w !in Step(s, e).lastBoot || Step(s, e).lastBoot[w] != s.lastBoot[w])
    requires id in s.Attributed(w)
    ensures id in Step(s, e).objects && !Step(s, e).ReadyAt(id) && Step(s, e).objects[id].DeviceIs(COLD_DIM)
  {
    StepShape(s, e);
    assert e.HelloMsg? && HelloAccepted(s, e.hello) && e.hello.worker == w;
    assert id in s.objects;
    InvalidateWorkerFacts(s, w);
    HelloKeepsFiled(s, e.conn, e.hello);
    ObserveAllExtends(Register(s, e.conn, e.hello), w, e.hello.observed);
  }

  /** When the registry stays sound in a run, exactly: up to state n every entry names a live registered
      connection of its worker with the boot on record iff no accepted HELLO before n took the connection of
      another worker's entry. */
  lemma {:induction false} EntriesExactly(states: seq<Coord>, events: seq<Event>, n: nat)
    requires Run(states, events) && n < |states|
    ensures (forall i :: 0 <= i <= n ==> Entries(states[i])) <==>
            (forall i :: 0 <= i < n ==> SparesEntry(states[i], events[i]))
  {
    hide Step, Shape, Entries, SparesEntry, Run, Base, Enabled;
    RunStarts(states, events);
    if n == 0 {
      StartInvariant();
    } else {
      EntriesExactly(states, events, n - 1);
      RunStep(states, events, n - 1);
      if Entries(states[n - 1]) {
        BaseIsFiled(states[n - 1]);
        StepEntries(states[n - 1], events[n - 1]);
      }
    }
  }

  /** In particular: where no connection changes its worker id, every entry carries the boot on record. */
  lemma EntriesCarryLastBoot(states: seq<Coord>, events: seq<Event>, n: nat, w: Id128)
    requires Run(states, events) && OneWorkerPerConnection(states, events) && n < |states| && w in states[n].workers
    ensures var s := states[n];
            && w in s.lastBoot && s.workers[w] in s.conns && s.conns[s.workers[w]].boot == s.lastBoot[w]
            && s.conns[s.workers[w]].alive && s.conns[s.workers[w]].registered && s.conns[s.workers[w]].id == w
  {
    RunKeepsInvariant(states, events, n);
    assert Entry(states[n], w);
  }

  /** In a run where no connection changes its worker id, the boot on record for a worker changes only while
      the worker is not registered: a live worker is never replaced by another boot. */
  lemma BootChangesOnlyWhenGone(states: seq<Coord>, events: seq<Event>, i: nat, w: Id128)
    requires Run(states, events) && OneWorkerPerConnection(states, events) && i < |events|
    requires w in states[i + 1].lastBoot && (w !in states[i].lastBoot || states[i + 1].lastBoot[w] != states[i].lastBoot[w])
    ensures w !in states[i].workers
  {
    hide Run, Step;
    RunStarts(states, events);
    RunKeepsInvariant(states, events, i);
    RunStep(states, events, i);
    if w in states[i].workers {
      assert Entry(states[i], w);
      KeepsBootOfLive(states[i], events[i], states[i + 1], w);
    }
  }

  lemma KeepsBootOfLive(s: Coord, e: Event, s': Coord, w: Id128)
    requires Shape(s, e, s') && Entry(s, w)
    ensures w in s'.lastBoot && s'.lastBoot[w] == s.lastBoot[w]
  {
    hide Issues, Acquire, ReleaseAll, ReleaseHold;
  }

  predicate LiveConn(s: Coord, c: ConnId) {
    c in s.conns && s.conns[c].alive && s.conns[c].registered
  }

  /** The boot gate: what a live connection is authorised for carries the last boot registered for its worker. */
  ghost predicate BootGate(s: Coord) {
    forall c, boot, t :: LiveConn(s, c) && Authorised(s, c, boot, t) ==>
      s.conns[c].id in s.lastBoot && s.lastBoot[s.conns[c].id] == boot
  }

  ghost predicate CarriesLastBoot(s: Coord) {
    forall c :: LiveConn(s, c) ==> s.conns[c].id in s.lastBoot && s.lastBoot[s.conns[c].id] == s.conns[c].boot
  }

  lemma GateIsLastBoot(s: Coord)
    ensures BootGate(s) <==> CarriesLastBoot(s)
  {
    if BootGate(s) {
      forall c | LiveConn(s, c) ensures s.conns[c].id in s.lastBoot && s.lastBoot[s.conns[c].id] == s.conns[c].boot {
        assert Authorised(s, c, s.conns[c].boot, Tag(s.epoch, s.warmthGen, s.depGen));
      }
    }
  }

  /** No two live connections of one worker id carry different boots. */
  ghost predicate OneBootPerWorker(s: Coord) {
    forall c, d :: LiveConn(s, c) && LiveConn(s, d) && s.conns[c].id == s.conns[d].id ==> s.conns[c].boot == s.conns[d].boot
  }

  /** An accepted HELLO agrees on the boot with every other live connection of its worker. */
  ghost predicate AgreesOnBoot(s: Coord, e: Event) {
    e.HelloMsg? && HelloAccepted(s, e.hello) ==>
      forall d :: d != e.conn && LiveConn(s, d) && s.conns[d].id == e.hello.worker ==> s.conns[d].boot == e.hello.boot
  }

  /** One step keeps the gate exactly when an accepted HELLO agrees with the worker's other live connections. */
  lemma StepBootGate(s: Coord, e: Event, s': Coord)
    requires Enabled(s, e) && Shape(s, e, s') && CarriesLastBoot(s)
    ensures CarriesLastBoot(s') <==> AgreesOnBoot(s, e)
    ensures OneBootPerWorker(s') <==> AgreesOnBoot(s, e)
  {
    if e.HelloMsg? && HelloAccepted(s, e.hello) {
      HelloBootGate(s, e.conn, e.hello, s');
    } else {
      OthersRegisterNothing(s, e, s');
    }
  }

  lemma OthersRegisterNothing(s: Coord, e: Event, s': Coord)
    requires Enabled(s, e) && Shape(s, e, s') && !(e.HelloMsg? && HelloAccepted(s, e.hello))
    ensures s'.lastBoot == s.lastBoot
    ensures forall c :: LiveConn(s', c) ==> LiveConn(s, c) && s'.conns[c] == s.conns[c]
  {
    hide HelloAccepted, Settles, Issues, Acquire, ReleaseHold, ReleaseAll, CountersBelowLimit, NextGeneration;
  }

  lemma HelloBootGate(s: Coord, c: ConnId, h: Hello, s': Coord)
    requires Enabled(s, HelloMsg(c, h)) && HelloAccepted(s, h) && CarriesLastBoot(s)
    requires s'.conns == s.conns[c := Conn(true, true, h.worker, h.boot)] && s'.lastBoot == s.lastBoot[h.worker := h.boot]
    ensures CarriesLastBoot(s') <==> AgreesOnBoot(s, HelloMsg(c, h))
    ensures OneBootPerWorker(s') <==> AgreesOnBoot(s, HelloMsg(c, h))
  {
    forall d | d != c ensures LiveConn(s', d) <==> LiveConn(s, d) {
    }
    assert LiveConn(s', c);
    forall d | d != c && LiveConn(s, d) ensures s'.conns[d] == s.conns[d] && s.conns[d].id in s.lastBoot {
    }
  }

  /** The boot gate of a run, exactly: it holds in every state up to n iff no worker id ever has two live
      connections with different boots, and iff every accepted HELLO agrees with the live connections of its
      worker.  A reconnection under the same boot is harmless. */
  lemma {:induction false} BootGateExactly(states: seq<Coord>, events: seq<Event>, n: nat)
    requires Run(states, events) && n < |states|
    ensures (forall i :: 0 <= i <= n ==> CarriesLastBoot(states[i])) <==>
            (forall i :: 0 <= i <= n ==> OneBootPerWorker(states[i]))
    ensures (forall i :: 0 <= i <= n ==> CarriesLastBoot(states[i])) <==>
            (forall i :: 0 <= i < n ==> AgreesOnBoot(states[i], events[i]))
  {
    hide Step, Shape, CarriesLastBoot, OneBootPerWorker, AgreesOnBoot, Run, Base, Enabled;
    RunStarts(states, events);
    if n == 0 {
      GateAtStart();
    } else {
      BootGateExactly(states, events, n - 1);
      RunStep(states, events, n - 1);
      if CarriesLastBoot(states[n - 1]) {
        StepBootGate(states[n - 1], events[n - 1], states[n]);
      }
    }
  }

  lemma GateAtStart()
    ensures CarriesLastBoot(Start()) && OneBootPerWorker(Start())
  {
  }

  /** As the fence sees it: in every run, up to state n every authorised REPORT or WARM_RESULT of a live
      connection carries the last boot of its worker iff no worker id has two live connections with different
      boots. */
  lemma AuthorisedMeansLastBoot(states: seq<Coord>, events: seq<Event>, n: nat)
    requires Run(states, events) && n < |states|
    ensures (forall i :: 0 <= i <= n ==> BootGate(states[i])) <==>
            (forall i :: 0 <= i <= n ==> OneBootPerWorker(states[i]))
  {
    hide Step, BootGate, CarriesLastBoot, OneBootPerWorker;
    forall i | 0 <= i <= n ensures BootGate(states[i]) <==> CarriesLastBoot(states[i]) {
      GateIsLastBoot(states[i]);
    }
    BootGateExactly(states, events, n);
  }

  /** No worker id is claimed by two live connections. */
  ghost predicate SingleLive(s: Coord) {
    forall c, d :: LiveConn(s, c) && LiveConn(s, d) && c != d ==> s.conns[c].id != s.conns[d].id
  }

  /** Every live connection is the one the registry holds for its worker. */
  ghost predicate AllInRegistry(s: Coord) {
    forall c :: LiveConn(s, c) ==> s.conns[c].id in s.workers && s.workers[s.conns[c].id] == c
  }

  lemma ShapeKeepsInRegistry(s: Coord, e: Event, s': Coord)
    requires Enabled(s, e) && Shape(s, e, s') && AllInRegistry(s) && SingleLive(s')
    ensures AllInRegistry(s')
  {
    forall c | LiveConn(s', c) ensures s'.conns[c].id in s'.workers && s'.workers[s'.conns[c].id] == c {
      if e.HelloMsg? && HelloAccepted(s, e.hello) && c != e.conn {
        assert LiveConn(s', e.conn) && s'.conns[e.conn].id == e.hello.worker;
        assert LiveConn(s, c);
      } else if !e.HelloMsg? {
        assert LiveConn(s, c);
      }
    }
  }

  /** In every run the registry holds every live connection, in all states up to n, iff no worker id ever
      has two of them. */
  lemma {:induction false} LiveConnectionsAreInRegistry(states: seq<Coord>, events: seq<Event>, n: nat)
    requires Run(states, events) && n < |states|
    ensures (forall i :: 0 <= i <= n ==> AllInRegistry(states[i])) <==>
            (forall i :: 0 <= i <= n ==> SingleLive(states[i]))
  {
    hide Step, Shape, SingleLive, AllInRegistry, Run, Base, Enabled;
    RunStarts(states, events);
    InRegistryIsSingle(states[n]);
    if n == 0 {
      InRegistryAtStart();
    } else {
      LiveConnectionsAreInRegistry(states, events, n - 1);
      RunStep(states, events, n - 1);
      if AllInRegistry(states[n - 1]) && SingleLive(states[n]) {
        ShapeKeepsInRegistry(states[n - 1], events[n - 1], states[n]);
      }
    }
  }

  lemma InRegistryAtStart()
    ensures AllInRegistry(Start()) && SingleLive(Start())
  {
  }

  lemma InRegistryIsSingle(s: Coord)
    ensures AllInRegistry(s) ==> SingleLive(s)
  {
  }

  // ---- that the conditions are needed ----

  /** A registration that reports no objects. */
  function Quiet(worker: Id128, boot: Id128): Hello {
    Hello(PROTOCOL_VERSION, worker, boot, 0, 0, [], [], [], [])
  }

  function WithConns(conns: map<ConnId, Conn>, workers: map<Id128, ConnId>, lastBoot: map<Id128, Id128>): Coord {
    Start().(conns := conns, workers := workers, lastBoot := lastBoot)
  }

  lemma QuietHello(s: Coord, c: ConnId, worker: Id128, boot: Id128)
    requires c in s.conns && s.conns[c].alive && s.workerObjects == map[]
    requires worker in s.workers ==> s.ConnOf(s.workers[worker]).boot == boot
    ensures Step(s, HelloMsg(c, Quiet(worker, boot))) ==
            s.(lastBoot := s.lastBoot[worker := boot], conns := s.conns[c := Conn(true, true, worker, boot)],
               workers := s.workers[worker := c])
  {
  }

  ghost predicate Reachable(s: Coord) {
    exists states, events :: Run(states, events) && states[|events|] == s
  }

  lemma StartReachable()
    ensures Reachable(Start())
  {
    var none: seq<Event> := [];
    assert Run([Start()], none) && [Start()][|none|] == Start();
  }

  lemma ReachStep(s: Coord, e: Event, s': Coord)
    requires Reachable(s) && Enabled(s, e) && Step(s, e) == s'
    ensures Reachable(s')
  {
    var states, events :| Run(states, events) && states[|events|] == s;
    var states', events' := states + [s'], events + [e];
    forall i | 0 <= i < |events'| ensures Enabled(states'[i], events'[i]) && states'[i + 1] == Step(states'[i], events'[i]) {
      if i < |events| {
        assert states'[i] == states[i] && states'[i + 1] == states[i + 1] && events'[i] == events[i];
      }
    }
    assert Run(states', events') && states'[|events'|] == s';
  }

  lemma ReachQuietHello(s: Coord, c: ConnId, worker: Id128, boot: Id128, s': Coord)
    requires Reachable(s) && CountersBelowLimit(s) && s.workerObjects == map[]
    requires c in s.conns && s.conns[c].alive && !s.conns[c].registered
    requires worker in s.workers ==> s.ConnOf(s.workers[worker]).boot == boot
    requires s' == s.(lastBoot := s.lastBoot[worker := boot], conns := s.conns[c := Conn(true, true, worker, boot)],
                      workers := s.workers[worker := c])
    ensures Reachable(s')
  {
    hide Reachable;
    QuietHello(s, c, worker, boot);
    ReachStep(s, HelloMsg(c, Quiet(worker, boot)), s');
  }

  const IDLE_CONN := Conn(true, false, 0, 0)
  const FIRST_BOOT := Conn(true, true, 1, 10)
  const LOST_CONN := Conn(false, true, 1, 10)

  /** Worker 1 registers twice with boot 10. */
  lemma TwoRegistrations()
    ensures Reachable(WithConns(map[0 := FIRST_BOOT, 1 := FIRST_BOOT], map[1 := 1], map[1 := 10]))
  {
    hide Reachable;
    var s1 := WithConns(map[0 := IDLE_CONN], map[], map[]);
    var s2 := WithConns(map[0 := FIRST_BOOT], map[1 := 0], map[1 := 10]);
    var s3 := WithConns(map[0 := FIRST_BOOT, 1 := IDLE_CONN], map[1 := 0], map[1 := 10]);
    var s4 := WithConns(map[0 := FIRST_BOOT, 1 := FIRST_BOOT], map[1 := 1], map[1 := 10]);
    StartReachable();
    ReachStep(Start(), Accept(0), s1);
    ReachQuietHello(s1, 0, 1, 10, s2);
    ReachStep(s2, Accept(1), s3);
    ReachQuietHello(s3, 1, 1, 10, s4);
  }

  /** A worker id can have two live connections, under one boot: the gate holds, and the older connection is
      not the registry's. */
  lemma ReconnectionLeavesRegistry()
    ensures exists s: Coord :: Reachable(s) && BootGate(s) && !SingleLive(s) && !AllInRegistry(s)
  {
    hide Reachable;
    var s := WithConns(map[0 := FIRST_BOOT, 1 := FIRST_BOOT], map[1 := 1], map[1 := 10]);
    TwoRegistrations();
    assert LiveConn(s, 0) && LiveConn(s, 1) && s.conns[0].id == s.conns[1].id;
    assert CarriesLastBoot(s);
    GateIsLastBoot(s);
  }

  /** The boot gate can fail: after some run a report on an older connection is authorised with boot 10
      although the boot on record is 11. */
  lemma StaleBootIsAccepted()
    ensures exists s: Coord ::
              && Reachable(s)
              && Authorised(s, 0, 10, Tag(0, 0, 0))
              && s.ConnOf(0).alive && s.ConnOf(0).id == 1
              && 1 in s.lastBoot && s.lastBoot[1] == 11
  {
    hide Reachable;
    var s4 := WithConns(map[0 := FIRST_BOOT, 1 := FIRST_BOOT], map[1 := 1], map[1 := 10]);
    var s5 := WithConns(map[0 := FIRST_BOOT, 1 := LOST_CONN], map[], map[1 := 10]);
    var s6 := WithConns(map[0 := FIRST_BOOT, 1 := LOST_CONN, 2 := IDLE_CONN], map[], map[1 := 10]);
    var s7 := WithConns(map[0 := FIRST_BOOT, 1 := LOST_CONN, 2 := Conn(true, true, 1, 11)], map[1 := 2], map[1 := 11]);
    TwoRegistrations();
    ReachStep(s4, Disconnect(1, 0), s5);
    ReachStep(s5, Accept(2), s6);
    ReachQuietHello(s6, 2, 1, 11, s7);
  }

  const IDLE_0: Coord := WithConns(map[0 := IDLE_CONN], map[], map[])
  const REGISTERED: Coord := WithConns(map[0 := FIRST_BOOT], map[1 := 0], map[1 := 10])

  /** Worker 1 has registered and is asked to warm object 7. */
  function Asked(): Coord {
    REGISTERED.(budget := Ledger(UNLIMITED, map[1 := Reservation(DEVICE_MEMORY, WARM_BYTES), 2 := Reservation(CONCURRENT_WARMING_OPS, 1)],
                                 map[DEVICE_MEMORY := WARM_BYTES, CONCURRENT_WARMING_OPS := 1], 3),
                inFlight := map[1 := Attempt(7, 1, Hold(1, 2))], inFlightCount := 1, attemptCounter := 2)
  }

  lemma IssueAsks()
    ensures OnIssue(REGISTERED, 7, Some(1)) == Asked()
  {
    var s := REGISTERED;
    assert 1 in s.workers && s.ConnOf(s.workers[1]).registered;
    assert Target(s, Some(1)) == Some(1);
    var l := s.budget;
    var l1 := Ledger(UNLIMITED, map[1 := Reservation(DEVICE_MEMORY, WARM_BYTES)], map[DEVICE_MEMORY := WARM_BYTES], 2);
    assert Reserve(l, DEVICE_MEMORY, WARM_BYTES) == (1, l1);
    assert Reserve(l1, CONCURRENT_WARMING_OPS, 1) == (2, Asked().budget);
  }

  const DONE: WarmResult := WarmResult(10, Tag(0, 0, 0), 7, 0, 1, true, 0, 0, [])

  lemma AskedReachable()
    ensures Reachable(Asked())
  {
    hide Reachable;
    ReachIdle();
    ReachQuietHello(IDLE_0, 0, 1, 10, REGISTERED);
    IssueAsks();
    ReachStep(REGISTERED, Issue(7, Some(1)), Asked());
  }

  lemma DoneIsReady()
    ensures var s := OnResult(Asked(), 0, DONE, 0);
            && s.ReadyAt(7) && s.workerObjects == map[1 := {7}] && s.workers == map[1 := 0] && s.lastBoot == map[1 := 10]
            && s.conns == map[0 := FIRST_BOOT] && s.objects.Keys == {7} && CountersBelowLimit(s)
  {
    hide Warmed;
    var s := Asked();
    WarmedIsReady(s, DONE, 0);
    assert Settles(s, 0, DONE);
    var s1 := ApplyResult(s, 1, DONE, 0);
    assert s.Attributed(1) + {7} == {7};
    assert s1.objects == map[7 := Warmed(s, DONE, 0)] && s1.workerObjects == map[1 := {7}];
    AskedReleases();
  }

  lemma AskedReleases()
    ensures Headroom(ReleaseHold(Asked().budget, Hold(1, 2)))
  {
    var l := Asked().budget;
    var l1 := Release(l, 1).1;
    assert l1.reservations == map[2 := Reservation(CONCURRENT_WARMING_OPS, 1)];
    assert l1.Usage(DEVICE_MEMORY) == 0 && l1.Usage(CONCURRENT_WARMING_OPS) == 1;
  }

  /** Attribution and the registry can fail: after some run a second HELLO that names another worker on the
      same connection leaves the first worker's ready object without a live connection, and the first
      worker's entry on a connection that is no longer its own. */
  lemma SecondWorkerIdBreaksAttribution()
    ensures exists s: Coord, e: Event ::
              && Reachable(s) && Enabled(s, e) && Renames(s, e)
              && Attribution(s) && !Attribution(Step(s, e))
              && Entries(s) && !Entries(Step(s, e))
  {
    hide Reachable;
    var s := OnResult(Asked(), 0, DONE, 0);
    DoneIsReady();
    AskedReachable();
    ReachStep(Asked(), ResultMsg(0, DONE, 0), s);
    SecondName(s);
  }

  lemma SecondName(s: Coord)
    requires s.ReadyAt(7) && s.workerObjects == map[1 := {7}] && s.workers == map[1 := 0] && s.lastBoot == map[1 := 10]
    requires s.conns == map[0 := FIRST_BOOT] && s.objects.Keys == {7} && CountersBelowLimit(s)
    ensures var e := HelloMsg(0, Quiet(2, 10));
            && Enabled(s, e) && Renames(s, e) && Attribution(s) && !Attribution(Step(s, e))
            && Entries(s) && !Entries(Step(s, e))
  {
    assert LiveConn(s, 0) && 7 in s.Attributed(s.conns[0].id);
    assert Vouched(s, 7);
    var s' := Step(s, HelloMsg(0, Quiet(2, 10)));
    assert s'.ReadyAt(7) && s'.Attributed(2) == {} && !Vouched(s', 7);
    assert 1 in s'.workers && s'.conns[0].id == 2 && !Entry(s', 1);
  }

  /** A peer's word can make an object ready: after some run, with no command ever issued, a HELLO that lists
      a new object as HOT leaves it execution-ready. */
  lemma HotHelloMakesReady()
    ensures exists s: Coord, e: Event ::
              && Reachable(s) && Enabled(s, e) && s.attemptCounter == 1
              && !s.ReadyAt(7) && Step(s, e).ReadyAt(7)
  {
    hide Reachable, Step;
    var o := NewObject(7, APPLICATION_DEFINED, 0, 0, [], []).(state := HOT);
    var e := HelloMsg(0, Quiet(1, 10).(observed := [o]));
    ReachIdle();
    assert ArrivesHot([o], 7) by {
      assert [o][..0] == [] && Mentions([o], 7) by {
        assert [o][0].id == 7;
      }
    }
    OnlyResultsRaise(IDLE_0, e, 7);
  }

  lemma ReachIdle()
    ensures Reachable(IDLE_0)
  {
    hide Reachable;
    StartReachable();
    ReachStep(Start(), Accept(0), IDLE_0);
  }
}
