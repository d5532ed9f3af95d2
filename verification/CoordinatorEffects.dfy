/** What each critical section of the coordinator does to the state, object by object and field by field,
    said without the functions that compute it. */
module CoordinatorEffects {
  import opened Basics
  import opened WarmthStates
  import opened WarmthObjects
  import opened Policies
  import opened Decay
  import opened Budgets
  import opened MessageTypes
  import opened CoordinatorModel
  import opened CoordinatorInvariant

  // ---- what may happen to one object ----

  /** Readiness inherited from an older authority is withdrawn: live and stale objects become INVALIDATED. */
  predicate WithdrawnFor(o: WarmthObject, o': WarmthObject, why: Text, reason: Text) {
    && o' == o.(state := o'.state, stateReason := o'.stateReason, dims := o'.dims, invalidation := Some(reason))
    && DeviceSet(o.dims, o'.dims, COLD_DIM)
    && if o.state.PARTIALLY_WARM? || o.state.WARM? || o.state.HOT? || o.state.STALE?
       then o'.state == INVALIDATED && o'.stateReason == why
       else o'.state == o.state && o'.stateReason == o.stateReason
  }

  /** A peer's object is filed as it is, except for its provenance and that WARM becomes DISCOVERED. */
  predicate TakenOver(o: WarmthObject, o': WarmthObject) {
    && o' == o.(state := o'.state, stateReason := o'.stateReason, provenance := REPORTED)
    && if o.state.WARM? then o'.state == DISCOVERED && o'.stateReason == Ascii("observed-not-live")
       else o'.state == o.state && o'.stateReason == o.stateReason
  }

  /** A report stores what its last entry e says of a known object; a ready entry moves an object that is
      neither ready nor partially warm to DISCOVERED. */
  predicate Overlaid(o: WarmthObject, o': WarmthObject, e: WarmthObject, someReady: bool, now: Timestamp) {
    && o' == o.(dims := e.dims, lastUsed := now, observedTtr := e.observedTtr, residency := e.residency,
                provenance := REPORTED, state := o'.state, stateReason := o'.stateReason)
    && if someReady && !o.state.WARM? && !o.state.HOT? && !o.state.PARTIALLY_WARM?
       then o'.state == DISCOVERED && o'.stateReason == Ascii("observed-not-live")
       else o'.state == o.state && o'.stateReason == o.stateReason
  }

  /** A lost worker's object: what was alive or being prepared goes stale, its device state is suspect. */
  predicate LostWith(o: WarmthObject, o': WarmthObject) {
    && o' == o.(state := o'.state, stateReason := o'.stateReason, dims := o'.dims)
    && DeviceSet(o.dims, o'.dims, SUSPECT_DIM)
    && if o.state.PREPARING? || o.state.PARTIALLY_WARM? || o.state.WARM? || o.state.HOT?
       then o'.state == STALE && o'.stateReason == Ascii("worker_disconnect")
       else o'.state == o.state && o'.stateReason == o.stateReason
  }

  /** A successful warming: HOT stays HOT, anything else ends WARM, and the measurements are stored.  The
      reason of an invalidation is cleared only if the object was INVALIDATED. */
  predicate WarmedBy(o: WarmthObject, o': WarmthObject, r: WarmResult, gen: Word64, now: Timestamp) {
    && o' == o.(state := o'.state, stateReason := o'.stateReason, warmthGen := gen, measuredCost := r.bytes,
                observedTtr := r.duration, lastPrepared := now, lastUsed := now, provenance := MEASURED,
                residency := DEVICE_RESIDENT, invalidation := o'.invalidation)
    && o'.invalidation == (if o.state.INVALIDATED? then None else o.invalidation)
    && if o.state.WARM? || o.state.HOT? then o'.state == o.state && o'.stateReason == o.stateReason
       else o'.state == WARM && o'.stateReason == Ascii("warm_completed")
  }

  /** A failed warming: FAILED with the reported error, except that an evicted object stays evicted. */
  predicate FailedBy(o: WarmthObject, o': WarmthObject, error: Text) {
    if o.state.EVICTED? then o' == o else o' == o.(state := FAILED, stateReason := error)
  }

  /** The object a result creates when it names an unknown one. */
  predicate Fresh(o: WarmthObject, id: Id128) {
    && o.id == id && o.category == 11 && o.workload == 0 && o.node == 0
    && o.device == Ascii("cuda:0") && o.backend == Ascii("cuda") && o.owner == []
    && o.model == o.artifact == o.replica == o.engine == None
    && o.state == COLD && o.stateReason == [] && (forall i :: 0 <= i < 12 ==> o.dims[i] == COLD_DIM)
    && o.lastPrepared == 0 && o.lastUsed == 0 && o.estimatedCost == 0 && o.measuredCost == 0
    && o.estimatedTtr == 0 && o.observedTtr == 0 && o.residency == NONE && o.lifecycle == 0
    && o.confidence == 0 && o.freshness == 0 && o.warmthGen == 0 && o.depGens == map[]
    && o.invalidation == None && o.provenance == LOCAL
  }

  lemma RevokeIs(o: WarmthObject, why: Text, reason: Text)
    ensures WithdrawnFor(o, Revoke(o, why, reason), why, reason)
  {
  }

  lemma ObservedIs(o: WarmthObject)
    ensures TakenOver(o, Observed(o))
  {
  }

  lemma RefreshIs(o: WarmthObject, e: WarmthObject, now: Timestamp)
    ensures Overlaid(o, Refresh(o, e, now), e, e.state.WARM? || e.state.HOT?, now)
  {
  }

  lemma LostIs(o: WarmthObject, now: Timestamp)
    ensures LostWith(o, Lost(o, now))
  {
  }

  // ---- lists of peer objects ----

  /** Entry j is the first, or from lo on the last, with its id. */
  predicate First(os: seq<WarmthObject>, j: nat) {
    j < |os| && forall i :: 0 <= i < j ==> os[i].id != os[j].id
  }

  predicate Last(os: seq<WarmthObject>, j: nat) {
    j < |os| && forall i :: j < i < |os| ==> os[i].id != os[j].id
  }

  /** Some entry from lo on calls the object ready. */
  predicate SomeReady(os: seq<WarmthObject>, lo: nat, id: Id128) {
    exists k :: lo <= k < |os| && os[k].id == id && (os[k].state.WARM? || os[k].state.HOT?)
  }

  lemma {:induction false} ObservedContents(s: Coord, w: Id128, os: seq<WarmthObject>, j: nat)
    requires KeyedById(s) && First(os, j) && os[j].id !in s.objects
    ensures os[j].id in ObserveAll(s, w, os).objects
    ensures TakenOver(os[j], ObserveAll(s, w, os).objects[os[j].id])
    decreases |os|
  {
    hide Observed, TakenOver;
    var before := os[..|os| - 1];
    ObserveAllExactly(s, w, before, os[j].id);
    if j == |os| - 1 {
      ObservedIs(os[j]);
      assert !Mentions(before, os[j].id);
    } else {
      assert First(before, j) && before[j] == os[j];
      ObservedContents(s, w, before, j);
    }
  }

  lemma {:induction false} ReportUntouched(s: Coord, w: Id128, os: seq<WarmthObject>, now: Timestamp, id: Id128)
    requires KeyedById(s) && !Mentions(os, id)
    ensures id in ReportAll(s, w, os, now).objects <==> id in s.objects
    ensures id in s.objects ==> ReportAll(s, w, os, now).objects[id] == s.objects[id]
    decreases |os|
  {
    hide Observed, Refresh;
    if os != [] {
      MentionsInit(os, id);
      ReportUntouched(s, w, os[..|os| - 1], now, id);
      ReportAllExtends(s, w, os[..|os| - 1], now);
      ObservedReadyIffHot(os[|os| - 1]);
    }
  }

  lemma SomeReadyInit(os: seq<WarmthObject>, lo: nat, id: Id128)
    requires lo < |os|
    ensures var o := os[|os| - 1];
      SomeReady(os, lo, id) <==> SomeReady(os[..|os| - 1], lo, id) || (o.id == id && (o.state.WARM? || o.state.HOT?))
  {
    var n := |os| - 1;
    if SomeReady(os[..n], lo, id) {
      var k :| lo <= k < n && os[..n][k].id == id && (os[..n][k].state.WARM? || os[..n][k].state.HOT?);
      assert os[k] == os[..n][k];
    }
    if SomeReady(os, lo, id) {
      var k :| lo <= k < |os| && os[k].id == id && (os[k].state.WARM? || os[k].state.HOT?);
      if k < n {
        assert os[k] == os[..n][k];
      }
    }
  }

  lemma OverlaidTwice(o: WarmthObject, o1: WarmthObject, o2: WarmthObject, e1: WarmthObject, e2: WarmthObject,
                      b1: bool, b2: bool, now: Timestamp)
    requires Overlaid(o, o1, e1, b1, now) && Overlaid(o1, o2, e2, b2, now)
    ensures Overlaid(o, o2, e2, b1 || b2, now)
  {
  }

  /** A known object after a report: the last entry with its id counts. */
  lemma {:induction false} KnownReported(s: Coord, w: Id128, os: seq<WarmthObject>, now: Timestamp, j: nat)
    requires KeyedById(s) && Last(os, j) && os[j].id in s.objects
    ensures var id := os[j].id; var r := ReportAll(s, w, os, now);
            id in r.objects && Overlaid(s.objects[id], r.objects[id], os[j], SomeReady(os, 0, id), now)
    decreases |os|
  {
    var n := |os| - 1;
    var id := os[j].id;
    var before := os[..n];
    ReportAllExtends(s, w, before, now);
    SomeReadyInit(os, 0, id);
    if j < n {
      assert Last(before, j) && before[j] == os[j];
      KnownReported(s, w, before, now, j);
      OneMoreReport(s, w, os, now, id);
    } else {
      LastReported(s, w, os, now);
    }
  }

  /** An entry for another object leaves this one alone. */
  lemma OneMoreReport(s: Coord, w: Id128, os: seq<WarmthObject>, now: Timestamp, id: Id128)
    requires KeyedById(s) && os != [] && os[|os| - 1].id != id
    requires id in ReportAll(s, w, os[..|os| - 1], now).objects
    ensures id in ReportAll(s, w, os, now).objects
    ensures ReportAll(s, w, os, now).objects[id] == ReportAll(s, w, os[..|os| - 1], now).objects[id]
  {
    hide Observed, Refresh;
    ReportAllExtends(s, w, os[..|os| - 1], now);
  }

  lemma LastReported(s: Coord, w: Id128, os: seq<WarmthObject>, now: Timestamp)
    requires KeyedById(s) && os != [] && os[|os| - 1].id in s.objects
    ensures var e := os[|os| - 1]; var r := ReportAll(s, w, os, now);
            e.id in r.objects && Overlaid(s.objects[e.id], r.objects[e.id], e, SomeReady(os, 0, e.id), now)
    decreases |os|, 0
  {
    hide Observed, Refresh, Overlaid;
    var n := |os| - 1;
    var e, before := os[n], os[..n];
    ReportAllExtends(s, w, before, now);
    SomeReadyInit(os, 0, e.id);
    var o1 := ReportAll(s, w, before, now).objects[e.id];
    RefreshIs(o1, e, now);
    RefreshKeepsReadiness(o1, e, now);
    if Mentions(before, e.id) {
      var j := LastIndex(before, e.id);
      KnownReported(s, w, before, now, j);
      OverlaidTwice(s.objects[e.id], o1, Refresh(o1, e, now), before[j], e, SomeReady(before, 0, e.id),
                    e.state.WARM? || e.state.HOT?, now);
    } else {
      ReportUntouched(s, w, before, now, e.id);
      assert !SomeReady(before, 0, e.id);
    }
  }

  /** The last entry with an id that occurs. */
  lemma {:induction false} LastIndex(os: seq<WarmthObject>, id: Id128) returns (j: nat)
    requires Mentions(os, id)
    ensures Last(os, j) && os[j].id == id
    decreases |os|
  {
    var n := |os| - 1;
    if os[n].id == id {
      j := n;
    } else {
      MentionsInit(os, id);
      j := LastIndex(os[..n], id);
      assert os[..n][j] == os[j];
    }
  }

  lemma {:induction false} ReportConcat(s: Coord, w: Id128, a: seq<WarmthObject>, b: seq<WarmthObject>, now: Timestamp)
    ensures ReportAll(s, w, a + b, now) == ReportAll(ReportAll(s, w, a, now), w, b, now)
    decreases |b|
  {
    hide ReportOne;
    if b == [] {
      assert a + b == a;
    } else {
      var n := |b| - 1;
      assert (a + b)[..|a + b| - 1] == a + b[..n];
      ReportConcat(s, w, a, b[..n], now);
    }
  }

  /** The report up to the first entry for a new object, and the rest of it. */
  lemma ReportSplit(s: Coord, w: Id128, os: seq<WarmthObject>, now: Timestamp, i: nat)
    requires KeyedById(s) && First(os, i) && os[i].id !in s.objects
    ensures var s1 := ReportAll(s, w, os[..i + 1], now);
      && KeyedById(s1) && os[i].id in s1.objects && TakenOver(os[i], s1.objects[os[i].id])
      && ReportAll(s, w, os, now) == ReportAll(s1, w, os[i + 1..], now)
  {
    hide Observed, Refresh, TakenOver, ReportAll;
    FirstReported(s, w, os, now, i);
    assert os[..i + 1] + os[i + 1..] == os;
    ReportConcat(s, w, os[..i + 1], os[i + 1..], now);
    ReportAllExtends(s, w, os[..i + 1], now);
  }

  lemma NewReportedOnce(s: Coord, w: Id128, os: seq<WarmthObject>, now: Timestamp, i: nat)
    requires KeyedById(s) && First(os, i) && Last(os, i) && os[i].id !in s.objects
    ensures var r := ReportAll(s, w, os, now); os[i].id in r.objects && TakenOver(os[i], r.objects[os[i].id])
  {
    hide TakenOver, ReportAll;
    ReportSplit(s, w, os, now, i);
    assert !Mentions(os[i + 1..], os[i].id);
    ReportUntouched(ReportAll(s, w, os[..i + 1], now), w, os[i + 1..], now, os[i].id);
  }

  /** A new object listed again after its first entry i is overlaid by its last entry j. */
  lemma NewReportedAgain(s: Coord, w: Id128, os: seq<WarmthObject>, now: Timestamp, i: nat, j: nat)
    requires KeyedById(s) && First(os, i) && Last(os, j) && i < j && os[i].id == os[j].id && os[i].id !in s.objects
    ensures var id := os[i].id; var r := ReportAll(s, w, os, now);
      && id in r.objects
      && exists b :: TakenOver(os[i], b) && Overlaid(b, r.objects[id], os[j], SomeReady(os, i + 1, id), now)
  {
    hide TakenOver, Overlaid, ReportAll, SomeReady;
    ReportSplit(s, w, os, now, i);
    var s1, rest := ReportAll(s, w, os[..i + 1], now), os[i + 1..];
    assert rest[j - i - 1] == os[j] && Last(rest, j - i - 1);
    KnownReported(s1, w, rest, now, j - i - 1);
    SomeReadyShift(os, i + 1, os[i].id);
    assert TakenOver(os[i], s1.objects[os[i].id]);
  }

  lemma SomeReadyShift(os: seq<WarmthObject>, lo: nat, id: Id128)
    requires lo <= |os|
    ensures SomeReady(os[lo..], 0, id) <==> SomeReady(os, lo, id)
  {
    var rest := os[lo..];
    if SomeReady(rest, 0, id) {
      var k :| 0 <= k < |rest| && rest[k].id == id && (rest[k].state.WARM? || rest[k].state.HOT?);
      assert os[lo + k] == rest[k];
    }
    if SomeReady(os, lo, id) {
      var k :| lo <= k < |os| && os[k].id == id && (os[k].state.WARM? || os[k].state.HOT?);
      assert rest[k - lo] == os[k];
    }
  }

  lemma FirstReported(s: Coord, w: Id128, os: seq<WarmthObject>, now: Timestamp, i: nat)
    requires KeyedById(s) && First(os, i) && os[i].id !in s.objects
    ensures var r := ReportAll(s, w, os[..i + 1], now);
            os[i].id in r.objects && TakenOver(os[i], r.objects[os[i].id])
  {
    hide Observed, Refresh, TakenOver;
    var a := os[..i + 1];
    assert a[..|a| - 1] == os[..i] && a[|a| - 1] == os[i];
    assert !Mentions(os[..i], os[i].id);
    ReportUntouched(s, w, os[..i], now, os[i].id);
    ObservedIs(os[i]);
    ObservedReadyIffHot(os[i]);
  }

  // ---- HELLO ----

  /** A HELLO is refused for a foreign version, or when its worker id is live under another boot. */
  predicate HelloRefused(s: Coord, h: Hello) {
    h.version != 1 || (h.worker in s.workers && s.ConnOf(s.workers[h.worker]).boot != h.boot)
  }

  predicate NewBoot(s: Coord, h: Hello) {
    h.worker in s.lastBoot && s.lastBoot[h.worker] != h.boot
  }

  lemma HelloRefusal(s: Coord, c: ConnId, h: Hello)
    requires HelloRefused(s, h)
    ensures Step(s, HelloMsg(c, h)) == s
  {
  }

  /** An accepted HELLO: the connection, the registry and the boot on record. */
  lemma HelloRegisters(s: Coord, c: ConnId, h: Hello)
    requires Filed(s) && !HelloRefused(s, h) && c in s.conns
    ensures var s' := Step(s, HelloMsg(c, h));
      && s'.workers == s.workers[h.worker := c] && s'.lastBoot == s.lastBoot[h.worker := h.boot]
      && s'.conns == s.conns[c := Conn(s.conns[c].alive, true, h.worker, h.boot)]
      && s' == s.(objects := s'.objects, workerObjects := s'.workerObjects, workers := s'.workers,
                  lastBoot := s'.lastBoot, conns := s'.conns)
  {
    hide Register, Withdrawn;
    RegisterShape(s, c, h);
    HelloKeepsFiled(s, c, h);
  }

  /** An accepted HELLO: who vouches for what. */
  lemma HelloAttributes(s: Coord, c: ConnId, h: Hello, id: Id128)
    requires Filed(s) && !HelloRefused(s, h)
    ensures var s' := Step(s, HelloMsg(c, h));
      && (id in s'.Attributed(h.worker) <==> Mentions(h.observed, id) || (!NewBoot(s, h) && id in s.Attributed(h.worker)))
      && forall v :: v != h.worker ==> s'.Attributed(v) == s.Attributed(v)
  {
    hide ObserveAll;
    InvalidateWorkerFacts(s, h.worker);
    HelloKeepsFiled(s, c, h);
    ObserveAllExactly(Register(s, c, h), h.worker, h.observed, id);
    forall v | v != h.worker ensures Step(s, HelloMsg(c, h)).Attributed(v) == s.Attributed(v) {
      assert Register(s, c, h).Attributed(v) == s.Attributed(v);
    }
  }

  /** An accepted HELLO, known objects: a new boot withdraws what the worker vouched for; all others stay. */
  lemma HelloKnown(s: Coord, c: ConnId, h: Hello, id: Id128)
    requires Filed(s) && !HelloRefused(s, h) && id in s.objects
    ensures var s' := Step(s, HelloMsg(c, h));
      && id in s'.objects
      && if NewBoot(s, h) && id in s.Attributed(h.worker)
         then WithdrawnFor(s.objects[id], s'.objects[id], Ascii("worker_boot_changed"), Ascii("worker_boot_changed"))
         else s'.objects[id] == s.objects[id]
  {
    hide Revoke, WithdrawnFor, ObserveAll;
    RevokeIs(s.objects[id], BOOT_CHANGED, BOOT_CHANGED);
    HelloKeepsFiled(s, c, h);
    ObserveAllExtends(Register(s, c, h), h.worker, h.observed);
    assert id in Register(s, c, h).objects;
  }

  /** An accepted HELLO, new objects: each is filed from its first entry. */
  lemma HelloNew(s: Coord, c: ConnId, h: Hello, j: nat)
    requires Filed(s) && !HelloRefused(s, h) && First(h.observed, j) && h.observed[j].id !in s.objects
    ensures var s' := Step(s, HelloMsg(c, h)); var id := h.observed[j].id;
            id in s'.objects && TakenOver(h.observed[j], s'.objects[id])
  {
    hide Register, Withdrawn, ObserveAll, TakenOver;
    RegisterShape(s, c, h);
    HelloKeepsFiled(s, c, h);
    ObservedContents(Register(s, c, h), h.worker, h.observed, j);
  }

  /** An accepted HELLO files nothing but the known and the listed objects. */
  lemma HelloNothingElse(s: Coord, c: ConnId, h: Hello, id: Id128)
    requires Filed(s) && !HelloRefused(s, h)
    ensures id in Step(s, HelloMsg(c, h)).objects ==> id in s.objects || Mentions(h.observed, id)
  {
    hide Register, Withdrawn, ObserveAll;
    RegisterShape(s, c, h);
    HelloKeepsFiled(s, c, h);
    ObserveAllExactly(Register(s, c, h), h.worker, h.observed, id);
  }

  // ---- REPORT ----

  /** The authority a frame must carry: its connection is registered under that boot, and all three
      components of the tag are current. */
  predicate Fenced(s: Coord, c: ConnId, boot: Id128, t: Tag) {
    && c in s.conns && s.conns[c].registered && s.conns[c].boot == boot
    && t.epoch == s.epoch && t.warmthGen == s.warmthGen && t.depGen == s.depGen
  }

  /** A report without the authority changes nothing; with it, only objects and attribution. */
  lemma ReportFence(s: Coord, c: ConnId, p: Report, now: Timestamp)
    requires Filed(s)
    ensures var s' := Step(s, ReportMsg(c, p, now));
      if !Fenced(s, c, p.boot, p.tag) then s' == s
      else
        && s' == s.(objects := s'.objects, workerObjects := s'.workerObjects)
        && (forall v :: v != s.conns[c].id ==> s'.Attributed(v) == s.Attributed(v))
        && (forall id :: id in s'.Attributed(s.conns[c].id) <==> id in s.Attributed(s.conns[c].id) || Mentions(p.objects, id))
  {
    hide ReportAll;
    if Fenced(s, c, p.boot, p.tag) {
      ReportAllExtends(s, s.conns[c].id, p.objects, now);
      forall id
        ensures id in Step(s, ReportMsg(c, p, now)).Attributed(s.conns[c].id) <==>
                id in s.Attributed(s.conns[c].id) || Mentions(p.objects, id)
      {
        ReportAllExactly(s, s.conns[c].id, p.objects, now, id);
      }
    }
  }

  /** An authorised report, object by object, for every list and every id. */
  lemma ReportObjects(s: Coord, c: ConnId, p: Report, now: Timestamp, id: Id128)
    requires Filed(s) && Fenced(s, c, p.boot, p.tag)
    ensures var s' := Step(s, ReportMsg(c, p, now)); var os := p.objects;
      && (!Mentions(os, id) ==>
            (id in s'.objects <==> id in s.objects) && (id in s.objects ==> s'.objects[id] == s.objects[id]))
      && (forall j: nat :: Last(os, j) && os[j].id == id && id in s.objects ==>
            id in s'.objects && Overlaid(s.objects[id], s'.objects[id], os[j], SomeReady(os, 0, id), now))
      && (forall i: nat, j: nat :: First(os, i) && Last(os, j) && os[i].id == os[j].id == id && id !in s.objects ==>
            && id in s'.objects
            && if i == j then TakenOver(os[i], s'.objects[id])
               else exists b :: TakenOver(os[i], b) && Overlaid(b, s'.objects[id], os[j], SomeReady(os, i + 1, id), now))
  {
    hide ReportAll, First, Last, Overlaid, TakenOver, SomeReady, Mentions;
    var w, os := s.conns[c].id, p.objects;
    if !Mentions(os, id) {
      ReportUntouched(s, w, os, now, id);
    }
    forall j: nat | Last(os, j) && (LastInRange(os, j); os[j].id == id) && id in s.objects
      ensures var s' := Step(s, ReportMsg(c, p, now));
              id in s'.objects && Overlaid(s.objects[id], s'.objects[id], os[j], SomeReady(os, 0, id), now)
    {
      KnownReported(s, w, os, now, j);
    }
    forall i: nat, j: nat | First(os, i) && Last(os, j) && (InRange(os, i, j); os[i].id == os[j].id == id) && id !in s.objects
      ensures var s' := Step(s, ReportMsg(c, p, now));
              && id in s'.objects
              && if i == j then TakenOver(os[i], s'.objects[id])
                 else exists b :: TakenOver(os[i], b) && Overlaid(b, s'.objects[id], os[j], SomeReady(os, i + 1, id), now)
    {
      InRange(os, i, j);
      if i == j {
        NewReportedOnce(s, w, os, now, i);
      } else {
        FirstBeforeLast(os, i, j);
        NewReportedAgain(s, w, os, now, i, j);
      }
    }
  }

  lemma LastInRange(os: seq<WarmthObject>, j: nat)
    ensures Last(os, j) ==> j < |os|
  {
  }

  lemma InRange(os: seq<WarmthObject>, i: nat, j: nat)
    ensures First(os, i) ==> i < |os|
    ensures Last(os, j) ==> j < |os|
  {
  }

  lemma FirstBeforeLast(os: seq<WarmthObject>, i: nat, j: nat)
    requires First(os, i) && Last(os, j) && os[i].id == os[j].id
    ensures i <= j
  {
  }

  // ---- WARM_RESULT ----

  /** A result settles an attempt that is in flight for its object and was issued to its worker. */
  predicate ResultCounts(s: Coord, c: ConnId, r: WarmResult) {
    && Fenced(s, c, r.boot, r.tag)
    && r.attempt in s.inFlight && s.inFlight[r.attempt].worker == s.conns[c].id && s.inFlight[r.attempt].obj == r.obj
  }

  /** Any other result changes nothing; one that counts gives back its hold and leaves the rest alone. */
  lemma ResultSettles(s: Coord, c: ConnId, r: WarmResult, now: Timestamp)
    requires Accounting(s)
    ensures var s' := Step(s, ResultMsg(c, r, now));
      if !ResultCounts(s, c, r) then s' == s
      else
        && s' == s.(objects := s'.objects, workerObjects := s'.workerObjects, budget := s'.budget,
                    inFlight := s.inFlight - {r.attempt}, inFlightCount := |s.inFlight| - 1)
        && s'.budget.reservations == s.budget.reservations - HoldIds(s.inFlight[r.attempt].hold)
        && s'.budget == s.budget.(reservations := s'.budget.reservations, usage := s'.budget.usage)
  {
    hide Warmed, Accounting;
    if ResultCounts(s, c, r) {
      var s1 := ApplyResult(s, s.conns[c].id, r, now);
      SameAccounting(s, s1);
      SettleCounts(s1, r.attempt);
    }
  }

  lemma SettleCounts(s: Coord, a: Word64)
    requires Accounting(s) && a in s.inFlight
    ensures Settle(s, a) == s.(budget := Settle(s, a).budget, inFlight := s.inFlight - {a}, inFlightCount := |s.inFlight| - 1)
    ensures Settle(s, a).budget.reservations == s.budget.reservations - HoldIds(s.inFlight[a].hold)
    ensures var l := Settle(s, a).budget; l == s.budget.(reservations := l.reservations, usage := l.usage)
  {
    hide Accounts;
    SettleKeepsAccounting(s, a);
    assert |s.inFlight| > 0;
  }

  /** A successful result that counts: the object is warmed, created first if unknown, and attributed to the
      worker; nothing else changes. */
  lemma ResultSucceeds(s: Coord, c: ConnId, r: WarmResult, now: Timestamp)
    requires ResultCounts(s, c, r) && r.success
    ensures var s' := Step(s, ResultMsg(c, r, now));
      && r.obj in s'.objects
      && (r.obj in s.objects ==> WarmedBy(s.objects[r.obj], s'.objects[r.obj], r, s.warmthGen, now))
      && (r.obj !in s.objects ==> exists o :: Fresh(o, r.obj) && WarmedBy(o, s'.objects[r.obj], r, s.warmthGen, now))
      && s'.objects == s.objects[r.obj := s'.objects[r.obj]]
      && s'.workerObjects == s.workerObjects[s.conns[c].id := s.Attributed(s.conns[c].id) + {r.obj}]
  {
    hide Warmed, WarmedBy, Fresh;
    WarmedIs(s, r, now);
  }

  lemma WarmedIs(s: Coord, r: WarmResult, now: Timestamp)
    ensures r.obj in s.objects ==> WarmedBy(s.objects[r.obj], Warmed(s, r, now), r, s.warmthGen, now)
    ensures r.obj !in s.objects ==> exists o :: Fresh(o, r.obj) && WarmedBy(o, Warmed(s, r, now), r, s.warmthGen, now)
  {
    if r.obj !in s.objects {
      var o := NewObject(r.obj, APPLICATION_DEFINED, 0, 0, Ascii("cuda:0"), Ascii("cuda"));
      assert Fresh(o, r.obj);
      ReachWarmIsReady(o, COMPLETED);
      assert WarmedBy(o, Warmed(s, r, now), r, s.warmthGen, now);
    } else {
      KnownWarmedIs(s, r, now);
    }
  }

  lemma KnownWarmedIs(s: Coord, r: WarmResult, now: Timestamp)
    requires r.obj in s.objects
    ensures WarmedBy(s.objects[r.obj], Warmed(s, r, now), r, s.warmthGen, now)
  {
    ReachWarmIsReady(BeforeWarm(s, r.obj), COMPLETED);
  }

  /** A failed result that counts: a known object fails, unless it was evicted; an unknown one stays unknown;
      no other object and no attribution changes, and the object is not ready. */
  lemma ResultFails(s: Coord, c: ConnId, r: WarmResult, now: Timestamp)
    requires ResultCounts(s, c, r) && !r.success
    ensures var s' := Step(s, ResultMsg(c, r, now));
      && s'.workerObjects == s.workerObjects && s'.objects.Keys == s.objects.Keys
      && (forall id :: id in s.objects && id != r.obj ==> s'.objects[id] == s.objects[id])
      && (r.obj in s.objects ==> FailedBy(s.objects[r.obj], s'.objects[r.obj], r.error) && !s'.ReadyAt(r.obj))
  {
  }

  // ---- disconnect ----

  lemma DisconnectEffect(s: Coord, c: ConnId, now: Timestamp)
    requires c in s.conns
    ensures var s' := Step(s, Disconnect(c, now)); var w := s.conns[c].id;
      && s' == s.(conns := s.conns[c := s.conns[c].(alive := false)], workers := s'.workers, objects := s'.objects)
      && s'.objects.Keys == s.objects.Keys
      && (forall v :: v in s'.workers <==> v in s.workers && !(s.conns[c].registered && v == w && s.workers[v] == c))
      && (forall v :: v in s'.workers ==> s'.workers[v] == s.workers[v])
      && (forall id :: id in s.objects ==>
            if s.conns[c].registered && id in s.Attributed(w) then LostWith(s.objects[id], s'.objects[id])
            else s'.objects[id] == s.objects[id])
  {
    hide Lost, LostWith;
    forall id | id in s.objects ensures LostWith(s.objects[id], Lost(s.objects[id], now)) {
      LostIs(s.objects[id], now);
    }
  }

  // ---- issue_warm ----

  /** Whom a command goes to: the preferred worker if it is registered, else, without a preference, the
      registered worker with the least id. */
  predicate GoesTo(s: Coord, preferred: Option<Id128>, w: Id128) {
    w in s.workers && if preferred.Some? then preferred.value == w else forall v :: v in s.workers ==> w <= v
  }

  /** With nobody to command, nothing changes. */
  lemma IssueRefusal(s: Coord, obj: Id128, preferred: Option<Id128>)
    requires forall w :: GoesTo(s, preferred, w) ==> !s.ConnOf(s.workers[w]).registered
    ensures Step(s, Issue(obj, preferred)) == s
  {
    if Target(s, preferred).Some? {
      TargetIs(s, preferred);
    }
  }

  lemma TargetIs(s: Coord, preferred: Option<Id128>)
    ensures Target(s, preferred).Some? ==>
      GoesTo(s, preferred, Target(s, preferred).value) && s.ConnOf(s.workers[Target(s, preferred).value]).registered
    ensures forall w :: GoesTo(s, preferred, w) && s.ConnOf(s.workers[w]).registered ==> Target(s, preferred) == Some(w)
  {
    if s.workers != map[] {
      KeysNonempty(s.workers);
    }
    forall w | GoesTo(s, preferred, w) && s.ConnOf(s.workers[w]).registered ensures Target(s, preferred) == Some(w) {
      assert w in s.workers.Keys;
    }
  }

  /** Otherwise the attempt is entered under the attempt counter, for the worker of that connection, holding
      two reservations the ledger never handed out before. */
  lemma IssueEnters(s: Coord, obj: Id128, preferred: Option<Id128>, w: Id128)
    requires Accounting(s) && CountersBelowLimit(s)
    requires GoesTo(s, preferred, w) && s.ConnOf(s.workers[w]).registered
    ensures var s' := Step(s, Issue(obj, preferred)); var a := s.attemptCounter;
      && s' == s.(budget := s'.budget, inFlight := s'.inFlight, inFlightCount := s'.inFlightCount,
                  attemptCounter := s'.attemptCounter)
      && s'.inFlightCount == s.inFlightCount + 1 && s'.attemptCounter == a + 1
      && a !in s.inFlight && a in s'.inFlight
    ensures var t := Step(s, Issue(obj, preferred)).inFlight[s.attemptCounter];
      && Step(s, Issue(obj, preferred)).inFlight == s.inFlight[s.attemptCounter := t]
      && t.obj == obj && t.worker == s.ConnOf(s.workers[w]).id
  {
    hide Acquire, Accounts, Headroom, Target;
    TargetIs(s, preferred);
    UnlimitedAdmits(s);
    CountBelowLimit(s);
    FreshAttempt(s);
  }

  lemma IssueHolds(s: Coord, obj: Id128, preferred: Option<Id128>, w: Id128)
    requires Accounting(s) && CountersBelowLimit(s)
    requires GoesTo(s, preferred, w) && s.ConnOf(s.workers[w]).registered
    ensures s.attemptCounter in Step(s, Issue(obj, preferred)).inFlight
    ensures var s' := Step(s, Issue(obj, preferred)); var h := s'.inFlight[s.attemptCounter].hold;
      && h.op != 0 && HoldIds(h) !! s.budget.reservations.Keys
      && s'.budget.reservations.Keys == s.budget.reservations.Keys + HoldIds(h)
  {
    hide Acquire, Accounting, Headroom, Target, HoldIds;
    TargetIs(s, preferred);
    UnlimitedAdmits(s);
    NewHold(s);
  }

  lemma FreshAttempt(s: Coord)
    requires Accounting(s)
    ensures s.attemptCounter !in s.inFlight
  {
    hide Accounts;
  }

  lemma UnlimitedAdmits(s: Coord)
    requires Accounting(s) && CountersBelowLimit(s)
    ensures Acquire(s.budget).Some? && Acquire(s.budget).value.0.op != 0
  {
    UnlimitedAlwaysAdmits(s.budget);
  }

  lemma NewHold(s: Coord)
    requires Accounting(s) && CountersBelowLimit(s) && Acquire(s.budget).Some?
    ensures var (h, l) := Acquire(s.budget).value;
      HoldIds(h) !! s.budget.reservations.Keys && l.reservations.Keys == s.budget.reservations.Keys + HoldIds(h)
  {
    hide Acquire, Covers, HoldIds;
    AcquireGrows(s.budget);
    GrewKeys(s.budget, Acquire(s.budget).value.0, Acquire(s.budget).value.1);
  }

  lemma GrewKeys(l: Ledger, h: Hold, l': Ledger)
    requires Grew(l, h, l') && forall id :: id in l.reservations ==> 0 < id < l.nextId
    ensures HoldIds(h) !! l.reservations.Keys && l'.reservations.Keys == l.reservations.Keys + HoldIds(h)
  {
  }

  /** A failed send takes the attempt back if it is still in flight. */
  lemma SendFailedEffect(s: Coord, a: Word64)
    requires Accounting(s)
    ensures var s' := Step(s, SendFailed(a));
      if a !in s.inFlight then s' == s
      else
        && s' == s.(budget := s'.budget, inFlight := s.inFlight - {a}, inFlightCount := |s.inFlight| - 1)
        && s'.budget.reservations == s.budget.reservations - HoldIds(s.inFlight[a].hold)
  {
    if a in s.inFlight {
      SettleCounts(s, a);
    }
  }

  // ---- the roll and the bumps ----

  lemma RollEffect(s: Coord)
    requires Accounting(s)
    ensures var s' := Step(s, Roll);
      && s' == s.(epoch := s'.epoch, warmthGen := s'.warmthGen, depGen := s'.depGen, objects := s'.objects,
                  budget := s'.budget, inFlight := map[], inFlightCount := 0)
      && s'.epoch == (if s.epoch == 0xFFFF_FFFF_FFFF_FFFF then s.epoch else s.epoch + 1)
      && s'.warmthGen == (s.warmthGen + 1) % 0x1_0000_0000_0000_0000
      && s'.depGen == (s.depGen + 1) % 0x1_0000_0000_0000_0000
      && s'.budget.reservations == map[]
      && s'.objects.Keys == s.objects.Keys
      && (forall id :: id in s.objects ==>
            WithdrawnFor(s.objects[id], s'.objects[id], Ascii("authority roll"), Ascii("coordinator_epoch_rolled")))
  {
    hide Revoke, WithdrawnFor, Accounts, ReleaseAll, RevokeEach;
    RollAuthority(s);
    RollObjects(s);
  }

  lemma RollAuthority(s: Coord)
    requires Accounting(s)
    ensures var s' := Step(s, Roll); s'.budget.reservations == map[] && s'.inFlightCount == 0
  {
    hide RevokeEach, Accounts;
    ReleaseAllAccounts(s.budget, s.inFlight);
  }

  lemma RollObjects(s: Coord)
    ensures var s' := Step(s, Roll);
      && s'.objects.Keys == s.objects.Keys
      && (forall id :: id in s.objects ==>
            WithdrawnFor(s.objects[id], s'.objects[id], Ascii("authority roll"), Ascii("coordinator_epoch_rolled")))
  {
    hide Revoke, WithdrawnFor, ReleaseAll;
    forall id | id in s.objects
      ensures WithdrawnFor(s.objects[id], Step(s, Roll).objects[id], Ascii("authority roll"), Ascii("coordinator_epoch_rolled"))
    {
      RevokeIs(s.objects[id], Ascii("authority roll"), ROLLED);
    }
  }
}
