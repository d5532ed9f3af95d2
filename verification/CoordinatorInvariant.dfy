/** What every step of the coordinator keeps, and what therefore holds in every run. */
module CoordinatorInvariant {
  import opened Basics
  import opened WarmthStates
  import opened WarmthObjects
  import opened Policies
  import opened Decay
  import opened Budgets
  import opened MessageTypes
  import opened CoordinatorModel

  // ---- the invariant ----

  /** A registry entry names a live registered connection of that worker, whose boot is the last boot. */
  predicate Entry(s: Coord, w: Id128) {
    && w in s.workers
    && s.workers[w] in s.conns
    && s.conns[s.workers[w]].alive
    && s.conns[s.workers[w]].registered
    && s.conns[s.workers[w]].id == w
    && w in s.lastBoot
    && s.lastBoot[w] == s.conns[s.workers[w]].boot
  }

  ghost predicate Entries(s: Coord) {
    forall w {:trigger Entry(s, w)} :: w in s.workers ==> Entry(s, w)
  }

  ghost predicate KeyedById(s: Coord) {
    forall id {:trigger s.objects[id]} :: id in s.objects ==> s.objects[id].id == id
  }

  /** Objects are filed under their own id, and only filed objects are attributed. */
  ghost predicate Filed(s: Coord) {
    KeyedById(s) && (forall w {:trigger s.Attributed(w)} :: s.Attributed(w) <= s.objects.Keys)
  }

  /** Some registered, not yet disconnected connection vouches for the object. */
  ghost predicate Vouched(s: Coord, id: Id128) {
    exists c :: c in s.conns && s.conns[c].alive && s.conns[c].registered && id in s.Attributed(s.conns[c].id)
  }

  ghost predicate Attribution(s: Coord) {
    forall id {:trigger s.ReadyAt(id)} :: s.ReadyAt(id) ==> Vouched(s, id)
  }

  ghost function Holds(m: map<Word64, Attempt>): map<Word64, Hold> {
    map a | a in m :: m[a].hold
  }

  /** The budget is exactly what the attempts in flight hold, and the counters agree. */
  ghost predicate Accounting(s: Coord) {
    && Accounts(s.budget, Holds(s.inFlight))
    && s.budget.limits == UNLIMITED
    && s.inFlightCount == |s.inFlight|
    && 0 < s.attemptCounter
    && (forall a :: a in s.inFlight ==> a < s.attemptCounter && s.inFlight[a].hold.op != 0)
  }

  /** What holds in every run, whatever the peers send. */
  ghost predicate Base(s: Coord) {
    Filed(s) && Accounting(s)
  }

  ghost predicate Routing(s: Coord) {
    Filed(s) && Entries(s) && Attribution(s)
  }

  ghost predicate Invariant(s: Coord) {
    Routing(s) && Accounting(s)
  }

  // ---- observing and reporting objects ----

  /** Adding peer objects on behalf of `w`: known objects keep their readiness, a new one that is ready is
      attributed to `w`, and only the attribution of `w` grows. */
  ghost predicate Extends(s: Coord, w: Id128, s': Coord) {
    && s' == s.(objects := s'.objects, workerObjects := s'.workerObjects)
    && (forall id {:trigger s'.ReadyAt(id)} {:trigger s.ReadyAt(id)} :: id in s.objects ==> (s'.ReadyAt(id) <==> s.ReadyAt(id)))
    && (forall id {:trigger s'.ReadyAt(id)} :: s'.ReadyAt(id) ==> s.ReadyAt(id) || id in s'.Attributed(w))
    && s.objects.Keys <= s'.objects.Keys
    && (forall id {:trigger s'.objects[id]} :: id in s'.objects ==>
          s'.objects[id].id == (if id in s.objects then s.objects[id].id else id))
    && (forall v {:trigger s'.Attributed(v)} :: v != w ==> s'.Attributed(v) == s.Attributed(v))
    && s.Attributed(w) <= s'.Attributed(w) <= s.Attributed(w) + s'.objects.Keys
  }

  /** Writing an object whose readiness is that of the one it replaces, or any new object. */
  lemma PutExtends(s: Coord, w: Id128, o: WarmthObject)
    requires o.id in s.objects ==> s.objects[o.id].id == o.id && (o.Ready() <==> s.objects[o.id].Ready())
    ensures Extends(s, w, Attribute(s.(objects := s.objects[o.id := o]), w, o.id))
  {
    var s1 := s.(objects := s.objects[o.id := o]);
    var s' := Attribute(s1, w, o.id);
    assert s'.workerObjects == s.workerObjects[w := s.Attributed(w) + {o.id}];
    assert o.id in s'.Attributed(w);
  }

  lemma AttributeExtends(s: Coord, w: Id128, id: Id128)
    requires id in s.objects && forall i :: i in s.objects ==> s.objects[i].id == i
    ensures Extends(s, w, Attribute(s, w, id))
  {
  }

  /** Exactly one state slips past the demotion of peer objects: HOT has no edge to DISCOVERED. */
  lemma ObservedReadyIffHot(o: WarmthObject)
    ensures Observed(o).id == o.id
    ensures Observed(o).Ready() <==> o.state == HOT
  {
  }

  lemma RefreshKeepsReadiness(cur: WarmthObject, o: WarmthObject, now: Timestamp)
    ensures Refresh(cur, o, now).id == cur.id
    ensures Refresh(cur, o, now).Ready() <==> cur.Ready()
  {
  }

  lemma ExtendsTransitive(s: Coord, w: Id128, s1: Coord, s2: Coord)
    requires Extends(s, w, s1) && Extends(s1, w, s2)
    ensures Extends(s, w, s2)
  {
  }

  lemma {:induction false} ObserveAllExtends(s: Coord, w: Id128, os: seq<WarmthObject>)
    requires KeyedById(s)
    ensures Extends(s, w, ObserveAll(s, w, os))
    ensures forall id :: id in s.objects ==> ObserveAll(s, w, os).objects[id] == s.objects[id]
    decreases |os|
  {
    if os != [] {
      var s1 := ObserveAll(s, w, os[..|os| - 1]);
      var o := os[|os| - 1];
      ObserveAllExtends(s, w, os[..|os| - 1]);
      if o.id in s1.objects {
        AttributeExtends(s1, w, o.id);
      } else {
        ObservedReadyIffHot(o);
        PutExtends(s1, w, Observed(o));
      }
      ExtendsTransitive(s, w, s1, Observe(s1, w, o));
    }
  }

  lemma {:induction false} ReportAllExtends(s: Coord, w: Id128, os: seq<WarmthObject>, now: Timestamp)
    requires KeyedById(s)
    ensures Extends(s, w, ReportAll(s, w, os, now))
    decreases |os|
  {
    if os != [] {
      var s1 := ReportAll(s, w, os[..|os| - 1], now);
      var o := os[|os| - 1];
      ReportAllExtends(s, w, os[..|os| - 1], now);
      if o.id in s1.objects {
        RefreshKeepsReadiness(s1.objects[o.id], o, now);
        PutExtends(s1, w, Refresh(s1.objects[o.id], o, now));
      } else {
        ObservedReadyIffHot(o);
        PutExtends(s1, w, Observed(o));
      }
      ExtendsTransitive(s, w, s1, ReportOne(s1, w, o, now));
    }
  }

  // ---- which object of a frame counts ----

  predicate Mentions(os: seq<WarmthObject>, id: Id128) {
    exists j :: 0 <= j < |os| && os[j].id == id
  }

  /** The first object of a frame with an id: the one that is filed if the id is new. */
  function FirstWith(os: seq<WarmthObject>, id: Id128): (o: Option<WarmthObject>)
    ensures o.Some? ==> o.value.id == id
    ensures o.Some? <==> Mentions(os, id)
    decreases |os|
  {
    if os == [] then None
    else
      var n := |os| - 1;
      MentionsInit(os, id);
      if FirstWith(os[..n], id).Some? then FirstWith(os[..n], id) else if os[n].id == id then Some(os[n]) else None
  }

  lemma MentionsInit(os: seq<WarmthObject>, id: Id128)
    requires os != []
    ensures Mentions(os, id) <==> Mentions(os[..|os| - 1], id) || os[|os| - 1].id == id
  {
    var n := |os| - 1;
    if Mentions(os[..n], id) {
      var j :| 0 <= j < n && os[..n][j].id == id;
      assert os[j].id == id;
    }
    if Mentions(os, id) && os[n].id != id {
      var j :| 0 <= j < |os| && os[j].id == id;
      assert os[..n][j].id == id;
    }
  }

  /** A HOT object filed for the first time: the one way readiness enters by a peer's word. */
  predicate ArrivesHot(os: seq<WarmthObject>, id: Id128) {
    FirstWith(os, id).Some? && FirstWith(os, id).value.state == HOT
  }

  /** Every object of the frame is attributed, and an unknown one is ready iff it arrived HOT. */
  lemma {:induction false} ObserveAllExactly(s: Coord, w: Id128, os: seq<WarmthObject>, id: Id128)
    requires KeyedById(s)
    ensures id in ObserveAll(s, w, os).Attributed(w) <==> id in s.Attributed(w) || Mentions(os, id)
    ensures id !in s.objects ==> (id in ObserveAll(s, w, os).objects <==> Mentions(os, id))
    ensures id !in s.objects ==> (ObserveAll(s, w, os).ReadyAt(id) <==> ArrivesHot(os, id))
    decreases |os|
  {
    hide Observed;
    if os != [] {
      var o := os[|os| - 1];
      ObserveAllExactly(s, w, os[..|os| - 1], id);
      MentionsInit(os, id);
      ObservedReadyIffHot(o);
    }
  }

  lemma {:induction false} ReportAllExactly(s: Coord, w: Id128, os: seq<WarmthObject>, now: Timestamp, id: Id128)
    requires KeyedById(s)
    ensures id in ReportAll(s, w, os, now).Attributed(w) <==> id in s.Attributed(w) || Mentions(os, id)
    ensures id !in s.objects ==> (id in ReportAll(s, w, os, now).objects <==> Mentions(os, id))
    ensures id !in s.objects ==> (ReportAll(s, w, os, now).ReadyAt(id) <==> ArrivesHot(os, id))
    decreases |os|
  {
    hide Observed, Refresh;
    if os != [] {
      var s1 := ReportAll(s, w, os[..|os| - 1], now);
      var o := os[|os| - 1];
      ReportAllExactly(s, w, os[..|os| - 1], now, id);
      MentionsInit(os, id);
      ObservedReadyIffHot(o);
      if o.id in s1.objects {
        RefreshKeepsReadiness(s1.objects[o.id], o, now);
      }
    }
  }

  // ---- keeping the three parts of the routing ----

  /** A step that keeps every connection, loses no attribution and makes nothing ready without a live
      connection vouching for it, keeps attribution. */
  lemma AttributionKept(s: Coord, s': Coord)
    requires Attribution(s)
    requires forall c :: c in s.conns ==> c in s'.conns && s'.conns[c] == s.conns[c]
    requires forall v {:trigger s'.Attributed(v)} :: s.Attributed(v) <= s'.Attributed(v)
    requires forall id {:trigger s'.ReadyAt(id)} :: s'.ReadyAt(id) ==> s.ReadyAt(id) || Vouched(s', id)
    ensures Attribution(s')
  {
    forall id | s'.ReadyAt(id) ensures Vouched(s', id) {
      if s.ReadyAt(id) {
        var c :| c in s.conns && s.conns[c].alive && s.conns[c].registered && id in s.Attributed(s.conns[c].id);
        assert id in s'.Attributed(s'.conns[c].id);
      }
    }
  }

  lemma EntriesKept(s: Coord, s': Coord)
    requires Entries(s) && s'.workers == s.workers && s'.lastBoot == s.lastBoot
    requires forall c :: c in s.conns ==> c in s'.conns && s'.conns[c] == s.conns[c]
    ensures Entries(s')
  {
    forall w | w in s'.workers ensures Entry(s', w) {
      assert Entry(s, w);
    }
  }

  lemma FiledKept(s: Coord, s': Coord)
    requires Filed(s) && KeyedById(s') && s.objects.Keys <= s'.objects.Keys
    requires forall v {:trigger s'.Attributed(v)} :: s'.Attributed(v) <= s.Attributed(v) + s'.objects.Keys
    ensures Filed(s')
  {
    forall v ensures s'.Attributed(v) <= s'.objects.Keys {
      assert s.Attributed(v) <= s.objects.Keys;
    }
  }

  lemma SameAccounting(s: Coord, s': Coord)
    requires Accounting(s)
    requires s'.budget == s.budget && s'.inFlight == s.inFlight
    requires s'.inFlightCount == s.inFlightCount && s'.attemptCounter == s.attemptCounter
    ensures Accounting(s')
  {
  }

  lemma ExtendsKeepsFiled(s: Coord, w: Id128, s': Coord)
    requires Filed(s) && Extends(s, w, s')
    ensures Filed(s')
  {
    FiledKept(s, s');
  }

  /** Adding objects on behalf of the worker of a live connection. */
  lemma ExtendsKeepsAttribution(s: Coord, c: ConnId, s': Coord)
    requires c in s.conns && s.conns[c].alive && s.conns[c].registered
    requires Attribution(s) && Extends(s, s.conns[c].id, s')
    ensures Attribution(s')
  {
    forall id | s'.ReadyAt(id) ensures s.ReadyAt(id) || Vouched(s', id) {
      if id in s'.Attributed(s.conns[c].id) {
        assert s'.conns[c].alive && s'.conns[c].registered && id in s'.Attributed(s'.conns[c].id);
      }
    }
    AttributionKept(s, s');
  }

  // ---- registration ----

  /** Revoked objects are not ready, and their device state is cold. */
  lemma RevokeWithdraws(o: WarmthObject, why: Text, reason: Text)
    ensures !Revoke(o, why, reason).Ready()
    ensures Revoke(o, why, reason).DeviceIs(COLD_DIM)
    ensures Revoke(o, why, reason).id == o.id
  {
  }

  lemma LostIsNotReady(o: WarmthObject, now: Timestamp)
    ensures !Lost(o, now).Ready()
    ensures Lost(o, now).id == o.id
    ensures Lost(o, now).DeviceIs(SUSPECT_DIM)
  {
  }

  /** Revoking one worker's objects: none of them stays ready, nobody else's is touched. */
  lemma InvalidateWorkerFacts(s: Coord, w: Id128)
    ensures var s' := InvalidateWorker(s, w);
            && s' == s.(objects := s'.objects, workerObjects := s'.workerObjects)
            && s'.objects.Keys == s.objects.Keys
            && (forall id :: id in s.objects ==> s'.objects[id].id == s.objects[id].id)
            && (forall id :: id in s.objects && id !in s.Attributed(w) ==> s'.objects[id] == s.objects[id])
            && (forall id :: id in s.objects && id in s.Attributed(w) ==>
                  !s'.objects[id].Ready() && s'.objects[id].DeviceIs(COLD_DIM))
            && s'.Attributed(w) == {}
            && (forall v :: v != w ==> s'.Attributed(v) == s.Attributed(v))
  {
    forall o: WarmthObject
      ensures var o' := Revoke(o, BOOT_CHANGED, BOOT_CHANGED); !o'.Ready() && o'.DeviceIs(COLD_DIM) && o'.id == o.id
    {
      RevokeWithdraws(o, BOOT_CHANGED, BOOT_CHANGED);
    }
  }

  /** The registration step before the observed objects are added. */
  ghost predicate Registration(s: Coord, c: ConnId, h: Hello, s1: Coord, s2: Coord) {
    && s1 == s.(objects := s1.objects, workerObjects := s1.workerObjects)
    && s1.objects.Keys == s.objects.Keys
    && (forall id {:trigger s1.objects[id]} :: id in s.objects ==> s1.objects[id].id == s.objects[id].id)
    && (forall id {:trigger s1.ReadyAt(id)} ::
          s1.ReadyAt(id) ==> s.ReadyAt(id) && (id in s.Attributed(h.worker) ==> id in s1.Attributed(h.worker)))
    && (forall v {:trigger s1.Attributed(v)} ::
          s1.Attributed(v) <= s.Attributed(v) && (v != h.worker ==> s1.Attributed(v) == s.Attributed(v)))
    && s2 == s1.(lastBoot := s.lastBoot[h.worker := h.boot], workers := s.workers[h.worker := c],
                 conns := s.conns[c := Conn(s.ConnOf(c).alive, true, h.worker, h.boot)])
  }

  lemma RegisterShape(s: Coord, c: ConnId, h: Hello)
    ensures Registration(s, c, h, Withdrawn(s, h), Register(s, c, h))
  {
    InvalidateWorkerFacts(s, h.worker);
  }

  lemma HelloKeepsFiled(s: Coord, c: ConnId, h: Hello)
    requires Filed(s) && HelloAccepted(s, h)
    ensures Filed(OnHello(s, c, h)) && KeyedById(Register(s, c, h))
    ensures Extends(Register(s, c, h), h.worker, OnHello(s, c, h))
  {
    hide Register, Withdrawn;
    var s1, s2 := Withdrawn(s, h), Register(s, c, h);
    RegisterShape(s, c, h);
    assert s2.objects == s1.objects && KeyedById(s2);
    forall v ensures s2.Attributed(v) <= s.Attributed(v) {
      assert s2.Attributed(v) == s1.Attributed(v);
    }
    FiledKept(s, s2);
    ObserveAllExtends(s2, h.worker, h.observed);
    ExtendsKeepsFiled(s2, h.worker, OnHello(s, c, h));
  }

  /** An accepted HELLO keeps the registry sound exactly when it does not rename the connection the registry
      holds for the worker it was registered under. */
  predicate LeavesEntry(s: Coord, c: ConnId, h: Hello) {
    s.ConnOf(c).registered && s.ConnOf(c).id != h.worker ==>
      !(s.ConnOf(c).id in s.workers && s.workers[s.ConnOf(c).id] == c)
  }

  lemma HelloEntries(s: Coord, c: ConnId, h: Hello, s': Coord)
    requires Entries(s) && c in s.conns && s.conns[c].alive
    requires s'.lastBoot == s.lastBoot[h.worker := h.boot] && s'.workers == s.workers[h.worker := c]
    requires s'.conns == s.conns[c := Conn(true, true, h.worker, h.boot)]
    ensures Entries(s') <==> LeavesEntry(s, c, h)
  {
    if LeavesEntry(s, c, h) {
      forall w | w in s'.workers ensures Entry(s', w) {
        if w != h.worker {
          assert Entry(s, w);
        }
      }
    } else {
      assert !Entry(s', s.conns[c].id);
    }
  }

  /** Every object still ready after the withdrawal is vouched for without the connection's old name: it is
      attributed to the worker now registered, listed in the HELLO, or attributed to the worker of another
      live connection. */
  ghost predicate LeavesVouched(s: Coord, c: ConnId, h: Hello) {
    var s1 := Withdrawn(s, h);
    forall id {:trigger s1.ReadyAt(id)} :: s1.ReadyAt(id) ==>
      id in s1.Attributed(h.worker) || Mentions(h.observed, id) || VouchedWithout(s1, c, id)
  }

  ghost predicate VouchedWithout(s: Coord, c: ConnId, id: Id128) {
    exists d :: d != c && d in s.conns && s.conns[d].alive && s.conns[d].registered && id in s.Attributed(s.conns[d].id)
  }

  /** An accepted HELLO keeps attribution exactly under that condition. */
  lemma HelloAttribution(s: Coord, c: ConnId, h: Hello)
    requires Filed(s) && HelloAccepted(s, h) && c in s.conns && s.conns[c].alive
    ensures Attribution(OnHello(s, c, h)) <==> LeavesVouched(s, c, h)
  {
    hide Register, Withdrawn, ObserveAll;
    var s1, s2, s' := Withdrawn(s, h), Register(s, c, h), OnHello(s, c, h);
    RegisterShape(s, c, h);
    HelloKeepsFiled(s, c, h);
    forall id ensures id in s'.Attributed(h.worker) <==> id in s1.Attributed(h.worker) || Mentions(h.observed, id) {
      ObserveAllExactly(s2, h.worker, h.observed, id);
    }
    HelloVouches(s, c, h, s1, s2, s');
  }

  lemma HelloVouches(s: Coord, c: ConnId, h: Hello, s1: Coord, s2: Coord, s': Coord)
    requires c in s.conns && s.conns[c].alive && Filed(s)
    requires s1 == Withdrawn(s, h) && Registration(s, c, h, s1, s2) && Extends(s2, h.worker, s')
    requires forall id {:trigger Mentions(h.observed, id)} ::
               id in s'.Attributed(h.worker) <==> id in s1.Attributed(h.worker) || Mentions(h.observed, id)
    ensures Attribution(s') <==> LeavesVouched(s, c, h)
  {
    hide Withdrawn, Mentions;
    if LeavesVouched(s, c, h) {
      forall id | s'.ReadyAt(id) ensures Vouched(s', id) {
        SafeIsVouched(s, c, h, s1, s2, s', id);
      }
    }
    if Attribution(s') {
      forall id | s1.ReadyAt(id)
        ensures id in s1.Attributed(h.worker) || Mentions(h.observed, id) || VouchedWithout(s1, c, id)
      {
        VouchedIsSafe(s, c, h, s1, s2, s', id);
      }
    }
  }

  lemma SafeIsVouched(s: Coord, c: ConnId, h: Hello, s1: Coord, s2: Coord, s': Coord, id: Id128)
    requires c in s.conns && s.conns[c].alive
    requires Registration(s, c, h, s1, s2) && Extends(s2, h.worker, s') && s'.ReadyAt(id)
    requires id in s'.Attributed(h.worker) <==> id in s1.Attributed(h.worker) || Mentions(h.observed, id)
    requires s1.ReadyAt(id) ==>
               id in s1.Attributed(h.worker) || Mentions(h.observed, id) || VouchedWithout(s1, c, id)
    ensures Vouched(s', id)
  {
    hide Mentions;
    assert s2.ReadyAt(id) == s1.ReadyAt(id);
    if id in s'.Attributed(h.worker) {
      assert s'.conns[c].alive && s'.conns[c].registered && s'.conns[c].id == h.worker;
    } else {
      StillVouched(s, c, h, s1, s2, s', id);
    }
  }

  lemma StillVouched(s: Coord, c: ConnId, h: Hello, s1: Coord, s2: Coord, s': Coord, id: Id128)
    requires Registration(s, c, h, s1, s2) && Extends(s2, h.worker, s') && VouchedWithout(s1, c, id)
    ensures Vouched(s', id)
  {
    var d :| d != c && d in s1.conns && s1.conns[d].alive && s1.conns[d].registered && id in s1.Attributed(s1.conns[d].id);
    var v := s1.conns[d].id;
    assert s2.Attributed(v) == s1.Attributed(v) && s2.Attributed(v) <= s'.Attributed(v);
    assert s'.conns[d] == s1.conns[d] && id in s'.Attributed(s'.conns[d].id);
  }

  lemma VouchedIsSafe(s: Coord, c: ConnId, h: Hello, s1: Coord, s2: Coord, s': Coord, id: Id128)
    requires Registration(s, c, h, s1, s2) && Extends(s2, h.worker, s') && s1.ReadyAt(id) && Attribution(s')
    requires id in s'.Attributed(h.worker) <==> id in s1.Attributed(h.worker) || Mentions(h.observed, id)
    ensures id in s1.Attributed(h.worker) || Mentions(h.observed, id) || VouchedWithout(s1, c, id)
  {
    hide Mentions;
    assert s2.ReadyAt(id) && id in s2.objects;
    assert s'.ReadyAt(id);
    var d :| d in s'.conns && s'.conns[d].alive && s'.conns[d].registered && id in s'.Attributed(s'.conns[d].id);
    if s'.conns[d].id != h.worker {
      assert d != c && s1.conns[d] == s'.conns[d];
      assert s2.Attributed(s'.conns[d].id) == s1.Attributed(s'.conns[d].id);
    }
  }

  /** A HELLO that keeps the connection's worker id is always safe in both respects. */
  lemma SameNameIsSafe(s: Coord, c: ConnId, h: Hello)
    requires Filed(s) && Attribution(s) && c in s.conns && HelloAccepted(s, h) && !Renames(s, HelloMsg(c, h))
    ensures LeavesEntry(s, c, h) && LeavesVouched(s, c, h)
  {
    hide Withdrawn, Mentions;
    var s1 := Withdrawn(s, h);
    RegisterShape(s, c, h);
    hide Register;
    forall id | s1.ReadyAt(id)
      ensures id in s1.Attributed(h.worker) || Mentions(h.observed, id) || VouchedWithout(s1, c, id)
    {
      assert s.ReadyAt(id);
      var d :| d in s.conns && s.conns[d].alive && s.conns[d].registered && id in s.Attributed(s.conns[d].id);
      if s.conns[d].id != h.worker {
        assert d != c && id in s1.Attributed(s1.conns[d].id);
      }
    }
  }

  lemma HelloKeepsInvariant(s: Coord, c: ConnId, h: Hello)
    requires Invariant(s) && Enabled(s, HelloMsg(c, h)) && !Renames(s, HelloMsg(c, h))
    ensures Invariant(OnHello(s, c, h))
  {
    hide Register, Withdrawn;
    if HelloAccepted(s, h) {
      SameNameIsSafe(s, c, h);
      HelloKeepsFiled(s, c, h);
      RegisterShape(s, c, h);
      HelloEntriesExactly(s, c, h);
      HelloAttribution(s, c, h);
      SameAccounting(s, OnHello(s, c, h));
    }
  }

  lemma ReportKeepsInvariant(s: Coord, c: ConnId, p: Report, now: Timestamp)
    requires Invariant(s) && Enabled(s, ReportMsg(c, p, now))
    ensures Invariant(OnReport(s, c, p, now))
  {
    if Authorised(s, c, p.boot, p.tag) {
      var s' := OnReport(s, c, p, now);
      ReportAllExtends(s, s.ConnOf(c).id, p.objects, now);
      ExtendsKeepsFiled(s, s.ConnOf(c).id, s');
      ExtendsKeepsAttribution(s, c, s');
      EntriesKept(s, s');
      SameAccounting(s, s');
    }
  }

  // ---- settling attempts ----

  lemma SettleKeepsAccounting(s: Coord, a: Word64)
    requires Accounting(s) && a in s.inFlight
    ensures Accounting(Settle(s, a))
    ensures Settle(s, a).budget.reservations == s.budget.reservations - HoldIds(s.inFlight[a].hold)
    ensures Settle(s, a).budget.nextId == s.budget.nextId
  {
    var holds := Holds(s.inFlight);
    ReleaseAccounts(s.budget, holds, a);
    assert Holds(s.inFlight - {a}) == holds - {a};
    RemoveShrinks(s.inFlight, a);
  }

  lemma SettleKeepsInvariant(s: Coord, a: Word64)
    requires Invariant(s) && a in s.inFlight
    ensures Invariant(Settle(s, a))
  {
    SettleKeepsAccounting(s, a);
    BudgetOnlyKeepsRouting(s, Settle(s, a));
  }

  lemma BudgetOnlyKeepsRouting(s: Coord, s': Coord)
    requires Routing(s)
    requires s' == s.(budget := s'.budget, inFlight := s'.inFlight, inFlightCount := s'.inFlightCount,
                      attemptCounter := s'.attemptCounter)
    ensures Routing(s')
  {
    SameRegistry(s, s');
  }

  lemma SameRegistry(s: Coord, s': Coord)
    requires s'.workers == s.workers && s'.lastBoot == s.lastBoot && s'.objects == s.objects
    requires s'.workerObjects == s.workerObjects
    requires forall c :: c in s.conns ==> c in s'.conns && s'.conns[c] == s.conns[c]
    ensures Filed(s) ==> Filed(s')
    ensures Entries(s) ==> Entries(s')
    ensures Attribution(s) ==> Attribution(s')
  {
    forall v ensures s'.Attributed(v) == s.Attributed(v) {
    }
    forall id ensures s'.ReadyAt(id) == s.ReadyAt(id) {
    }
    if Entries(s) {
      EntriesKept(s, s');
    }
    if Attribution(s) {
      AttributionKept(s, s');
    }
  }

  /** A completed warming always ends WARM or HOT, from whatever state the object was left in. */
  lemma WarmedIsReady(s: Coord, r: WarmResult, now: Timestamp)
    ensures Warmed(s, r, now).Ready()
    ensures r.obj in s.objects ==> Warmed(s, r, now).id == s.objects[r.obj].id
    ensures r.obj !in s.objects ==> Warmed(s, r, now).id == r.obj
  {
    ReachWarmIsReady(BeforeWarm(s, r.obj), COMPLETED);
  }

  /** Writing one object, and attributing it to a live worker if it becomes ready. */
  lemma WriteFiles(s: Coord, o: WarmthObject, s': Coord)
    requires Filed(s) && s' == s.(objects := s.objects[o.id := o], workerObjects := s'.workerObjects)
    requires forall v {:trigger s'.Attributed(v)} :: s.Attributed(v) <= s'.Attributed(v) <= s.Attributed(v) + {o.id}
    ensures Filed(s')
  {
    FiledKept(s, s');
  }

  lemma WriteVouches(s: Coord, c: ConnId, o: WarmthObject, s': Coord)
    requires Attribution(s) && c in s.conns && s.conns[c].alive && s.conns[c].registered
    requires s' == s.(objects := s.objects[o.id := o], workerObjects := s'.workerObjects)
    requires forall v {:trigger s'.Attributed(v)} :: s.Attributed(v) <= s'.Attributed(v) <= s.Attributed(v) + {o.id}
    requires o.Ready() ==> o.id in s'.Attributed(s.conns[c].id)
    ensures Attribution(s')
  {
    if o.Ready() {
      assert Vouched(s', o.id);
    }
    forall id | s'.ReadyAt(id) ensures s.ReadyAt(id) || Vouched(s', id) {
      if id != o.id {
        assert s.ReadyAt(id);
      }
    }
    AttributionKept(s, s');
  }

  lemma ApplyResultKeepsFiled(s: Coord, w: Id128, r: WarmResult, now: Timestamp)
    requires Filed(s)
    ensures Filed(ApplyResult(s, w, r, now))
  {
    var s' := ApplyResult(s, w, r, now);
    if r.success {
      WarmedIsReady(s, r, now);
      WriteFiles(s, Warmed(s, r, now), s');
    } else if r.obj in s.objects {
      FailedIsNotReady(s.objects[r.obj], r.error);
      WriteFiles(s, s.objects[r.obj].Transition(FAILED, r.error), s');
    }
  }

  lemma ApplyResultKeepsAttribution(s: Coord, c: ConnId, r: WarmResult, now: Timestamp)
    requires Filed(s) && Attribution(s) && c in s.conns && s.conns[c].alive && s.conns[c].registered
    ensures Attribution(ApplyResult(s, s.conns[c].id, r, now))
  {
    var s' := ApplyResult(s, s.conns[c].id, r, now);
    if r.success {
      WarmedIsReady(s, r, now);
      WriteVouches(s, c, Warmed(s, r, now), s');
    } else if r.obj in s.objects {
      FailedIsNotReady(s.objects[r.obj], r.error);
      WriteVouches(s, c, s.objects[r.obj].Transition(FAILED, r.error), s');
    }
  }

  /** Every state but EVICTED has an edge to FAILED, so a failed warming never leaves an object ready. */
  lemma FailedIsNotReady(o: WarmthObject, why: Text)
    ensures !o.Transition(FAILED, why).Ready()
    ensures o.Transition(FAILED, why).id == o.id
  {
  }

  lemma ResultKeepsInvariant(s: Coord, c: ConnId, r: WarmResult, now: Timestamp)
    requires Invariant(s) && Enabled(s, ResultMsg(c, r, now))
    ensures Invariant(OnResult(s, c, r, now))
  {
    if Settles(s, c, r) {
      var s1 := ApplyResult(s, s.ConnOf(c).id, r, now);
      ApplyResultKeepsFiled(s, s.ConnOf(c).id, r, now);
      ApplyResultKeepsAttribution(s, c, r, now);
      EntriesKept(s, s1);
      SameAccounting(s, s1);
      SettleKeepsInvariant(s1, r.attempt);
    }
  }

  // ---- disconnect ----

  lemma DisconnectFacts(s: Coord, c: ConnId, now: Timestamp)
    requires c in s.conns && KeyedById(s)
    ensures var s' := OnDisconnect(s, c, now);
            && s'.objects.Keys == s.objects.Keys && KeyedById(s')
            && (forall id {:trigger s'.ReadyAt(id)} ::
                  s'.ReadyAt(id) ==> s.ReadyAt(id) && (s.conns[c].registered ==> id !in s.Attributed(s.conns[c].id)))
  {
    forall o: WarmthObject ensures Lost(o, now).id == o.id && !Lost(o, now).Ready() {
      LostIsNotReady(o, now);
    }
  }

  lemma DisconnectShape(s: Coord, c: ConnId, now: Timestamp)
    requires c in s.conns
    ensures var s' := OnDisconnect(s, c, now);
            && s' == s.(conns := s.conns[c := s.conns[c].(alive := false)], workers := s'.workers, objects := s'.objects)
            && s'.workers == if s.conns[c].registered && s.conns[c].id in s.workers && s.workers[s.conns[c].id] == c
                             then s.workers - {s.conns[c].id} else s.workers
  {
  }

  /** Losing a connection: whatever its worker vouched for is no longer ready, so the objects still ready
      are vouched for by the connection of another worker. */
  lemma DisconnectKeepsInvariant(s: Coord, c: ConnId, now: Timestamp)
    requires Invariant(s) && c in s.conns
    ensures Invariant(OnDisconnect(s, c, now))
  {
    DisconnectFacts(s, c, now);
    DisconnectShape(s, c, now);
    DisconnectInvariant(s, c, OnDisconnect(s, c, now));
  }

  lemma DisconnectInvariant(s: Coord, c: ConnId, s': Coord)
    requires Invariant(s) && c in s.conns
    requires s' == s.(conns := s.conns[c := s.conns[c].(alive := false)], workers := s'.workers, objects := s'.objects)
    requires s'.workers == if s.conns[c].registered && s.conns[c].id in s.workers && s.workers[s.conns[c].id] == c
                           then s.workers - {s.conns[c].id} else s.workers
    requires s'.objects.Keys == s.objects.Keys && KeyedById(s')
    requires forall id {:trigger s'.ReadyAt(id)} ::
               s'.ReadyAt(id) ==> s.ReadyAt(id) && (s.conns[c].registered ==> id !in s.Attributed(s.conns[c].id))
    ensures Invariant(s')
  {
    DisconnectEntries(s, c, s');
    FiledKept(s, s');
    DisconnectAttribution(s, c, s');
    SameAccounting(s, s');
  }

  lemma DisconnectAttribution(s: Coord, c: ConnId, s': Coord)
    requires Attribution(s) && c in s.conns
    requires s'.conns == s.conns[c := s.conns[c].(alive := false)] && s'.workerObjects == s.workerObjects
    requires forall id {:trigger s'.ReadyAt(id)} ::
               s'.ReadyAt(id) ==> s.ReadyAt(id) && (s.conns[c].registered ==> id !in s.Attributed(s.conns[c].id))
    ensures Attribution(s')
  {
    forall id | s'.ReadyAt(id) ensures Vouched(s', id) {
      assert s.ReadyAt(id);
      var d :| d in s.conns && s.conns[d].alive && s.conns[d].registered && id in s.Attributed(s.conns[d].id);
      assert id in s'.Attributed(s'.conns[d].id);
    }
  }

  lemma DisconnectEntries(s: Coord, c: ConnId, s': Coord)
    requires Entries(s) && c in s.conns
    requires s'.conns == s.conns[c := s.conns[c].(alive := false)] && s'.lastBoot == s.lastBoot
    requires s'.workers == if s.conns[c].registered && s.conns[c].id in s.workers && s.workers[s.conns[c].id] == c
                           then s.workers - {s.conns[c].id} else s.workers
    ensures Entries(s')
  {
    forall v | v in s'.workers ensures Entry(s', v) {
      assert Entry(s, v);
    }
  }

  // ---- issuing ----

  lemma NewAttemptKeepsAccounting(s: Coord, t: Attempt, budget: Ledger, s': Coord)
    requires Accounting(s) && |s.inFlight| < U64_LIMIT - 1 && s.attemptCounter < U64_LIMIT - 1
    requires t.hold.op != 0 && Accounts(budget, Holds(s.inFlight)[s.attemptCounter := t.hold])
    requires budget.limits == UNLIMITED
    requires s'.inFlight == s.inFlight[s.attemptCounter := t] && s'.budget == budget
    requires s'.inFlightCount == s.inFlightCount + 1 && s'.attemptCounter == s.attemptCounter + 1
    ensures Accounting(s')
  {
    assert s.attemptCounter !in s.inFlight;
    hide Accounts;
    assert Holds(s'.inFlight) == Holds(s.inFlight)[s.attemptCounter := t.hold];
    assert |s'.inFlight| == |s.inFlight| + 1;
  }

  lemma AdmitKeepsAccounting(s: Coord, t: Attempt, budget: Ledger, s': Coord)
    requires Accounting(s) && CountersBelowLimit(s)
    requires Acquire(s.budget) == Some((t.hold, budget))
    requires s'.inFlight == s.inFlight[s.attemptCounter := t] && s'.budget == budget
    requires s'.inFlightCount == Bump(s.inFlightCount) && s'.attemptCounter == Bump(s.attemptCounter)
    ensures Accounting(s')
  {
    hide Acquire, Accounts;
    CountBelowLimit(s);
    assert Bump(s.inFlightCount) == s.inFlightCount + 1 && Bump(s.attemptCounter) == s.attemptCounter + 1;
    AdmitAccounts(s, t.hold, budget);
    NewAttemptKeepsAccounting(s, t, budget, s');
  }

  lemma AdmitAccounts(s: Coord, hold: Hold, budget: Ledger)
    requires Accounting(s) && CountersBelowLimit(s) && Acquire(s.budget) == Some((hold, budget))
    ensures Accounts(budget, Holds(s.inFlight)[s.attemptCounter := hold])
    ensures hold.op != 0 && budget.limits == UNLIMITED
  {
    assert s.attemptCounter !in s.inFlight;
    UnlimitedAlwaysAdmits(s.budget);
    AcquireAccounts(s.budget, Holds(s.inFlight), s.attemptCounter);
  }

  /** The first section of `issue_warm` touches only the budget and the attempt table. */
  lemma IssueShape(s: Coord, obj: Id128, preferred: Option<Id128>)
    requires Issues(s, preferred)
    ensures var s' := OnIssue(s, obj, preferred); var a := s.attemptCounter;
            && s' == s.(budget := s'.budget, inFlight := s'.inFlight, inFlightCount := Bump(s.inFlightCount),
                        attemptCounter := Bump(a))
            && a in s'.inFlight && s'.inFlight == s.inFlight[a := s'.inFlight[a]]
            && s'.inFlight[a].obj == obj
            && Acquire(s.budget) == Some((s'.inFlight[a].hold, s'.budget))
  {
  }

  lemma CountBelowLimit(s: Coord)
    requires Accounting(s) && CountersBelowLimit(s)
    ensures |s.inFlight| < U64_LIMIT - 1
  {
    assert Holds(s.inFlight).Keys == s.inFlight.Keys;
    assert |Holds(s.inFlight)| == |s.inFlight|;
    assert 0x4000_0000 * |s.inFlight| < U64_LIMIT;
  }

  /** Without limits both reservations of a command always succeed. */
  lemma UnlimitedAlwaysAdmits(l: Ledger)
    requires l.limits == UNLIMITED && 0 < l.nextId && Headroom(l)
    ensures Acquire(l).Some? && Acquire(l).value.0.op != 0
    ensures Acquire(l).value.1.limits == UNLIMITED
  {
  }

  lemma IssueKeepsInvariant(s: Coord, obj: Id128, preferred: Option<Id128>)
    requires Invariant(s) && CountersBelowLimit(s)
    ensures Invariant(OnIssue(s, obj, preferred))
  {
    if Issues(s, preferred) {
      var s' := OnIssue(s, obj, preferred);
      IssueShape(s, obj, preferred);
      BudgetOnlyKeepsRouting(s, s');
      AdmitKeepsAccounting(s, s'.inFlight[s.attemptCounter], s'.budget, s');
    }
  }

  // ---- rolling the epoch ----

  /** Rolling releases every hold exactly once: each release finds its reservation, none is left. */
  lemma {:induction false} ReleaseAllAccounts(l: Ledger, m: map<Word64, Attempt>)
    requires Accounts(l, Holds(m))
    ensures Accounts(ReleaseAll(l, m), map[])
    ensures ReleaseAll(l, m).limits == l.limits && ReleaseAll(l, m).nextId == l.nextId
    ensures ReleaseAll(l, m).Balanced()
    decreases |m|
  {
    if m == map[] {
      assert Holds(m) == map[];
    } else {
      var a := Least(m.Keys);
      RemoveShrinks(m, a);
      ReleaseAccounts(l, Holds(m), a);
      assert Holds(m - {a}) == Holds(m) - {a};
      ReleaseAllAccounts(ReleaseHold(l, m[a].hold), m - {a});
    }
    BalancedIffNoHolds(ReleaseAll(l, m), map[]);
  }

  lemma RollRevokes(s: Coord)
    ensures var s' := OnRoll(s);
            && s'.objects.Keys == s.objects.Keys
            && (forall id :: id in s.objects ==>
                  s'.objects[id].id == s.objects[id].id && !s'.objects[id].Ready() && s'.objects[id].DeviceIs(COLD_DIM))
  {
    forall id | id in s.objects
      ensures var o := Revoke(s.objects[id], Ascii("authority roll"), ROLLED);
              !o.Ready() && o.DeviceIs(COLD_DIM) && o.id == s.objects[id].id
    {
      RevokeWithdraws(s.objects[id], Ascii("authority roll"), ROLLED);
    }
  }

  lemma RollKeepsInvariant(s: Coord)
    requires Invariant(s)
    ensures Invariant(OnRoll(s))
  {
    var s' := OnRoll(s);
    RollKeepsBase(s);
    EntriesKept(s, s');
    RollRevokes(s);
    assert Attribution(s');
  }

  lemma RollKeepsBase(s: Coord)
    requires Base(s)
    ensures Base(OnRoll(s))
  {
    RollRevokes(s);
    FiledKept(s, OnRoll(s));
    RollKeepsAccounting(s);
  }

  lemma RollKeepsAccounting(s: Coord)
    requires Accounting(s)
    ensures Accounting(OnRoll(s))
  {
    hide RevokeEach, Accounts;
    ReleaseAllAccounts(s.budget, s.inFlight);
    assert Holds(OnRoll(s).inFlight) == map[];
  }

  /** Right after a roll: nothing is ready, nothing is in flight, nothing is reserved. */
  lemma RollClearsEverything(s: Coord)
    requires Accounting(s)
    ensures var s' := OnRoll(s);
            && (forall id :: !s'.ReadyAt(id))
            && (forall id :: id in s'.objects ==> s'.objects[id].DeviceIs(COLD_DIM))
            && s'.inFlight == map[] && s'.inFlightCount == 0
            && s'.budget.Balanced() && s'.budget.Usage(DEVICE_MEMORY) == 0
  {
    RollRevokes(s);
    ReleaseAllAccounts(s.budget, s.inFlight);
  }

  // ---- runs ----

  lemma HelloKeepsBase(s: Coord, c: ConnId, h: Hello)
    requires Base(s)
    ensures Base(OnHello(s, c, h))
  {
    hide Register, Withdrawn;
    if HelloAccepted(s, h) {
      HelloKeepsFiled(s, c, h);
      RegisterShape(s, c, h);
      SameAccounting(s, OnHello(s, c, h));
    }
  }

  lemma ReportKeepsBase(s: Coord, c: ConnId, p: Report, now: Timestamp)
    requires Base(s)
    ensures Base(OnReport(s, c, p, now))
  {
    if Authorised(s, c, p.boot, p.tag) {
      ReportAllExtends(s, s.ConnOf(c).id, p.objects, now);
      ExtendsKeepsFiled(s, s.ConnOf(c).id, OnReport(s, c, p, now));
      SameAccounting(s, OnReport(s, c, p, now));
    }
  }

  lemma SettleKeepsBase(s: Coord, a: Word64)
    requires Base(s) && a in s.inFlight
    ensures Base(Settle(s, a))
  {
    SettleKeepsAccounting(s, a);
    SameRegistry(s, Settle(s, a));
  }

  lemma ResultKeepsBase(s: Coord, c: ConnId, r: WarmResult, now: Timestamp)
    requires Base(s)
    ensures Base(OnResult(s, c, r, now))
  {
    if Settles(s, c, r) {
      var s1 := ApplyResult(s, s.ConnOf(c).id, r, now);
      ApplyResultKeepsFiled(s, s.ConnOf(c).id, r, now);
      SameAccounting(s, s1);
      SettleKeepsBase(s1, r.attempt);
    }
  }

  lemma DisconnectKeepsBase(s: Coord, c: ConnId, now: Timestamp)
    requires Base(s) && c in s.conns
    ensures Base(OnDisconnect(s, c, now))
  {
    DisconnectFacts(s, c, now);
    DisconnectShape(s, c, now);
    FiledKept(s, OnDisconnect(s, c, now));
    SameAccounting(s, OnDisconnect(s, c, now));
  }

  lemma IssueKeepsBase(s: Coord, obj: Id128, preferred: Option<Id128>)
    requires Base(s) && CountersBelowLimit(s)
    ensures Base(OnIssue(s, obj, preferred))
  {
    if Issues(s, preferred) {
      var s' := OnIssue(s, obj, preferred);
      IssueShape(s, obj, preferred);
      SameRegistry(s, s');
      AdmitKeepsAccounting(s, s'.inFlight[s.attemptCounter], s'.budget, s');
    }
  }

  /** Whatever the peers send, objects stay filed and the books stay exact. */
  lemma StepKeepsBase(s: Coord, e: Event)
    requires Base(s) && Enabled(s, e)
    ensures Base(Step(s, e))
  {
    match e
    case Accept(c) => SameRegistry(s, Step(s, e)); SameAccounting(s, Step(s, e));
    case HelloMsg(c, h) => HelloKeepsBase(s, c, h);
    case ReportMsg(c, p, now) => ReportKeepsBase(s, c, p, now);
    case ResultMsg(c, r, now) => ResultKeepsBase(s, c, r, now);
    case Disconnect(c, now) => DisconnectKeepsBase(s, c, now);
    case Issue(obj, preferred) => IssueKeepsBase(s, obj, preferred);
    case SendFailed(a) => if a in s.inFlight { SettleKeepsBase(s, a); }
    case BumpDependency => SameRegistry(s, Step(s, e)); SameAccounting(s, Step(s, e));
    case BumpWarmth => SameRegistry(s, Step(s, e)); SameAccounting(s, Step(s, e));
    case Roll => RollKeepsBase(s);
  }

  lemma {:induction false} RunKeepsBase(states: seq<Coord>, events: seq<Event>, n: nat)
    requires Run(states, events) && n < |states|
    ensures Base(states[n])
  {
    hide Step;
    if n == 0 {
      StartInvariant();
    } else {
      RunKeepsBase(states, events, n - 1);
      StepKeepsBase(states[n - 1], events[n - 1]);
    }
  }

  lemma StepKeepsInvariant(s: Coord, e: Event)
    requires Invariant(s) && Enabled(s, e) && !Renames(s, e)
    ensures Invariant(Step(s, e))
  {
    match e
    case Accept(c) => SameRegistry(s, Step(s, e)); SameAccounting(s, Step(s, e));
    case HelloMsg(c, h) => HelloKeepsInvariant(s, c, h);
    case ReportMsg(c, p, now) => ReportKeepsInvariant(s, c, p, now);
    case ResultMsg(c, r, now) => ResultKeepsInvariant(s, c, r, now);
    case Disconnect(c, now) => DisconnectKeepsInvariant(s, c, now);
    case Issue(obj, preferred) => IssueKeepsInvariant(s, obj, preferred);
    case SendFailed(a) => if a in s.inFlight { SettleKeepsInvariant(s, a); }
    case BumpDependency => SameRegistry(s, Step(s, e)); SameAccounting(s, Step(s, e));
    case BumpWarmth => SameRegistry(s, Step(s, e)); SameAccounting(s, Step(s, e));
    case Roll => RollKeepsInvariant(s);
  }

  lemma HelloEntriesExactly(s: Coord, c: ConnId, h: Hello)
    requires Entries(s) && Filed(s) && HelloAccepted(s, h) && c in s.conns && s.conns[c].alive
    ensures Entries(OnHello(s, c, h)) <==> LeavesEntry(s, c, h)
  {
    hide Register, Withdrawn;
    HelloKeepsFiled(s, c, h);
    RegisterShape(s, c, h);
    HelloEntries(s, c, h, OnHello(s, c, h));
  }

  lemma ReportKeepsEntries(s: Coord, c: ConnId, p: Report, now: Timestamp)
    requires Entries(s) && KeyedById(s)
    ensures Entries(OnReport(s, c, p, now))
  {
    if Authorised(s, c, p.boot, p.tag) {
      ReportAllExtends(s, s.ConnOf(c).id, p.objects, now);
    }
    EntriesKept(s, OnReport(s, c, p, now));
  }

  ghost predicate SparesEntry(s: Coord, e: Event) {
    e.HelloMsg? && HelloAccepted(s, e.hello) ==> LeavesEntry(s, e.conn, e.hello)
  }

  ghost predicate SparesVouched(s: Coord, e: Event) {
    e.HelloMsg? && HelloAccepted(s, e.hello) ==> LeavesVouched(s, e.conn, e.hello)
  }

  /** The registry part of one step, exactly. */
  lemma StepEntries(s: Coord, e: Event)
    requires Entries(s) && Filed(s) && Enabled(s, e)
    ensures Entries(Step(s, e)) <==> SparesEntry(s, e)
  {
    hide LeavesEntry, Register, ObserveAll, ReportAll, RevokeEach, ReleaseAll, LoseEach, Acquire, ReleaseHold;
    var s' := Step(s, e);
    match e
    case HelloMsg(c, h) => if HelloAccepted(s, h) { HelloEntriesExactly(s, c, h); }
    case ReportMsg(c, p, now) => ReportKeepsEntries(s, c, p, now);
    case Disconnect(c, now) =>
      DisconnectShape(s, c, now);
      DisconnectEntries(s, c, s');
    case _ => EntriesKept(s, s');
  }

  lemma ReportKeepsAttribution(s: Coord, c: ConnId, p: Report, now: Timestamp)
    requires Attribution(s) && KeyedById(s) && c in s.conns && s.conns[c].alive
    ensures Attribution(OnReport(s, c, p, now))
  {
    if Authorised(s, c, p.boot, p.tag) {
      ReportAllExtends(s, s.ConnOf(c).id, p.objects, now);
      ExtendsKeepsAttribution(s, c, OnReport(s, c, p, now));
    }
  }

  lemma ResultKeepsAttribution(s: Coord, c: ConnId, r: WarmResult, now: Timestamp)
    requires Attribution(s) && Filed(s) && c in s.conns && s.conns[c].alive
    ensures Attribution(OnResult(s, c, r, now))
  {
    if Settles(s, c, r) {
      ApplyResultKeepsAttribution(s, c, r, now);
      SameRegistry(ApplyResult(s, s.ConnOf(c).id, r, now), OnResult(s, c, r, now));
    }
  }

  /** The attribution part of one step, exactly. */
  lemma StepAttribution(s: Coord, e: Event)
    requires Attribution(s) && Filed(s) && Enabled(s, e)
    ensures Attribution(Step(s, e)) <==> SparesVouched(s, e)
  {
    hide LeavesVouched;
    var s' := Step(s, e);
    match e
    case HelloMsg(c, h) => if HelloAccepted(s, h) { HelloAttribution(s, c, h); }
    case ReportMsg(c, p, now) => ReportKeepsAttribution(s, c, p, now);
    case ResultMsg(c, r, now) => ResultKeepsAttribution(s, c, r, now);
    case Disconnect(c, now) =>
      DisconnectFacts(s, c, now);
      DisconnectShape(s, c, now);
      DisconnectAttribution(s, c, s');
    case Issue(obj, preferred) =>
      if Issues(s, preferred) {
        IssueShape(s, obj, preferred);
      }
      SameRegistry(s, s');
    case Roll => RollRevokes(s);
    case _ => SameRegistry(s, s');
  }

  lemma StartInvariant()
    ensures Invariant(Start())
  {
    assert Holds(Start().inFlight) == map[];
  }

  lemma {:induction false} RunKeepsInvariant(states: seq<Coord>, events: seq<Event>, n: nat)
    requires Run(states, events) && OneWorkerPerConnection(states, events) && n < |states|
    ensures Invariant(states[n])
  {
    hide Step;
    if n == 0 {
      StartInvariant();
    } else {
      RunKeepsInvariant(states, events, n - 1);
      StepKeepsInvariant(states[n - 1], events[n - 1]);
    }
  }
}
