/** The coordinator's authority protocol: its state as a value and one step per critical section. */
module CoordinatorModel {
  import opened Basics
  import opened WarmthStates
  import opened WarmthObjects
  import opened Policies
  import opened Decay
  import opened Budgets
  import opened MessageTypes

  /** A connection handle; `alive` until its reader thread has run the disconnect handler. */
  type ConnId = nat

  datatype Conn = Conn(alive: bool, registered: bool, id: Id128, boot: Id128)

  datatype Attempt = Attempt(obj: Id128, worker: Id128, hold: Hold)

  datatype Coord = Coord(
    epoch: Word64,
    warmthGen: Word64,
    depGen: Word64,
    objects: map<Id128, WarmthObject>,
    conns: map<ConnId, Conn>,
    workers: map<Id128, ConnId>,
    lastBoot: map<Id128, Id128>,
    workerObjects: map<Id128, set<Id128>>,
    budget: Ledger,
    inFlight: map<Word64, Attempt>,
    inFlightCount: Word64,
    attemptCounter: Word64)
  {
    function ConnOf(c: ConnId): Conn {
      if c in conns then conns[c] else Conn(false, false, 0, 0)
    }

    function Attributed(w: Id128): set<Id128> {
      if w in workerObjects then workerObjects[w] else {}
    }

    predicate ReadyAt(id: Id128) {
      id in objects && objects[id].Ready()
    }

    predicate Current(t: Tag) {
      t == Tag(epoch, warmthGen, depGen)
    }
  }

  /** A coordinator just constructed: every counter at its initial value, budgets unlimited. */
  function Start(): Coord {
    Coord(0, 0, 0, map[], map[], map[], map[], map[], EmptyLedger(UNLIMITED), map[], 0, 1)
  }

  // ---- HELLO ----

  /** How an object reported by a peer enters the registry: never execution-ready by its own word. */
  function Observed(o: WarmthObject): WarmthObject {
    (if o.Ready() then o.Transition(DISCOVERED, Ascii("observed-not-live")) else o).(provenance := REPORTED)
  }

  function Attribute(s: Coord, w: Id128, id: Id128): Coord {
    s.(workerObjects := s.workerObjects[w := s.Attributed(w) + {id}])
  }

  function Observe(s: Coord, w: Id128, o: WarmthObject): Coord {
    var s1 := if o.id in s.objects then s else s.(objects := s.objects[o.id := Observed(o)]);
    Attribute(s1, w, o.id)
  }

  function ObserveAll(s: Coord, w: Id128, os: seq<WarmthObject>): Coord {
    if os == [] then s else Observe(ObserveAll(s, w, os[..|os| - 1]), w, os[|os| - 1])
  }

  /** Readiness inherited from an older authority is withdrawn. */
  function Revoke(o: WarmthObject, why: Text, reason: Text): WarmthObject {
    (if LiveWarm(o.state) || o.state == STALE then o.Transition(INVALIDATED, why) else o)
      .(invalidation := Some(reason)).SetDevice(COLD_DIM)
  }

  function RevokeEach(m: map<Id128, WarmthObject>, ids: set<Id128>, why: Text, reason: Text): map<Id128, WarmthObject> {
    map id | id in m :: if id in ids then Revoke(m[id], why, reason) else m[id]
  }

  const BOOT_CHANGED: Text := Ascii("worker_boot_changed")

  /** `invalidate_worker_objects_locked`. */
  function InvalidateWorker(s: Coord, w: Id128): Coord {
    if w !in s.workerObjects then s
    else s.(objects := RevokeEach(s.objects, s.workerObjects[w], BOOT_CHANGED, BOOT_CHANGED),
            workerObjects := s.workerObjects[w := {}])
  }

  /** The worker id is free, or already live with this very boot. */
  predicate HelloAccepted(s: Coord, h: Hello) {
    h.version == PROTOCOL_VERSION
    && (h.worker in s.workers ==> s.ConnOf(s.workers[h.worker]).boot == h.boot)
  }

  predicate BootChanges(s: Coord, w: Id128, boot: Id128) {
    w in s.lastBoot && s.lastBoot[w] != boot
  }

  /** A new boot withdraws what the old one vouched for. */
  function Withdrawn(s: Coord, h: Hello): Coord {
    if BootChanges(s, h.worker, h.boot) then InvalidateWorker(s, h.worker) else s
  }

  function Register(s: Coord, c: ConnId, h: Hello): Coord {
    var s1 := Withdrawn(s, h);
    s1.(lastBoot := s1.lastBoot[h.worker := h.boot],
        conns := s1.conns[c := Conn(s.ConnOf(c).alive, true, h.worker, h.boot)],
        workers := s1.workers[h.worker := c])
  }

  function OnHello(s: Coord, c: ConnId, h: Hello): Coord {
    if HelloAccepted(s, h) then ObserveAll(Register(s, c, h), h.worker, h.observed) else s
  }

  // ---- REPORT ----

  /** The authority fence shared by REPORT and WARM_RESULT. */
  predicate Authorised(s: Coord, c: ConnId, boot: Id128, t: Tag) {
    s.ConnOf(c).registered && s.ConnOf(c).boot == boot && s.Current(t)
  }

  /** What a report may change on a known object: everything but a promotion to ready. */
  function Refresh(cur: WarmthObject, o: WarmthObject, now: Timestamp): WarmthObject {
    var cur1 := cur.(dims := o.dims, lastUsed := now, observedTtr := o.observedTtr, residency := o.residency,
                     provenance := REPORTED);
    if o.Ready() && !cur.Ready() then cur1.Transition(DISCOVERED, Ascii("observed-not-live")) else cur1
  }

  function ReportOne(s: Coord, w: Id128, o: WarmthObject, now: Timestamp): Coord {
    var o' := if o.id in s.objects then Refresh(s.objects[o.id], o, now) else Observed(o);
    Attribute(s.(objects := s.objects[o.id := o']), w, o.id)
  }

  function ReportAll(s: Coord, w: Id128, os: seq<WarmthObject>, now: Timestamp): Coord {
    if os == [] then s else ReportOne(ReportAll(s, w, os[..|os| - 1], now), w, os[|os| - 1], now)
  }

  function OnReport(s: Coord, c: ConnId, p: Report, now: Timestamp): Coord {
    if Authorised(s, c, p.boot, p.tag) then ReportAll(s, s.ConnOf(c).id, p.objects, now) else s
  }

  // ---- WARM_RESULT ----

  const COMPLETED: Text := Ascii("warm_completed")

  /** The object before it is walked to WARM: created if unknown, lifted out of INVALIDATED if needed. */
  function BeforeWarm(s: Coord, id: Id128): WarmthObject {
    if id !in s.objects then NewObject(id, APPLICATION_DEFINED, 0, 0, Ascii("cuda:0"), Ascii("cuda"))
    else if s.objects[id].state == INVALIDATED
    then s.objects[id].Transition(DISCOVERED, Ascii("invalidated")).(invalidation := None)
    else s.objects[id]
  }

  function Warmed(s: Coord, r: WarmResult, now: Timestamp): WarmthObject {
    ReachWarm(BeforeWarm(s, r.obj), COMPLETED)
      .(warmthGen := s.warmthGen, measuredCost := r.bytes, observedTtr := r.duration, lastPrepared := now,
        lastUsed := now, provenance := MEASURED, residency := DEVICE_RESIDENT)
  }

  /** The result settles an attempt: current authority, and the attempt was issued to this worker for
      this object and has not settled yet. */
  predicate Settles(s: Coord, c: ConnId, r: WarmResult) {
    && Authorised(s, c, r.boot, r.tag)
    && r.attempt in s.inFlight
    && s.inFlight[r.attempt].worker == s.ConnOf(c).id
    && s.inFlight[r.attempt].obj == r.obj
  }

  function Decrement(count: Word64): Word64 {
    if count > 0 then count - 1 else 0
  }

  /** Drop an attempt and give its reservations back. */
  function Settle(s: Coord, a: Word64): Coord
    requires a in s.inFlight
  {
    s.(budget := ReleaseHold(s.budget, s.inFlight[a].hold), inFlight := s.inFlight - {a},
       inFlightCount := Decrement(s.inFlightCount))
  }

  function ApplyResult(s: Coord, w: Id128, r: WarmResult, now: Timestamp): (s': Coord)
    ensures s' == s.(objects := s'.objects, workerObjects := s'.workerObjects)
  {
    if r.success then Attribute(s.(objects := s.objects[r.obj := Warmed(s, r, now)]), w, r.obj)
    else if r.obj in s.objects
    then s.(objects := s.objects[r.obj := s.objects[r.obj].Transition(FAILED, r.error)])
    else s
  }

  function OnResult(s: Coord, c: ConnId, r: WarmResult, now: Timestamp): Coord {
    if Settles(s, c, r) then Settle(ApplyResult(s, s.ConnOf(c).id, r, now), r.attempt) else s
  }

  // ---- disconnect ----

  /** A lost worker's object decays as on a process restart; its device state becomes suspect. */
  function Lost(o: WarmthObject, now: Timestamp): WarmthObject {
    var r := DecayObject(o, DEFAULT_DECAY, now, Flags(false, false, false, true));
    (if r.changed then o.Transition(r.state, Ascii("worker_disconnect")) else o).SetDevice(SUSPECT_DIM)
  }

  function LoseEach(m: map<Id128, WarmthObject>, ids: set<Id128>, now: Timestamp): map<Id128, WarmthObject> {
    map id | id in m :: if id in ids then Lost(m[id], now) else m[id]
  }

  function OnDisconnect(s: Coord, c: ConnId, now: Timestamp): Coord {
    var cs := s.ConnOf(c);
    var s1 := s.(conns := s.conns[c := cs.(alive := false)]);
    if !cs.registered then s1
    else s1.(workers := if cs.id in s.workers && s.workers[cs.id] == c then s.workers - {cs.id} else s.workers,
             objects := LoseEach(s.objects, s.Attributed(cs.id), now))
  }

  // ---- issue_warm, in its two critical sections ----

  /** The worker a command goes to: the preferred one if registered, else the first in id order. */
  ghost function Target(s: Coord, preferred: Option<Id128>): Option<Id128> {
    if s.workers == map[] then None
    else
      var w := if preferred.Some? then preferred.value else Least(s.workers.Keys);
      if w in s.workers && s.ConnOf(s.workers[w]).registered then Some(w) else None
  }

  ghost predicate Issues(s: Coord, preferred: Option<Id128>) {
    Target(s, preferred).Some? && Acquire(s.budget).Some?
  }

  ghost function OnIssue(s: Coord, obj: Id128, preferred: Option<Id128>): Coord {
    if !Issues(s, preferred) then s
    else
      var (hold, budget) := Acquire(s.budget).value;
      var worker := s.ConnOf(s.workers[Target(s, preferred).value]).id;
      s.(budget := budget, inFlight := s.inFlight[s.attemptCounter := Attempt(obj, worker, hold)],
         inFlightCount := Bump(s.inFlightCount), attemptCounter := Bump(s.attemptCounter))
  }

  /** The second section: the send failed.  A roll or a result may have settled the attempt already. */
  function OnSendFailed(s: Coord, a: Word64): Coord {
    if a in s.inFlight then Settle(s, a) else s
  }

  // ---- authority changes ----

  const ROLLED: Text := Ascii("coordinator_epoch_rolled")

  ghost function ReleaseAll(l: Ledger, m: map<Word64, Attempt>): Ledger
    decreases |m|
  {
    if m == map[] then l
    else
      var a := Least(m.Keys);
      RemoveShrinks(m, a);
      ReleaseAll(ReleaseHold(l, m[a].hold), m - {a})
  }

  ghost function OnRoll(s: Coord): Coord {
    s.(epoch := NextGeneration(s.epoch), warmthGen := Bump(s.warmthGen), depGen := Bump(s.depGen),
       objects := RevokeEach(s.objects, s.objects.Keys, Ascii("authority roll"), ROLLED),
       budget := ReleaseAll(s.budget, s.inFlight),
       inFlight := map[],
       inFlightCount := if s.inFlight != map[] then 0 else s.inFlightCount)
  }

  // ---- runs ----

  datatype Event =
    | Accept(conn: ConnId)
    | HelloMsg(conn: ConnId, hello: Hello)
    | ReportMsg(conn: ConnId, report: Report, now: Timestamp)
    | ResultMsg(conn: ConnId, result: WarmResult, now: Timestamp)
    | Disconnect(conn: ConnId, now: Timestamp)
    | Issue(obj: Id128, preferred: Option<Id128>)
    | SendFailed(attempt: Word64)
    | BumpDependency
    | BumpWarmth
    | Roll

  ghost function Step(s: Coord, e: Event): Coord {
    match e
    case Accept(c) => s.(conns := s.conns[c := Conn(true, false, 0, 0)])
    case HelloMsg(c, h) => OnHello(s, c, h)
    case ReportMsg(c, p, now) => OnReport(s, c, p, now)
    case ResultMsg(c, r, now) => OnResult(s, c, r, now)
    case Disconnect(c, now) => OnDisconnect(s, c, now)
    case Issue(obj, preferred) => OnIssue(s, obj, preferred)
    case SendFailed(a) => OnSendFailed(s, a)
    case BumpDependency => s.(depGen := Bump(s.depGen))
    case BumpWarmth => s.(warmthGen := Bump(s.warmthGen))
    case Roll => OnRoll(s)
  }

  predicate NoHot(os: seq<WarmthObject>) {
    forall i :: 0 <= i < |os| ==> os[i].state != HOT
  }

  /** No 64-bit counter is about to wrap. */
  predicate CountersBelowLimit(s: Coord) {
    && s.epoch < U64_LIMIT - 1 && s.warmthGen < U64_LIMIT - 1 && s.depGen < U64_LIMIT - 1
    && s.attemptCounter < U64_LIMIT - 1 && Headroom(s.budget)
  }

  /** The environment's side: frames arrive on live connections and no counter wraps.  Nothing orders the
      events, and nothing is assumed about what the frames say. */
  ghost predicate Enabled(s: Coord, e: Event) {
    && CountersBelowLimit(s)
    && match e
       case Accept(c) => c !in s.conns
       case HelloMsg(c, _) => c in s.conns && s.conns[c].alive
       case ReportMsg(c, _, _) => c in s.conns && s.conns[c].alive
       case ResultMsg(c, _, _) => c in s.conns && s.conns[c].alive
       case Disconnect(c, _) => c in s.conns && s.conns[c].alive
       case _ => true
  }

  ghost predicate Run(states: seq<Coord>, events: seq<Event>) {
    && |states| == |events| + 1
    && states[0] == Start()
    && forall i :: 0 <= i < |events| ==> Enabled(states[i], events[i]) && states[i + 1] == Step(states[i], events[i])
  }

  // ---- what a peer may be assumed to do, where a claim needs it ----

  predicate NoHotFrame(e: Event) {
    match e
    case HelloMsg(_, h) => NoHot(h.observed)
    case ReportMsg(_, p, _) => NoHot(p.objects)
    case _ => true
  }

  /** No peer sends a HOT object. */
  predicate NoPeerSendsHot(events: seq<Event>) {
    forall i :: 0 <= i < |events| ==> NoHotFrame(events[i])
  }

  /** An accepted HELLO that names another worker than the connection registered before. */
  predicate Renames(s: Coord, e: Event) {
    e.HelloMsg? && HelloAccepted(s, e.hello) && s.ConnOf(e.conn).registered && s.ConnOf(e.conn).id != e.hello.worker
  }

  /** Every connection keeps the worker id of its first accepted HELLO. */
  predicate OneWorkerPerConnection(states: seq<Coord>, events: seq<Event>) {
    |events| <= |states| && forall i :: 0 <= i < |events| ==> !Renames(states[i], events[i])
  }
}
