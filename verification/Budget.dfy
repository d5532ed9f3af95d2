/** Budget accounting: reservations, usage per kind, and the pair of reservations held by one warming. */
module Budgets {
  import opened Basics
  import opened Policies

  const WARM_BYTES: Word64 := 0x4000_0000

  datatype BudgetError = NO_ERROR | LIMIT_EXCEEDED | UNKNOWN_RESERVATION | DOUBLE_RELEASE

  datatype Reservation = Reservation(kind: BudgetKind, amount: Word64)

  /** The tracker's state as a value. */
  datatype Ledger = Ledger(
    limits: Limits,
    reservations: map<Word64, Reservation>,
    usage: map<BudgetKind, Word64>,
    nextId: Word64)
  {
    function Limit(k: BudgetKind): Word64 {
      limits[KindIndex(k)]
    }

    function Usage(k: BudgetKind): Word64 {
      if k in usage then usage[k] else 0
    }

    predicate Fits(k: BudgetKind, amount: Word64) {
      Limit(k) == 0 || (amount <= Limit(k) && Usage(k) <= Limit(k) - amount)
    }

    predicate Balanced() {
      reservations == map[]
    }
  }

  function EmptyLedger(limits: Limits): Ledger {
    Ledger(limits, map[], map[], 1)
  }

  /** 64-bit increment with wrap-around. */
  function Bump(x: Word64): Word64 {
    (x + 1) % U64_LIMIT
  }

  /** `next_id`: the id handed out and the counter after it; zero is skipped. */
  function NextId(x: Word64): (Word64, Word64) {
    if x == 0 then (1, 2) else (x, Bump(x))
  }

  /** `reserve`: the new id, or 0 with the ledger unchanged. */
  function Reserve(l: Ledger, k: BudgetKind, amount: Word64): (r: (Word64, Ledger))
    ensures r.0 == 0 ==> r.1 == l
  {
    if amount == 0 || !l.Fits(k, amount) then (0, l)
    else
      var (id, next) := NextId(l.nextId);
      (id, Ledger(l.limits,
                  if id in l.reservations then l.reservations else l.reservations[id := Reservation(k, amount)],
                  l.usage[k := (l.Usage(k) + amount) % U64_LIMIT],
                  next))
  }

  /** `release`: usage saturates at zero. */
  function Release(l: Ledger, id: Word64): (r: (BudgetError, Ledger))
    ensures r.0 != NO_ERROR ==> r.1 == l
    ensures r.0 == NO_ERROR <==> id != 0 && id in l.reservations
  {
    if id == 0 then (UNKNOWN_RESERVATION, l)
    else if id !in l.reservations then (DOUBLE_RELEASE, l)
    else
      var res := l.reservations[id];
      var u := l.Usage(res.kind);
      (NO_ERROR, l.(reservations := l.reservations - {id},
                    usage := l.usage[res.kind := if res.amount >= u then 0 else u - res.amount]))
  }

  // ---- usage is the sum of the live reservations ----

  function Part(r: Reservation, k: BudgetKind): nat {
    if r.kind == k then r.amount else 0
  }

  ghost function Total(m: map<Word64, Reservation>, k: BudgetKind): nat
    decreases |m|
  {
    if m == map[] then 0
    else
      var id := Least(m.Keys);
      RemoveShrinks(m, id);
      Part(m[id], k) + Total(m - {id}, k)
  }

  lemma RemoveShrinks<V>(m: map<Word64, V>, id: Word64)
    requires id in m
    ensures |m - {id}| == |m| - 1
    ensures (m - {id}).Keys == m.Keys - {id}
  {
    assert (m - {id}).Keys == m.Keys - {id};
    assert |m.Keys - {id}| == |m.Keys| - 1;
  }

  lemma {:induction false} TotalRemove(m: map<Word64, Reservation>, id: Word64, k: BudgetKind)
    requires id in m
    ensures Total(m, k) == Part(m[id], k) + Total(m - {id}, k)
    decreases |m|
  {
    var first := Least(m.Keys);
    RemoveShrinks(m, first);
    if id != first {
      var n := m - {first};
      RemoveShrinks(m, id);
      TotalRemove(n, id, k);
      assert (m - {id}) - {first} == n - {id};
      TotalRemove(m - {id}, first, k);
    }
  }

  lemma TotalInsert(m: map<Word64, Reservation>, id: Word64, r: Reservation, k: BudgetKind)
    requires id !in m
    ensures Total(m[id := r], k) == Part(r, k) + Total(m, k)
  {
    TotalRemove(m[id := r], id, k);
    assert m[id := r] - {id} == m;
  }

  /** Every live id was handed out before, and usage of every kind is exactly what is reserved. */
  ghost predicate Sound(l: Ledger) {
    && (forall id :: id in l.reservations ==> 0 < id < l.nextId)
    && (forall k: BudgetKind :: l.Usage(k) == Total(l.reservations, k))
    && (forall k: BudgetKind :: l.Limit(k) != 0 ==> l.Usage(k) <= l.Limit(k))
  }

  lemma Booked(l: Ledger, k: BudgetKind, amount: Word64, id: Word64, l': Ledger)
    requires Sound(l) && 0 < id < l'.nextId && l.nextId <= l'.nextId && l'.limits == l.limits
    requires l'.reservations == l.reservations[id := Reservation(k, amount)]
    requires l.Usage(k) + amount < U64_LIMIT && l'.usage == l.usage[k := l.Usage(k) + amount]
    requires l.Limit(k) != 0 ==> l.Usage(k) + amount <= l.Limit(k)
    requires forall j: BudgetKind ::
      Total(l'.reservations, j) == Part(Reservation(k, amount), j) + Total(l.reservations, j)
    ensures Sound(l')
  {
    hide Total;
    forall j: BudgetKind ensures l'.Usage(j) == Total(l'.reservations, j) {
      assert l'.Usage(j) == l.Usage(j) + Part(Reservation(k, amount), j);
    }
  }

  /** Reserving keeps the ledger sound, hands out a fresh id exactly when the amount is non-zero and
      fits, and never lets usage pass a non-zero limit. */
  lemma ReserveSound(l: Ledger, k: BudgetKind, amount: Word64)
    requires Sound(l) && 0 < l.nextId < U64_LIMIT - 1 && l.Usage(k) + amount < U64_LIMIT
    ensures var (id, l') := Reserve(l, k, amount);
            && Sound(l')
            && (id != 0 <==> amount != 0 && (l.Limit(k) == 0 || l.Usage(k) + amount <= l.Limit(k)))
            && (id != 0 ==> id !in l.reservations && l'.reservations == l.reservations[id := Reservation(k, amount)])
  {
    var (id, l') := Reserve(l, k, amount);
    if id != 0 {
      var added := l.reservations[id := Reservation(k, amount)];
      forall j: BudgetKind ensures Total(added, j) == Part(Reservation(k, amount), j) + Total(l.reservations, j) {
        TotalInsert(l.reservations, id, Reservation(k, amount), j);
      }
      Booked(l, k, amount, id, l');
    }
  }

  /** Releasing a live id keeps the ledger sound; a second release of it is detected and changes nothing. */
  lemma ReleaseSound(l: Ledger, id: Word64)
    requires Sound(l) && id in l.reservations
    ensures var (e, l') := Release(l, id);
            && e == NO_ERROR && Sound(l') && l'.reservations == l.reservations - {id}
            && (forall k: BudgetKind :: l'.Usage(k) == l.Usage(k) - Part(l.reservations[id], k))
            && Release(l', id) == (DOUBLE_RELEASE, l')
  {
    var l' := Release(l, id).1;
    forall j: BudgetKind
      ensures l'.Usage(j) == Total(l'.reservations, j) && l'.Usage(j) == l.Usage(j) - Part(l.reservations[id], j)
    {
      TotalRemove(l.reservations, id, j);
    }
  }

  /** Accounting to zero: a sound ledger with nothing outstanding reports no usage of any kind. */
  lemma BalancedMeansNoUsage(l: Ledger)
    requires Sound(l) && l.Balanced()
    ensures forall k: BudgetKind :: l.Usage(k) == 0
  {
  }

  // ---- the two reservations of one warming ----

  /** Held from admission to settlement; `op` is 0 when the concurrent-operations limit refused it. */
  datatype Hold = Hold(reservation: Word64, op: Word64)

  /** Admission: device memory must fit, the operation slot is taken only if it fits. */
  function Acquire(l: Ledger): Option<(Hold, Ledger)> {
    var (r, l1) := Reserve(l, DEVICE_MEMORY, WARM_BYTES);
    if r == 0 then None
    else
      var (op, l2) := Reserve(l1, CONCURRENT_WARMING_OPS, 1);
      Some((Hold(r, op), l2))
  }

  function ReleaseHold(l: Ledger, h: Hold): Ledger {
    var l1 := Release(l, h.reservation).1;
    if h.op != 0 then Release(l1, h.op).1 else l1
  }

  ghost function OpHolders(holds: map<Word64, Hold>): set<Word64> {
    set a | a in holds && holds[a].op != 0
  }

  /** The reservations behind a hold are live and have the amounts a warming asks for. */
  predicate Live(res: map<Word64, Reservation>, h: Hold) {
    && h.reservation in res && res[h.reservation] == Reservation(DEVICE_MEMORY, WARM_BYTES)
    && (h.op != 0 ==> h.op in res && res[h.op] == Reservation(CONCURRENT_WARMING_OPS, 1))
  }

  predicate Apart(g: Hold, h: Hold) {
    g.reservation != h.reservation && (g.op != 0 ==> g.op != h.op)
  }

  ghost function HoldIds(h: Hold): set<Word64> {
    if h.op != 0 then {h.reservation, h.op} else {h.reservation}
  }

  ghost predicate Owned(holds: map<Word64, Hold>, id: Word64) {
    exists a :: a in holds && id in HoldIds(holds[a])
  }

  /** The live reservations are exactly the disjoint union of the holds. */
  ghost predicate Covers(res: map<Word64, Reservation>, holds: map<Word64, Hold>) {
    && (forall a {:trigger Live(res, holds[a])} :: a in holds ==> Live(res, holds[a]))
    && (forall a, b {:trigger Apart(holds[a], holds[b])} :: a in holds && b in holds && a != b ==> Apart(holds[a], holds[b]))
    && (forall id {:trigger Owned(holds, id)} :: id in res ==> Owned(holds, id))
    && 0 !in res
  }

  /** The holds cover the ledger, and usage is their sum. */
  ghost predicate Accounts(l: Ledger, holds: map<Word64, Hold>) {
    && 0 < l.nextId
    && (forall id :: id in l.reservations ==> 0 < id < l.nextId)
    && Covers(l.reservations, holds)
    && l.Usage(DEVICE_MEMORY) == 0x4000_0000 * |holds|
    && l.Usage(CONCURRENT_WARMING_OPS) == |OpHolders(holds)|
    && (l.Limit(DEVICE_MEMORY) != 0 ==> l.Usage(DEVICE_MEMORY) <= l.Limit(DEVICE_MEMORY))
  }

  /** Room left before a 64-bit counter wraps. */
  predicate Headroom(l: Ledger) {
    && l.nextId < U64_LIMIT - 2
    && l.Usage(DEVICE_MEMORY) + WARM_BYTES < U64_LIMIT
    && l.Usage(CONCURRENT_WARMING_OPS) + 1 < U64_LIMIT
  }

  lemma CoversAdd(res: map<Word64, Reservation>, holds: map<Word64, Hold>, a: Word64, h: Hold,
                  res': map<Word64, Reservation>)
    requires Covers(res, holds) && a !in holds
    requires HoldIds(h) !! res.Keys && h.reservation != 0 && h.op != h.reservation
    requires res' == (var r := res[h.reservation := Reservation(DEVICE_MEMORY, WARM_BYTES)];
                      if h.op != 0 then r[h.op := Reservation(CONCURRENT_WARMING_OPS, 1)] else r)
    ensures Covers(res', holds[a := h])
  {
    var holds' := holds[a := h];
    forall b | b in holds' ensures Live(res', holds'[b]) {
      if b != a {
        assert Live(res, holds[b]);
      }
    }
    forall b, c | b in holds' && c in holds' && b != c ensures Apart(holds'[b], holds'[c]) {
      if b == a {
        assert Live(res, holds[c]);
      } else if c == a {
        assert Live(res, holds[b]);
      } else {
        assert Apart(holds[b], holds[c]);
      }
    }
    forall id | id in res' ensures Owned(holds', id) {
      if id in res {
        assert Owned(holds, id);
        var b :| b in holds && id in HoldIds(holds[b]);
        assert b in holds' && id in HoldIds(holds'[b]);
      } else {
        assert a in holds' && id in HoldIds(holds'[a]);
      }
    }
  }

  lemma CoversRemove(res: map<Word64, Reservation>, holds: map<Word64, Hold>, a: Word64)
    requires Covers(res, holds) && a in holds
    ensures Covers(res - HoldIds(holds[a]), holds - {a})
  {
    var h := holds[a];
    var res' := res - HoldIds(h);
    var holds' := holds - {a};
    assert Live(res, h);
    forall b | b in holds' ensures Live(res', holds'[b]) {
      assert Live(res, holds[b]) && Apart(holds[a], holds[b]) && Apart(holds[b], holds[a]);
    }
    forall b, c | b in holds' && c in holds' && b != c ensures Apart(holds'[b], holds'[c]) {
      assert Apart(holds[b], holds[c]);
    }
    forall id | id in res' ensures Owned(holds', id) {
      assert Owned(holds, id);
      var b :| b in holds && id in HoldIds(holds[b]);
      assert b in holds' && id in HoldIds(holds'[b]);
    }
  }

  /** The ledger after a hold was taken out of it, field by field. */
  ghost predicate Grew(l: Ledger, h: Hold, l': Ledger) {
    && h.reservation == l.nextId
    && (h.op == 0 || h.op == l.nextId + 1)
    && l'.nextId == l.nextId + (if h.op != 0 then 2 else 1)
    && l'.limits == l.limits
    && l'.reservations == (var r := l.reservations[h.reservation := Reservation(DEVICE_MEMORY, WARM_BYTES)];
                           if h.op != 0 then r[h.op := Reservation(CONCURRENT_WARMING_OPS, 1)] else r)
    && l'.Usage(DEVICE_MEMORY) == l.Usage(DEVICE_MEMORY) + WARM_BYTES
    && l'.Usage(CONCURRENT_WARMING_OPS) == l.Usage(CONCURRENT_WARMING_OPS) + (if h.op != 0 then 1 else 0)
    && (l.Limit(DEVICE_MEMORY) != 0 ==> l'.Usage(DEVICE_MEMORY) <= l.Limit(DEVICE_MEMORY))
  }

  lemma AcquireGrows(l: Ledger)
    requires 0 < l.nextId && Headroom(l) && Acquire(l).Some?
    requires forall id :: id in l.reservations ==> 0 < id < l.nextId
    ensures Grew(l, Acquire(l).value.0, Acquire(l).value.1)
  {
    var l1 := Reserve(l, DEVICE_MEMORY, WARM_BYTES).1;
    assert l1.Usage(CONCURRENT_WARMING_OPS) == l.Usage(CONCURRENT_WARMING_OPS);
  }

  lemma OpHoldersAdd(holds: map<Word64, Hold>, a: Word64, h: Hold)
    requires a !in holds
    ensures |holds[a := h]| == |holds| + 1
    ensures |OpHolders(holds[a := h])| == |OpHolders(holds)| + (if h.op != 0 then 1 else 0)
  {
    var holds' := holds[a := h];
    assert holds'.Keys == holds.Keys + {a};
    assert a !in OpHolders(holds);
    if h.op != 0 {
      assert OpHolders(holds') == OpHolders(holds) + {a};
    } else {
      assert OpHolders(holds') == OpHolders(holds);
    }
  }

  lemma OpHoldersRemove(holds: map<Word64, Hold>, a: Word64)
    requires a in holds
    ensures |holds - {a}| == |holds| - 1
    ensures |OpHolders(holds - {a})| == |OpHolders(holds)| - (if holds[a].op != 0 then 1 else 0)
  {
    RemoveShrinks(holds, a);
    if holds[a].op != 0 {
      assert a in OpHolders(holds);
      assert OpHolders(holds - {a}) == OpHolders(holds) - {a};
    } else {
      assert OpHolders(holds - {a}) == OpHolders(holds);
    }
  }

  lemma GrewAccounts(l: Ledger, holds: map<Word64, Hold>, a: Word64, h: Hold, l': Ledger)
    requires Accounts(l, holds) && a !in holds && Grew(l, h, l')
    ensures Accounts(l', holds[a := h])
  {
    var holds' := holds[a := h];
    assert HoldIds(h) !! l.reservations.Keys;
    CoversAdd(l.reservations, holds, a, h, l'.reservations);
    OpHoldersAdd(holds, a, h);
  }

  /** Admitting one more warming keeps the accounts, with ids no earlier warming ever held. */
  lemma AcquireAccounts(l: Ledger, holds: map<Word64, Hold>, a: Word64)
    requires Accounts(l, holds) && Headroom(l) && a !in holds && Acquire(l).Some?
    ensures var (h, l') := Acquire(l).value; Accounts(l', holds[a := h]) && Grew(l, h, l')
  {
    AcquireGrows(l);
    GrewAccounts(l, holds, a, Acquire(l).value.0, Acquire(l).value.1);
  }

  lemma ReleaseShape(l: Ledger, h: Hold)
    requires Live(l.reservations, h) && h.reservation != 0
    requires l.Usage(DEVICE_MEMORY) >= WARM_BYTES
    requires h.op != 0 ==> l.Usage(CONCURRENT_WARMING_OPS) >= 1
    ensures Release(l, h.reservation).0 == NO_ERROR
    ensures h.op != 0 ==> Release(Release(l, h.reservation).1, h.op).0 == NO_ERROR
    ensures var l' := ReleaseHold(l, h);
            && l'.reservations == l.reservations - HoldIds(h)
            && l'.limits == l.limits && l'.nextId == l.nextId
            && l'.Usage(DEVICE_MEMORY) == l.Usage(DEVICE_MEMORY) - WARM_BYTES
            && l'.Usage(CONCURRENT_WARMING_OPS) == l.Usage(CONCURRENT_WARMING_OPS) - (if h.op != 0 then 1 else 0)
  {
    var l1 := Release(l, h.reservation).1;
    assert l1.Usage(CONCURRENT_WARMING_OPS) == l.Usage(CONCURRENT_WARMING_OPS);
    assert l1.reservations == l.reservations - {h.reservation};
    if h.op != 0 {
      assert h.op in l1.reservations;
      assert l1.reservations - {h.op} == l.reservations - HoldIds(h);
    }
  }

  /** Both releases of a hold find their reservation live, and together they give back exactly its share. */
  lemma ReleaseAccounts(l: Ledger, holds: map<Word64, Hold>, a: Word64)
    requires Accounts(l, holds) && a in holds
    ensures var h := holds[a]; var l' := ReleaseHold(l, h);
            && Release(l, h.reservation).0 == NO_ERROR
            && (h.op != 0 ==> Release(Release(l, h.reservation).1, h.op).0 == NO_ERROR)
            && Accounts(l', holds - {a})
            && l'.limits == l.limits && l'.nextId == l.nextId
            && l'.reservations == l.reservations - HoldIds(h)
  {
    var h := holds[a];
    var holds' := holds - {a};
    OpHoldersRemove(holds, a);
    assert Live(l.reservations, h);
    CoversRemove(l.reservations, holds, a);
    if h.op != 0 {
      assert a in OpHolders(holds);
    }
    ReleaseShape(l, h);
  }

  /** Nothing is reserved iff nothing is held. */
  lemma BalancedIffNoHolds(l: Ledger, holds: map<Word64, Hold>)
    requires Accounts(l, holds)
    ensures l.Balanced() <==> holds == map[]
    ensures l.Balanced() ==> l.Usage(DEVICE_MEMORY) == 0
  {
    if l.Balanced() {
      forall a ensures a !in holds {
        assert a in holds ==> Live(l.reservations, holds[a]);
      }
    } else {
      assert exists id :: id in l.reservations;
      var id :| id in l.reservations;
      assert Owned(holds, id);
    }
  }

  /** Admission control: with a device limit L at most L / 2^30 warmings hold a reservation. */
  lemma HoldsWithinLimit(l: Ledger, holds: map<Word64, Hold>)
    requires Accounts(l, holds) && l.Limit(DEVICE_MEMORY) != 0
    ensures |holds| <= l.Limit(DEVICE_MEMORY) / WARM_BYTES
  {
  }

  // ---- the tracker itself ----

  /** `BudgetTracker`. */
  class BudgetTracker {
    var limits: Limits
    var reservations: map<Word64, Reservation>
    var usage: map<BudgetKind, Word64>
    var nextId: Word64

    ghost function View(): Ledger
      reads this
    {
      Ledger(limits, reservations, usage, nextId)
    }

    constructor (limits: Limits)
      ensures View() == EmptyLedger(limits)
    {
      this.limits := limits;
      reservations, usage, nextId := map[], map[], 1;
    }

    method UsageOf(k: BudgetKind) returns (u: Word64)
      ensures u == View().Usage(k)
    {
      u := if k in usage then usage[k] else 0;
    }

    method ReserveKind(k: BudgetKind, amount: Word64) returns (id: Word64)
      modifies this
      ensures (id, View()) == Reserve(old(View()), k, amount)
    {
      if amount == 0 {
        return 0;
      }
      var lim := limits[KindIndex(k)];
      if lim != 0 && amount > lim {
        return 0;
      }
      var u := UsageOf(k);
      if !(lim == 0 || (amount <= lim && u <= lim - amount)) {
        return 0;
      }
      id := nextId;
      nextId := (nextId + 1) % U64_LIMIT;
      if id == 0 {
        id := nextId;
        nextId := (nextId + 1) % U64_LIMIT;
      }
      if id !in reservations {
        reservations := reservations[id := Reservation(k, amount)];
      }
      usage := usage[k := (u + amount) % U64_LIMIT];
    }

    method ReleaseId(id: Word64) returns (e: BudgetError)
      modifies this
      ensures (e, View()) == Release(old(View()), id)
    {
      if id == 0 {
        return UNKNOWN_RESERVATION;
      }
      if id !in reservations {
        return DOUBLE_RELEASE;
      }
      var r := reservations[id];
      var u := UsageOf(r.kind);
      usage := usage[r.kind := if r.amount >= u then 0 else u - r.amount];
      reservations := reservations - {id};
      e := NO_ERROR;
    }
  }
}
