/** The snapshot file as a table of fields, and that the decoder accepts exactly such files. */
module SnapshotFormats {
  import opened Basics
  import opened Doubles
  import opened WarmthObjects
  import opened Policies
  import opened Snapshots
  import opened Bytes
  import opened ObjectGrammar
  import opened SnapshotGrammar
  import opened Formats
  import Crc32

  // ---- lists of numbers and flags ----

  function WordsTable(xs: seq<Word64>): Table
    decreases |xs|
  {
    if xs == [] then [] else [Num(8, xs[0])] + WordsTable(xs[1..])
  }

  lemma WordsCons(x: Word64, xs: seq<Word64>, rest: seq<Byte>)
    ensures Lay(WordsTable([x] + xs), rest) == Lay([Num(8, x)], Lay(WordsTable(xs), rest))
  {
    hide Lay;
    assert ([x] + xs)[1..] == xs;
    LayAppend([Num(8, x)], WordsTable(xs), rest);
  }

  lemma {:induction false} WordsRead(s: seq<Byte>, n: nat, done: seq<Word64>)
    requires GetWords(s, n, done).Got?
    ensures var r := GetWords(s, n, done);
            |r.value| == |done| + n && done <= r.value && s == Lay(WordsTable(r.value[|done|..]), r.rest)
    decreases n
  {
    hide GetU64, Lay;
    var r := GetWords(s, n, done);
    if n == 0 {
      assert done[|done|..] == [];
      LayNone(s);
    } else {
      var x, s1 := GetU64(s).value, GetU64(s).rest;
      U64Exact(s, x, s1);
      WordsRead(s1, n - 1, done + [x]);
      var more := r.value[|done| + 1..];
      assert r.value[|done|] == (done + [x])[|done|] == x;
      assert r.value[|done|..] == [x] + more;
      WordsCons(x, more, r.rest);
    }
  }

  lemma {:induction false} WordsLaid(xs: seq<Word64>, done: seq<Word64>, rest: seq<Byte>)
    ensures GetWords(Lay(WordsTable(xs), rest), |xs|, done) == Got(done + xs, rest)
    decreases |xs|
  {
    hide GetU64, Lay;
    if xs == [] {
      LayNone(rest);
      assert done + xs == done;
    } else {
      var x, more := xs[0], xs[1..];
      assert xs == [x] + more;
      WordsCons(x, more, rest);
      U64Exact(Lay(WordsTable(xs), rest), x, Lay(WordsTable(more), rest));
      WordsLaid(more, done + [x], rest);
      assert done + xs == done + [x] + more;
    }
  }

  lemma WordsExact(s: seq<Byte>, n: nat, xs: seq<Word64>, rest: seq<Byte>)
    requires |xs| == n
    ensures GetWords(s, n, []) == Got(xs, rest) <==> s == Lay(WordsTable(xs), rest)
  {
    hide GetWords, Lay;
    if GetWords(s, n, []) == Got(xs, rest) {
      WordsRead(s, n, []);
      assert xs[0..] == xs;
    }
    if true {
      WordsLaid(xs, [], rest);
      assert [] + xs == xs;
    }
  }

  predicate AllFinite(ws: seq<Word64>) {
    forall i :: 0 <= i < |ws| ==> Finite(ws[i])
  }

  /** The reader of doubles is that of words, restricted to finite ones. */
  lemma {:induction false} FinitesAgree(s: seq<Byte>, n: nat, done: seq<Word64>)
    requires AllFinite(done)
    ensures GetFinites(s, n, done) ==
      (var r := GetWords(s, n, done); if r.Got? && AllFinite(r.value) then r else Fail)
    decreases n
  {
    hide GetU64, Finite;
    if n > 0 && GetU64(s).Got? {
      var w, s1 := GetU64(s).value, GetU64(s).rest;
      if Finite(w) {
        FinitesAgree(s1, n - 1, done + [w]);
      } else if GetWords(s1, n - 1, done + [w]).Got? {
        WordsRead(s1, n - 1, done + [w]);
        assert GetWords(s, n, done).value[|done|] == (done + [w])[|done|] == w;
      }
    }
  }

  lemma FinitesExact(s: seq<Byte>, n: nat, xs: seq<Word64>, rest: seq<Byte>)
    requires |xs| == n
    ensures GetFinites(s, n, []) == Got(xs, rest) <==> AllFinite(xs) && s == Lay(WordsTable(xs), rest)
  {
    hide GetFinites, GetWords, Lay, Finite;
    FinitesAgree(s, n, []);
    WordsExact(s, n, xs, rest);
  }

  function FlagsTable(xs: seq<bool>): Table
    decreases |xs|
  {
    if xs == [] then [] else [Num(1, if xs[0] then 1 else 0)] + FlagsTable(xs[1..])
  }

  lemma FlagsCons(x: bool, xs: seq<bool>, rest: seq<Byte>)
    ensures Lay(FlagsTable([x] + xs), rest) == Lay([Num(1, if x then 1 else 0)], Lay(FlagsTable(xs), rest))
  {
    hide Lay;
    assert ([x] + xs)[1..] == xs;
    LayAppend([Num(1, if x then 1 else 0)], FlagsTable(xs), rest);
  }

  lemma {:induction false} FlagsRead(s: seq<Byte>, n: nat, done: seq<bool>)
    requires GetFlags(s, n, done).Got?
    ensures var r := GetFlags(s, n, done);
            |r.value| == |done| + n && done <= r.value && s == Lay(FlagsTable(r.value[|done|..]), r.rest)
    decreases n
  {
    hide GetU8, Lay;
    var r := GetFlags(s, n, done);
    if n == 0 {
      assert done[|done|..] == [];
      LayNone(s);
    } else {
      var x, s1 := GetU8(s).value != 0, GetU8(s).rest;
      U8Exact(s, if x then 1 else 0, s1);
      FlagsRead(s1, n - 1, done + [x]);
      var more := r.value[|done| + 1..];
      assert r.value[|done|] == (done + [x])[|done|] == x;
      assert r.value[|done|..] == [x] + more;
      FlagsCons(x, more, r.rest);
    }
  }

  lemma {:induction false} FlagsLaid(xs: seq<bool>, done: seq<bool>, rest: seq<Byte>)
    ensures GetFlags(Lay(FlagsTable(xs), rest), |xs|, done) == Got(done + xs, rest)
    decreases |xs|
  {
    hide GetU8, Lay;
    if xs == [] {
      LayNone(rest);
      assert done + xs == done;
    } else {
      var x, more := xs[0], xs[1..];
      assert xs == [x] + more;
      FlagsCons(x, more, rest);
      U8Exact(Lay(FlagsTable(xs), rest), if x then 1 else 0, Lay(FlagsTable(more), rest));
      FlagsLaid(more, done + [x], rest);
      assert done + xs == done + [x] + more;
    }
  }

  lemma FlagsExact(s: seq<Byte>, n: nat, xs: seq<bool>, rest: seq<Byte>)
    requires |xs| == n
    ensures GetFlags(s, n, []) == Got(xs, rest) <==> s == Lay(FlagsTable(xs), rest)
  {
    hide GetFlags, Lay;
    if GetFlags(s, n, []) == Got(xs, rest) {
      FlagsRead(s, n, []);
      assert xs[0..] == xs;
    }
    if true {
      FlagsLaid(xs, [], rest);
      assert [] + xs == xs;
    }
  }

  // ---- the policy record ----

  function PolicyTable(p: Policy): Table {
    [Num(8, p.generation)] + DecayTable(p.decay) + LimitsTable(p.budgets) + WeightsTable(p.weights)
  }

  function DecayTable(d: DecayPolicy): Table {
    [Num(8, d.hotToWarm), Num(8, d.warmToStale), Num(8, d.staleToInvalidated), Num(8, d.warmToPartial),
     Num(8, d.partialToCold),
     Flag(d.onMemoryPressure), Flag(d.onProcessRestart), Flag(d.onDeviceReset), Flag(d.onDependencyChange),
     Flag(d.onPolicyChange)]
  }

  function LimitsTable(b: Limits): Table {
    [Num(8, b[0]), Num(8, b[1]), Num(8, b[2]), Num(8, b[3]), Num(8, b[4]), Num(8, b[5]), Num(8, b[6]), Num(8, b[7])]
  }

  function WeightsTable(w: Weights): Table {
    [Num(8, w[0]), Num(8, w[1]), Num(8, w[2]), Num(8, w[3]), Num(8, w[4]), Num(8, w[5]), Num(8, w[6]), Num(8, w[7]),
     Num(8, w[8]), Num(8, w[9]), Num(8, w[10]), Num(8, w[11])]
  }

  function Flag(b: bool): Field {
    Num(1, if b then 1 else 0)
  }

  lemma {:induction false} WordsAre(ws: seq<Word64>)
    ensures |WordsTable(ws)| == |ws| && forall i :: 0 <= i < |ws| ==> WordsTable(ws)[i] == Num(8, ws[i])
    decreases |ws|
  {
    if ws != [] {
      WordsAre(ws[1..]);
    }
  }

  lemma {:induction false} FlagsAre(fs: seq<bool>)
    ensures |FlagsTable(fs)| == |fs| && forall i :: 0 <= i < |fs| ==> FlagsTable(fs)[i] == Flag(fs[i])
    decreases |fs|
  {
    if fs != [] {
      FlagsAre(fs[1..]);
    }
  }

  lemma DecayByGroups(d: DecayPolicy)
    ensures DecayTable(d) == WordsTable(DecayWords(d)) + FlagsTable(DecayFlags(d))
  {
    hide WordsTable, FlagsTable;
    WordsAre(DecayWords(d));
    FlagsAre(DecayFlags(d));
  }

  lemma LimitsByWords(b: Limits)
    ensures LimitsTable(b) == WordsTable(b)
  {
    hide WordsTable;
    WordsAre(b);
  }

  lemma WeightsByWords(w: Weights)
    ensures WeightsTable(w) == WordsTable(w)
  {
    hide WordsTable;
    WordsAre(w);
  }

  lemma PolicyByGroups(p: Policy)
    ensures PolicyTable(p) == [Num(8, p.generation)] + ((WordsTable(DecayWords(p.decay)) + FlagsTable(DecayFlags(p.decay)))
                              + (WordsTable(p.budgets) + WordsTable(p.weights)))
  {
    hide WordsTable, FlagsTable, DecayTable, LimitsTable, WeightsTable;
    DecayByGroups(p.decay);
    LimitsByWords(p.budgets);
    WeightsByWords(p.weights);
  }

  lemma DecayExact(s: seq<Byte>, d: DecayPolicy, rest: seq<Byte>)
    ensures GetDecay(s) == Got(d, rest) <==>
      AllFinite(DecayWords(d)) && s == Lay(WordsTable(DecayWords(d)) + FlagsTable(DecayFlags(d)), rest)
  {
    hide GetFinites, GetFlags, Lay, WordsTable, FlagsTable, Finite;
    var ws, fs := DecayWords(d), DecayFlags(d);
    LayAppend(WordsTable(ws), FlagsTable(fs), rest);
    if GetDecay(s) == Got(d, rest) {
      var s1 := GetFinites(s, 5, []).rest;
      assert GetFinites(s, 5, []).value == ws && GetFlags(s1, 5, []).value == fs;
      FinitesExact(s, 5, ws, s1);
      FlagsExact(s1, 5, fs, rest);
    }
    FinitesExact(s, 5, ws, Lay(FlagsTable(fs), rest));
    FlagsExact(Lay(FlagsTable(fs), rest), 5, fs, rest);
  }

  lemma BudgetsExact(s: seq<Byte>, b: Limits, rest: seq<Byte>)
    ensures GetBudgets(s) == Got(b, rest) <==> s == Lay(WordsTable(b), rest)
  {
    hide GetWords, Lay;
    WordsExact(s, 8, b, rest);
  }

  lemma WeightsExact(s: seq<Byte>, w: Weights, rest: seq<Byte>)
    ensures GetWeights(s) == Got(w, rest) <==> AllFinite(w) && s == Lay(WordsTable(w), rest)
  {
    hide GetFinites, Lay, Finite;
    FinitesExact(s, 12, w, rest);
  }

  lemma FiniteGroups(p: Policy)
    ensures p.FiniteNumbers() <==> AllFinite(DecayWords(p.decay)) && AllFinite(p.weights)
  {
    hide Finite;
    var ws := DecayWords(p.decay);
    if AllFinite(ws) {
      assert Finite(ws[0]) && Finite(ws[1]) && Finite(ws[2]) && Finite(ws[3]) && Finite(ws[4]);
    }
  }

  lemma PolicyExact(s: seq<Byte>, p: Policy, rest: seq<Byte>)
    ensures GetPolicy(s) == Got(p, rest) <==> p.FiniteNumbers() && s == Lay(PolicyTable(p), rest)
  {
    hide GetU64, GetDecay, GetBudgets, GetWeights, Lay, WordsTable, FlagsTable, PolicyTable, Finite, AllFinite;
    PolicyByGroups(p);
    FiniteGroups(p);
    var f4 := WordsTable(p.weights);
    var f3 := WordsTable(p.budgets) + f4;
    var f2 := (WordsTable(DecayWords(p.decay)) + FlagsTable(DecayFlags(p.decay))) + f3;
    var f1 := [Num(8, p.generation)] + f2;
    assert PolicyTable(p) == f1;
    var t4 := Lay(f4, rest);
    var t3 := Lay(f3, rest);
    var t2 := Lay(f2, rest);
    LayAppend([Num(8, p.generation)], f2, rest);
    LayAppend((WordsTable(DecayWords(p.decay)) + FlagsTable(DecayFlags(p.decay))), f3, rest);
    LayAppend(WordsTable(p.budgets), f4, rest);
    if GetPolicy(s) == Got(p, rest) {
      var s1 := GetU64(s).rest;
      U64Exact(s, p.generation, s1);
      var s2 := GetDecay(s1).rest;
      DecayExact(s1, p.decay, s2);
      var s3 := GetBudgets(s2).rest;
      BudgetsExact(s2, p.budgets, s3);
      WeightsExact(s3, p.weights, rest);
    }
    if p.FiniteNumbers() && s == Lay(PolicyTable(p), rest) {
      U64Exact(s, p.generation, t2);
      DecayExact(t2, p.decay, t3);
      BudgetsExact(t3, p.budgets, t4);
      WeightsExact(t4, p.weights, rest);
    }
  }

  // ---- the objects of a snapshot ----

  /** What the reader asks of each entry behind those before it. */
  predicate Admissible(es: Entries, limit: Word64, done: seq<WarmthObject>) {
    && AllProper(es)
    && (forall i :: 0 <= i < |es| ==> es[i].o.FiniteNumbers() && es[i].o.warmthGen <= limit)
    && Distinct(done + Clamped(es))
  }

  lemma PersistExact(s: seq<Byte>, limit: Word64, e: Entry, rest: seq<Byte>)
    requires Proper(e) && s == Lay(ObjectTable(e.o, e.ps), rest)
    ensures PersistObject(s, limit) ==
      if e.o.FiniteNumbers() && e.o.warmthGen <= limit then Got(e.o.Clamp(), rest) else Fail
  {
    hide WireFields, PersistObject, Lay, ObjectTable, Finite, ClampUnit;
    ObjectLaid(e.o, e.ps, rest);
    ReadersAgree(s, limit);
  }

  lemma PersistRead(s: seq<Byte>, limit: Word64) returns (e: Entry)
    requires PersistObject(s, limit).Got?
    ensures var r := PersistObject(s, limit);
      && Proper(e) && s == Lay(ObjectTable(e.o, e.ps), r.rest) && r.value == e.o.Clamp()
      && e.o.FiniteNumbers() && e.o.warmthGen <= limit
  {
    hide WireFields, PersistObject, Lay, ObjectTable, Finite, ClampUnit, Lists, Sized;
    ReadersAgree(s, limit);
    var ps := ObjectRead(s);
    e := Entry(WireFields(s).value, ps);
  }

  lemma ClampedCons(e: Entry, es: Entries)
    ensures Clamped([e] + es) == [e.o.Clamp()] + Clamped(es)
  {
    hide ClampUnit;
  }

  /** Soundness of the object loop. */
  lemma {:induction false} ObjectsRead(s: seq<Byte>, n: nat, limit: Word64, done: seq<WarmthObject>) returns (es: Entries)
    requires GetObjects(s, n, limit, done).Got? && Distinct(done)
    ensures var r := GetObjects(s, n, limit, done);
      && |es| == n && Admissible(es, limit, done) && r.value == done + Clamped(es) && s == Lay(EntriesTable(es), r.rest)
    decreases n
  {
    hide PersistObject, Lay, ObjectTable, IdAmong, Proper, Clamped;
    var r := GetObjects(s, n, limit, done);
    if n == 0 {
      es := [];
      LayNone(s);
      assert Clamped(es) == [] && done + [] == done;
    } else {
      var e := PersistRead(s, limit);
      var o, s1 := e.o.Clamp(), PersistObject(s, limit).rest;
      DistinctSnoc(done, o);
      var more := ObjectsRead(s1, n - 1, limit, done + [o]);
      es := [e] + more;
      OneEntry(e, more, r.rest);
      ClampedCons(e, more);
      assert done + [o] + Clamped(more) == done + Clamped(es);
      AdmissibleCons(e, more, limit, done);
    }
  }

  lemma AdmissibleCons(e: Entry, more: Entries, limit: Word64, done: seq<WarmthObject>)
    requires Proper(e) && e.o.FiniteNumbers() && e.o.warmthGen <= limit
    requires Admissible(more, limit, done + [e.o.Clamp()])
    ensures Admissible([e] + more, limit, done)
  {
    hide Proper, Finite, ClampUnit;
    ClampedCons(e, more);
    assert done + [e.o.Clamp()] + Clamped(more) == done + Clamped([e] + more);
  }

  lemma DistinctSnoc(os: seq<WarmthObject>, o: WarmthObject)
    requires Distinct(os) && !IdAmong(o.id, os)
    ensures Distinct(os + [o])
  {
  }

  /** Completeness of the object loop. */
  lemma {:induction false} ObjectsLaid(es: Entries, limit: Word64, done: seq<WarmthObject>, rest: seq<Byte>)
    requires Admissible(es, limit, done)
    ensures GetObjects(Lay(EntriesTable(es), rest), |es|, limit, done) == Got(done + Clamped(es), rest)
    decreases |es|
  {
    hide PersistObject, Lay, ObjectTable, Proper, Finite, ClampUnit;
    if es == [] {
      LayNone(rest);
      assert done + Clamped(es) == done;
    } else {
      var e, more := es[0], es[1..];
      assert es == [e] + more;
      var o := e.o.Clamp();
      OneEntry(e, more, rest);
      ClampedCons(e, more);
      assert done + [o] + Clamped(more) == done + Clamped(es);
      NewId(done, o, Clamped(more));
      PersistExact(Lay(EntriesTable(es), rest), limit, e, Lay(EntriesTable(more), rest));
      ObjectsLaid(more, limit, done + [o], rest);
    }
  }

  lemma NewId(done: seq<WarmthObject>, o: WarmthObject, more: seq<WarmthObject>)
    requires Distinct(done + ([o] + more))
    ensures !IdAmong(o.id, done)
  {
    var all := done + ([o] + more);
    forall j | 0 <= j < |done| ensures done[j].id != o.id {
      assert all[j] == done[j] && all[|done|] == o;
    }
  }

  // ---- the payload and the file ----

  function PayloadTable(s: Snapshot, es: Entries): Table {
    [Num(8, s.epoch), Num(8, s.warmthGen), Num(8, s.depGen), Num(8, s.policyGen)]
    + PolicyTable(s.policy) + [Num(4, |es|)] + EntriesTable(es)
  }

  /** The entries stand for the objects of the snapshot, which meets the conditions the decoder checks. */
  predicate StandFor(es: Entries, s: Snapshot) {
    && s.objects == Clamped(es) && Admissible(es, s.warmthGen, [])
    && |es| <= 1_000_000 && s.policy.FiniteNumbers() && s.policy.generation == s.policyGen
  }

  lemma HeadLaid(s: Snapshot, es: Entries, rest: seq<Byte>)
    ensures Lay(PayloadTable(s, es), rest) ==
      Lay([Num(8, s.epoch)], Lay([Num(8, s.warmthGen)], Lay([Num(8, s.depGen)], Lay([Num(8, s.policyGen)],
        Lay(PolicyTable(s.policy), Lay([Num(4, |es|)], Lay(EntriesTable(es), rest)))))))
  {
    hide Lay, PolicyTable, EntriesTable;
    var f6 := [Num(4, |es|)] + EntriesTable(es);
    var f5 := PolicyTable(s.policy) + f6;
    var f4 := [Num(8, s.policyGen)] + f5;
    var f3 := [Num(8, s.depGen)] + f4;
    var f2 := [Num(8, s.warmthGen)] + f3;
    assert PayloadTable(s, es) == [Num(8, s.epoch)] + f2;
    LayAppend([Num(8, s.epoch)], f2, rest);
    LayAppend([Num(8, s.warmthGen)], f3, rest);
    LayAppend([Num(8, s.depGen)], f4, rest);
    LayAppend([Num(8, s.policyGen)], f5, rest);
    LayAppend(PolicyTable(s.policy), f6, rest);
    LayAppend([Num(4, |es|)], EntriesTable(es), rest);
  }

  lemma PayloadRead(b: seq<Byte>) returns (es: Entries)
    requires GetPayload(b).Got?
    ensures var r := GetPayload(b); StandFor(es, r.value) && b == Lay(PayloadTable(r.value, es), r.rest)
  {
    hide GetU64, GetU32, GetPolicy, GetObjects, Lay, PolicyTable, Clamped, Admissible, Finite;
    var s, rest := GetPayload(b).value, GetPayload(b).rest;
    var b1 := GetU64(b).rest;
    var b2 := GetU64(b1).rest;
    var b3 := GetU64(b2).rest;
    var b4 := GetU64(b3).rest;
    var b5 := GetPolicy(b4).rest;
    var n, b6 := GetU32(b5).value, GetU32(b5).rest;
    es := ObjectsRead(b6, n, s.warmthGen, []);
    assert [] + Clamped(es) == Clamped(es);
    U64Exact(b, s.epoch, b1);
    U64Exact(b1, s.warmthGen, b2);
    U64Exact(b2, s.depGen, b3);
    U64Exact(b3, s.policyGen, b4);
    PolicyExact(b4, s.policy, b5);
    U32Exact(b5, n, b6);
    HeadLaid(s, es, rest);
  }

  lemma PayloadLaid(s: Snapshot, es: Entries, rest: seq<Byte>)
    requires StandFor(es, s)
    ensures GetPayload(Lay(PayloadTable(s, es), rest)) == Got(s, rest)
  {
    hide GetU64, GetU32, GetPolicy, GetObjects, Lay, PolicyTable, PayloadTable, Clamped, Admissible, Finite;
    HeadLaid(s, es, rest);
    var t6 := Lay(EntriesTable(es), rest);
    var t5 := Lay([Num(4, |es|)], t6);
    var t4 := Lay(PolicyTable(s.policy), t5);
    var t3 := Lay([Num(8, s.policyGen)], t4);
    var t2 := Lay([Num(8, s.depGen)], t3);
    var t1 := Lay([Num(8, s.warmthGen)], t2);
    U64Exact(Lay([Num(8, s.epoch)], t1), s.epoch, t1);
    U64Exact(t1, s.warmthGen, t2);
    U64Exact(t2, s.depGen, t3);
    U64Exact(t3, s.policyGen, t4);
    PolicyExact(t4, s.policy, t5);
    U32Exact(t5, |es|, t6);
    ObjectsLaid(es, s.warmthGen, [], rest);
    assert [] + Clamped(es) == Clamped(es);
  }

  /** The file: "WFTB", version 1, size and CRC-32 of the payload, the payload, and nothing behind it. */
  function FileTable(payload: seq<Byte>): Table {
    [Raw(MAGIC_TEXT)] + Checked(payload)
  }

  const MAGIC_TEXT: seq<Byte> := [0x57, 0x46, 0x54, 0x42]

  function Checked(payload: seq<Byte>): Table {
    [Num(4, 1), Num(4, |payload|), Num(4, Crc32.Checksum(payload)), Raw(payload)]
  }

  lemma MagicText()
    ensures Octets(MAGIC, 4) == MAGIC_TEXT
  {
    Widths();
    assert Pow256(3) == 0x100_0000 && Pow256(2) == 0x1_0000 && Pow256(1) == 0x100 && Pow256(0) == 1;
  }

  lemma FileLaid(payload: seq<Byte>)
    ensures Lay(FileTable(payload), []) ==
      Lay([Num(4, MAGIC)], Lay([Num(4, 1)], Lay([Num(4, |payload|)], Lay([Num(4, Crc32.Checksum(payload))], payload))))
  {
    hide Lay, Checked, Crc32.Checksum;
    LayAppend([Raw(MAGIC_TEXT)], Checked(payload), []);
    MagicLaid(Lay(Checked(payload), []));
    BehindMagic(payload);
  }

  lemma MagicLaid(t: seq<Byte>)
    ensures Lay([Raw(MAGIC_TEXT)], t) == Lay([Num(4, MAGIC)], t)
  {
    hide Lay, Octets;
    MagicText();
    LayOne(Raw(MAGIC_TEXT), t);
    LayOne(Num(4, MAGIC), t);
  }

  lemma BehindMagic(payload: seq<Byte>)
    ensures Lay(Checked(payload), []) ==
      Lay([Num(4, 1)], Lay([Num(4, |payload|)], Lay([Num(4, Crc32.Checksum(payload))], payload)))
  {
    hide Lay, Octets, Crc32.Checksum;
    var size, sum: Field := Num(4, |payload|), Num(4, Crc32.Checksum(payload));
    assert Checked(payload) == [Num(4, 1), size] + [sum, Raw(payload)];
    LayAppend([Num(4, 1), size], [sum, Raw(payload)], []);
    var t := Lay([sum, Raw(payload)], []);
    LayTwo(Num(4, 1), size, t);
    LayOne(Num(4, 1), Lay([size], t));
    LayOne(size, t);
    LayTwo(sum, Raw(payload), []);
    LayOne(sum, payload);
    assert payload + [] == payload;
  }

  /** The header, exactly. */
  lemma UnwrapExact(b: seq<Byte>, payload: seq<Byte>)
    ensures Unwrap(b) == Some(payload) <==> |payload| < U32_LIMIT && b == Lay(FileTable(payload), [])
  {
    hide GetU32, Lay, FileTable, Crc32.Checksum;
    FileLaid(payload);
    var t4 := payload;
    var t3 := Lay([Num(4, Crc32.Checksum(payload))], t4);
    var t2 := Lay([Num(4, |payload|)], t3);
    var t1 := Lay([Num(4, 1)], t2);
    if Unwrap(b) == Some(payload) {
      var b1 := GetU32(b).rest;
      var b2 := GetU32(b1).rest;
      var b3 := GetU32(b2).rest;
      U32Exact(b, MAGIC, b1);
      U32Exact(b1, 1, b2);
      U32Exact(b2, |payload|, b3);
      U32Exact(b3, Crc32.Checksum(payload), payload);
    }
    if |payload| < U32_LIMIT && b == Lay(FileTable(payload), []) {
      U32Exact(b, MAGIC, t1);
      U32Exact(t1, 1, t2);
      U32Exact(t2, |payload|, t3);
      U32Exact(t3, Crc32.Checksum(payload), payload);
    }
  }

  /** A file that holds the snapshot, the dependency pairs of its objects in some order. */
  ghost predicate FileOf(b: seq<Byte>, s: Snapshot) {
    exists es: Entries :: StandFor(es, s) && |Lay(PayloadTable(s, es), [])| < U32_LIMIT
                          && b == Lay(FileTable(Lay(PayloadTable(s, es), [])), [])
  }

  /** The decoder, exactly: for every byte string, it yields this snapshot iff the bytes are a file that holds
      it - every field in its place, every flag 0 or 1, every code in range, every double finite, distinct ids,
      admissible generations, the right size and checksum, and nothing left over. */
  lemma DecodeExact(b: seq<Byte>, s: Snapshot)
    ensures Decode(b) == Some(s) <==> FileOf(b, s)
  {
    hide Unwrap, GetPayload, Lay, PayloadTable, FileTable, StandFor;
    if Decode(b) == Some(s) {
      var payload := Unwrap(b).value;
      var es := PayloadRead(payload);
      UnwrapExact(b, payload);
      assert payload == Lay(PayloadTable(s, es), []);
    }
    if FileOf(b, s) {
      var es: Entries :| StandFor(es, s) && |Lay(PayloadTable(s, es), [])| < U32_LIMIT
                         && b == Lay(FileTable(Lay(PayloadTable(s, es), [])), []);
      UnwrapExact(b, Lay(PayloadTable(s, es), []));
      PayloadLaid(s, es, []);
    }
  }

  // ---- what the encoder lays out ----

  /** The entries the writers produce: the written form of each object, its pairs by ascending kind. */
  predicate WrittenEntries(es: Entries, os: seq<WarmthObject>) {
    && |es| == |os|
    && forall i :: 0 <= i < |os| ==>
         es[i].o == Written(os[i]) && Lists(es[i].ps, os[i].depGens) && AscendingFrom(es[i].ps, 0)
  }

  lemma {:induction false} ObjectsWritten(os: seq<WarmthObject>, i: nat, tail: seq<Byte>) returns (es: Entries)
    requires i <= |os| && AllSized(os)
    ensures WrittenEntries(es, os[i..]) && PutObjects(os, i, tail) == Lay(EntriesTable(es), tail)
    decreases |os| - i
  {
    hide PutObject, Lay, ObjectTable, Lists, AscendingFrom, Written, Sized;
    if i == |os| {
      es := [];
      LayNone(tail);
    } else {
      var more := ObjectsWritten(os, i + 1, tail);
      var ps := ObjectWritten(os[i], PutObjects(os, i + 1, tail));
      es := [Entry(Written(os[i]), ps)] + more;
      OneEntry(Entry(Written(os[i]), ps), more, tail);
      assert os[i..] == [os[i]] + os[i + 1..];
    }
  }

  /** The encoder, field by field: header, generations, policy, count, and the objects in order. */
  lemma EncodeLayout(s: Snapshot) returns (es: Entries)
    requires FiniteSnapshot(s) && AllSized(s.objects) && |s.objects| < U32_LIMIT && |PutPayload(s)| < U32_LIMIT
    ensures WrittenEntries(es, s.objects)
    ensures Encode(s) == Some(Lay(FileTable(Lay(PayloadTable(s, es), [])), []))
  {
    hide PutU32, PutU64, PutPolicy, PutObjects, PutFile, Unwrap, Lay, PayloadTable, FileTable, WrittenEntries, Finite;
    es := ObjectsWritten(s.objects, 0, []);
    assert s.objects[0..] == s.objects;
    assert |es| == |s.objects| by {
      EntriesCount(es, s.objects);
    }
    PayloadWritten(s, es);
    UnwrapBack(PutPayload(s));
    UnwrapExact(PutFile(PutPayload(s)), PutPayload(s));
  }

  lemma EntriesCount(es: Entries, os: seq<WarmthObject>)
    requires WrittenEntries(es, os)
    ensures |es| == |os|
  {
  }

  lemma PayloadWritten(s: Snapshot, es: Entries)
    requires s.policy.FiniteNumbers() && |es| == |s.objects| < U32_LIMIT
    requires PutObjects(s.objects, 0, []) == Lay(EntriesTable(es), [])
    ensures PutPayload(s) == Lay(PayloadTable(s, es), [])
  {
    hide PutU32, PutU64, PutPolicy, GetPolicy, PutObjects, Lay, PayloadTable, PolicyTable, Finite;
    HeadLaid(s, es, []);
    var t6 := PutObjects(s.objects, 0, []);
    CountLaid(|s.objects|, t6);
    var t5 := PutU32(|s.objects| % U32_LIMIT, t6);
    PolicyBack(s.policy, t5);
    PolicyExact(PutPolicy(s.policy, t5), s.policy, t5);
    FourWords(s.epoch, s.warmthGen, s.depGen, s.policyGen, PutPolicy(s.policy, t5));
  }

  lemma CountLaid(n: nat, t: seq<Byte>)
    requires n < U32_LIMIT
    ensures PutU32(n % U32_LIMIT, t) == Lay([Num(4, n)], t)
  {
    hide PutU32, Lay;
    U32Exact(PutU32(n, t), n, t);
  }

  lemma FourWords(a: Word64, b: Word64, c: Word64, d: Word64, t: seq<Byte>)
    ensures PutU64(a, PutU64(b, PutU64(c, PutU64(d, t)))) ==
            Lay([Num(8, a)], Lay([Num(8, b)], Lay([Num(8, c)], Lay([Num(8, d)], t))))
  {
    hide PutU64, Lay;
    var t3 := PutU64(d, t);
    var t2 := PutU64(c, t3);
    var t1 := PutU64(b, t2);
    U64Exact(t3, d, t);
    U64Exact(t2, c, t3);
    U64Exact(t1, b, t2);
    U64Exact(PutU64(a, t1), a, t1);
  }
}
