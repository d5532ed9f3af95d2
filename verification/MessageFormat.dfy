/** Frames and message payloads as tables of fields, and that each decoder accepts exactly its table. */
module MessageFormats {
  import opened Basics
  import opened Doubles
  import opened WarmthObjects
  import opened Bytes
  import opened ObjectGrammar
  import opened MessageTypes
  import opened MessageGrammar
  import opened Formats
  import S = SnapshotFormats
  import Frames
  import Crc32

  // ---- lists ----

  function TextsTable(xs: seq<Text>): Table
    decreases |xs|
  {
    if xs == [] then [] else Str(xs[0]) + TextsTable(xs[1..])
  }

  lemma TextsCons(x: Text, xs: seq<Text>, rest: seq<Byte>)
    ensures Lay(TextsTable([x] + xs), rest) == Lay(Str(x), Lay(TextsTable(xs), rest))
  {
    hide Lay, Str;
    assert ([x] + xs)[1..] == xs;
    LayAppend(Str(x), TextsTable(xs), rest);
  }

  lemma {:induction false} TextsRead(s: seq<Byte>, n: nat, done: seq<Text>)
    requires GetTexts(s, n, done).Got?
    ensures var r := GetTexts(s, n, done);
            |r.value| == |done| + n && done <= r.value && s == Lay(TextsTable(r.value[|done|..]), r.rest) && SizedTexts(r.value[|done|..])
    decreases n
  {
    hide GetText, Lay, Str;
    var r := GetTexts(s, n, done);
    if n == 0 {
      assert done[|done|..] == [];
      LayNone(s);
    } else {
      var x, s1 := GetText(s).value, GetText(s).rest;
      TextExact(s, x, s1);
      TextsRead(s1, n - 1, done + [x]);
      var more := r.value[|done| + 1..];
      assert r.value[|done|] == (done + [x])[|done|] == x;
      assert r.value[|done|..] == [x] + more;
      TextsCons(x, more, r.rest);
    }
  }

  lemma {:induction false} TextsLaid(xs: seq<Text>, done: seq<Text>, rest: seq<Byte>)
    requires SizedTexts(xs)
    ensures GetTexts(Lay(TextsTable(xs), rest), |xs|, done) == Got(done + xs, rest)
    decreases |xs|
  {
    hide GetText, Lay, Str;
    if xs == [] {
      LayNone(rest);
      assert done + xs == done;
    } else {
      var x, more := xs[0], xs[1..];
      assert xs == [x] + more;
      TextsCons(x, more, rest);
      TextExact(Lay(TextsTable(xs), rest), x, Lay(TextsTable(more), rest));
      TextsLaid(more, done + [x], rest);
      assert done + xs == done + [x] + more;
    }
  }

  lemma TextsExact(s: seq<Byte>, n: nat, xs: seq<Text>, rest: seq<Byte>)
    requires |xs| == n
    ensures GetTexts(s, n, []) == Got(xs, rest) <==> SizedTexts(xs) && s == Lay(TextsTable(xs), rest)
  {
    hide GetTexts, Lay;
    if GetTexts(s, n, []) == Got(xs, rest) {
      TextsRead(s, n, []);
      assert xs[0..] == xs;
    }
    if SizedTexts(xs) {
      TextsLaid(xs, [], rest);
      assert [] + xs == xs;
    }
  }

  function BytesTable(xs: seq<Byte>): Table
    decreases |xs|
  {
    if xs == [] then [] else [Num(1, xs[0])] + BytesTable(xs[1..])
  }

  lemma BytesCons(x: Byte, xs: seq<Byte>, rest: seq<Byte>)
    ensures Lay(BytesTable([x] + xs), rest) == Lay([Num(1, x)], Lay(BytesTable(xs), rest))
  {
    hide Lay;
    assert ([x] + xs)[1..] == xs;
    LayAppend([Num(1, x)], BytesTable(xs), rest);
  }

  lemma {:induction false} BytesRead(s: seq<Byte>, n: nat, done: seq<Byte>)
    requires GetOctets(s, n, done).Got?
    ensures var r := GetOctets(s, n, done);
            |r.value| == |done| + n && done <= r.value && s == Lay(BytesTable(r.value[|done|..]), r.rest)
    decreases n
  {
    hide GetU8, Lay;
    var r := GetOctets(s, n, done);
    if n == 0 {
      assert done[|done|..] == [];
      LayNone(s);
    } else {
      var x, s1 := GetU8(s).value, GetU8(s).rest;
      U8Exact(s, x, s1);
      BytesRead(s1, n - 1, done + [x]);
      var more := r.value[|done| + 1..];
      assert r.value[|done|] == (done + [x])[|done|] == x;
      assert r.value[|done|..] == [x] + more;
      BytesCons(x, more, r.rest);
    }
  }

  lemma {:induction false} BytesLaid(xs: seq<Byte>, done: seq<Byte>, rest: seq<Byte>)
    ensures GetOctets(Lay(BytesTable(xs), rest), |xs|, done) == Got(done + xs, rest)
    decreases |xs|
  {
    hide GetU8, Lay;
    if xs == [] {
      LayNone(rest);
      assert done + xs == done;
    } else {
      var x, more := xs[0], xs[1..];
      assert xs == [x] + more;
      BytesCons(x, more, rest);
      U8Exact(Lay(BytesTable(xs), rest), x, Lay(BytesTable(more), rest));
      BytesLaid(more, done + [x], rest);
      assert done + xs == done + [x] + more;
    }
  }

  lemma BytesExact(s: seq<Byte>, n: nat, xs: seq<Byte>, rest: seq<Byte>)
    requires |xs| == n
    ensures GetOctets(s, n, []) == Got(xs, rest) <==> s == Lay(BytesTable(xs), rest)
  {
    hide GetOctets, Lay;
    if GetOctets(s, n, []) == Got(xs, rest) {
      BytesRead(s, n, []);
      assert xs[0..] == xs;
    }
    if true {
      BytesLaid(xs, [], rest);
      assert [] + xs == xs;
    }
  }

  function CmdTable(c: WarmCmd): Table {
    [Num(16, c.obj), Num(1, c.action), Num(8, c.attempt)]
  }

  lemma CmdExact(s: seq<Byte>, c: WarmCmd, rest: seq<Byte>)
    ensures GetCmd(s) == Got(c, rest) <==> s == Lay(CmdTable(c), rest)
  {
    hide GetId, GetU8, GetU64, Lay;
    var f3 := [Num(8, c.attempt)];
    var f2 := [Num(1, c.action)] + f3;
    var f1 := [Num(16, c.obj)] + f2;
    assert CmdTable(c) == f1;
    var t3 := Lay(f3, rest);
    var t2 := Lay(f2, rest);
    LayAppend([Num(16, c.obj)], f2, rest);
    LayAppend([Num(1, c.action)], f3, rest);
    if GetCmd(s) == Got(c, rest) {
      var s1 := GetId(s).rest;
      IdExact(s, c.obj, s1);
      var s2 := GetU8(s1).rest;
      U8Exact(s1, c.action, s2);
      U64Exact(s2, c.attempt, rest);
    }
    if s == Lay(CmdTable(c), rest) {
      IdExact(s, c.obj, t2);
      U8Exact(t2, c.action, t3);
      U64Exact(t3, c.attempt, rest);
    }
  }

  function CmdsTable(xs: seq<WarmCmd>): Table
    decreases |xs|
  {
    if xs == [] then [] else CmdTable(xs[0]) + CmdsTable(xs[1..])
  }

  lemma CmdsCons(x: WarmCmd, xs: seq<WarmCmd>, rest: seq<Byte>)
    ensures Lay(CmdsTable([x] + xs), rest) == Lay(CmdTable(x), Lay(CmdsTable(xs), rest))
  {
    hide Lay, CmdTable;
    assert ([x] + xs)[1..] == xs;
    LayAppend(CmdTable(x), CmdsTable(xs), rest);
  }

  lemma {:induction false} CmdsRead(s: seq<Byte>, n: nat, done: seq<WarmCmd>)
    requires GetCmds(s, n, done).Got?
    ensures var r := GetCmds(s, n, done);
            |r.value| == |done| + n && done <= r.value && s == Lay(CmdsTable(r.value[|done|..]), r.rest)
    decreases n
  {
    hide GetCmd, Lay, CmdTable;
    var r := GetCmds(s, n, done);
    if n == 0 {
      assert done[|done|..] == [];
      LayNone(s);
    } else {
      var x, s1 := GetCmd(s).value, GetCmd(s).rest;
      CmdExact(s, x, s1);
      CmdsRead(s1, n - 1, done + [x]);
      var more := r.value[|done| + 1..];
      assert r.value[|done|] == (done + [x])[|done|] == x;
      assert r.value[|done|..] == [x] + more;
      CmdsCons(x, more, r.rest);
    }
  }

  lemma {:induction false} CmdsLaid(xs: seq<WarmCmd>, done: seq<WarmCmd>, rest: seq<Byte>)
    ensures GetCmds(Lay(CmdsTable(xs), rest), |xs|, done) == Got(done + xs, rest)
    decreases |xs|
  {
    hide GetCmd, Lay, CmdTable;
    if xs == [] {
      LayNone(rest);
      assert done + xs == done;
    } else {
      var x, more := xs[0], xs[1..];
      assert xs == [x] + more;
      CmdsCons(x, more, rest);
      CmdExact(Lay(CmdsTable(xs), rest), x, Lay(CmdsTable(more), rest));
      CmdsLaid(more, done + [x], rest);
      assert done + xs == done + [x] + more;
    }
  }

  lemma CmdsExact(s: seq<Byte>, n: nat, xs: seq<WarmCmd>, rest: seq<Byte>)
    requires |xs| == n
    ensures GetCmds(s, n, []) == Got(xs, rest) <==> s == Lay(CmdsTable(xs), rest)
  {
    hide GetCmds, Lay;
    if GetCmds(s, n, []) == Got(xs, rest) {
      CmdsRead(s, n, []);
      assert xs[0..] == xs;
    }
    if true {
      CmdsLaid(xs, [], rest);
      assert [] + xs == xs;
    }
  }

  lemma EntryRead(s: seq<Byte>) returns (e: Entry)
    requires WireObject(s).Got?
    ensures var r := WireObject(s);
            Proper(e) && r.value == e.o.Clamp() && s == Lay(ObjectTable(e.o, e.ps), r.rest) && r.rest == WireFields(s).rest
  {
    hide WireFields, Lay, ObjectTable, Lists, Sized, ClampUnit;
    var ps := ObjectRead(s);
    e := Entry(WireFields(s).value, ps);
  }

  lemma {:induction false} WireObjectsRead(s: seq<Byte>, n: nat, done: seq<WarmthObject>) returns (es: Entries)
    requires GetWireObjects(s, n, done).Got?
    ensures var r := GetWireObjects(s, n, done);
            |es| == n && AllProper(es) && r.value == done + Clamped(es) && s == Lay(EntriesTable(es), r.rest)
    decreases n
  {
    hide WireFields, Lay, ObjectTable, Lists, Sized, Clamped, ClampUnit, Proper, WireObject;
    var r := GetWireObjects(s, n, done);
    if n == 0 {
      es := [];
      LayNone(s);
      assert done + Clamped(es) == done;
    } else {
      var e := EntryRead(s);
      var more := WireObjectsRead(WireObject(s).rest, n - 1, done + [e.o.Clamp()]);
      es := [e] + more;
      OneEntry(e, more, r.rest);
      S.ClampedCons(e, more);
      assert done + [e.o.Clamp()] + Clamped(more) == done + Clamped(es);
    }
  }

  lemma {:induction false} WireObjectsLaid(es: Entries, done: seq<WarmthObject>, rest: seq<Byte>)
    requires AllProper(es)
    ensures GetWireObjects(Lay(EntriesTable(es), rest), |es|, done) == Got(done + Clamped(es), rest)
    decreases |es|
  {
    hide WireFields, Lay, ObjectTable, Lists, Sized;
    if es == [] {
      LayNone(rest);
      assert done + Clamped(es) == done;
    } else {
      var e, more := es[0], es[1..];
      assert es == [e] + more;
      OneEntry(e, more, rest);
      S.ClampedCons(e, more);
      assert done + [e.o.Clamp()] + Clamped(more) == done + Clamped(es);
      ObjectLaid(e.o, e.ps, Lay(EntriesTable(more), rest));
      WireObjectsLaid(more, done + [e.o.Clamp()], rest);
    }
  }

  /** A counted list of objects, in entries. */
  function CountedTable(es: Entries): Table {
    [Num(4, |es|)] + EntriesTable(es)
  }

  /** The entries stand for these objects, at most so many. */
  predicate Carries(es: Entries, os: seq<WarmthObject>, cap: nat) {
    os == Clamped(es) && AllProper(es) && |es| <= cap
  }

  lemma CountedRead(s: seq<Byte>, cap: nat) returns (es: Entries)
    requires GetCounted(s, cap).Got?
    ensures var r := GetCounted(s, cap); Carries(es, r.value, cap) && s == Lay(CountedTable(es), r.rest)
  {
    hide GetU32, GetWireObjects, Lay, EntriesTable, AllProper, Clamped;
    var n, s1 := GetU32(s).value, GetU32(s).rest;
    es := WireObjectsRead(s1, n, []);
    assert [] + Clamped(es) == Clamped(es);
    U32Exact(s, n, s1);
    LayAppend([Num(4, n)], EntriesTable(es), GetCounted(s, cap).rest);
  }

  lemma CountedLaid(es: Entries, os: seq<WarmthObject>, cap: nat, rest: seq<Byte>)
    requires Carries(es, os, cap) && cap < U32_LIMIT
    ensures GetCounted(Lay(CountedTable(es), rest), cap) == Got(os, rest)
  {
    hide GetU32, GetWireObjects, Lay, EntriesTable, AllProper, Clamped;
    WireObjectsLaid(es, [], rest);
    assert [] + Clamped(es) == Clamped(es);
    LayAppend([Num(4, |es|)], EntriesTable(es), rest);
    U32Exact(Lay(CountedTable(es), rest), |es|, Lay(EntriesTable(es), rest));
  }

  // ---- HELLO ----

  function DevicesTable(ts: seq<Text>): Table {
    [Num(4, |ts|)] + TextsTable(ts)
  }

  function ActionsTable(bs: seq<Byte>): Table {
    [Num(4, |bs|)] + BytesTable(bs)
  }

  lemma DevicesExact(s: seq<Byte>, ts: seq<Text>, rest: seq<Byte>)
    ensures GetDevices(s) == Got(ts, rest) <==> |ts| <= 4096 && SizedTexts(ts) && s == Lay(DevicesTable(ts), rest)
  {
    hide GetU32, GetTexts, Lay, TextsTable, SizedTexts;
    LayAppend([Num(4, |ts|)], TextsTable(ts), rest);
    var t := Lay(TextsTable(ts), rest);
    if GetDevices(s) == Got(ts, rest) {
      var n, s1 := GetU32(s).value, GetU32(s).rest;
      TextsRead(s1, n, []);
      TextsExact(s1, n, ts, rest);
      U32Exact(s, n, s1);
    }
    if |ts| <= 4096 {
      U32Exact(s, |ts|, t);
      TextsExact(t, |ts|, ts, rest);
    }
  }

  lemma ActionsExact(s: seq<Byte>, bs: seq<Byte>, rest: seq<Byte>)
    ensures GetActions(s) == Got(bs, rest) <==> |bs| <= 64 && s == Lay(ActionsTable(bs), rest)
  {
    hide GetU32, GetOctets, Lay, BytesTable;
    LayAppend([Num(4, |bs|)], BytesTable(bs), rest);
    var t := Lay(BytesTable(bs), rest);
    if GetActions(s) == Got(bs, rest) {
      var n, s1 := GetU32(s).value, GetU32(s).rest;
      BytesRead(s1, n, []);
      BytesExact(s1, n, bs, rest);
      U32Exact(s, n, s1);
    }
    if |bs| <= 64 {
      U32Exact(s, |bs|, t);
      BytesExact(t, |bs|, bs, rest);
    }
  }

  function HelloTable(h: Hello, es: Entries): Table {
    [Num(4, h.version), Num(16, h.worker), Num(16, h.boot), Num(16, h.node), Num(8, h.epochGuess)]
    + Str(h.backend) + DevicesTable(h.devices) + ActionsTable(h.actions) + CountedTable(es)
  }

  predicate HelloFits(h: Hello, es: Entries) {
    && Carries(es, h.observed, 4096)
    && |h.backend| < U32_LIMIT && |h.devices| <= 4096 && SizedTexts(h.devices) && |h.actions| <= 64
  }

  lemma HelloParts(h: Hello, es: Entries, rest: seq<Byte>)
    ensures Lay(HelloTable(h, es), rest) ==
      Lay([Num(4, h.version)], Lay([Num(16, h.worker)], Lay([Num(16, h.boot)], Lay([Num(16, h.node)],
        Lay([Num(8, h.epochGuess)], Lay(Str(h.backend), Lay(DevicesTable(h.devices), Lay(ActionsTable(h.actions),
        Lay(CountedTable(es), rest)))))))))
  {
    hide Lay, Str, DevicesTable, ActionsTable, CountedTable;
    var f8 := ActionsTable(h.actions) + CountedTable(es);
    var f7 := DevicesTable(h.devices) + f8;
    var f6 := Str(h.backend) + f7;
    var f5 := [Num(8, h.epochGuess)] + f6;
    var f4 := [Num(16, h.node)] + f5;
    var f3 := [Num(16, h.boot)] + f4;
    var f2 := [Num(16, h.worker)] + f3;
    assert HelloTable(h, es) == [Num(4, h.version)] + f2;
    LayAppend([Num(4, h.version)], f2, rest);
    LayAppend([Num(16, h.worker)], f3, rest);
    LayAppend([Num(16, h.boot)], f4, rest);
    LayAppend([Num(16, h.node)], f5, rest);
    LayAppend([Num(8, h.epochGuess)], f6, rest);
    LayAppend(Str(h.backend), f7, rest);
    LayAppend(DevicesTable(h.devices), f8, rest);
    LayAppend(ActionsTable(h.actions), CountedTable(es), rest);
  }

  lemma HelloRead(s: seq<Byte>) returns (es: Entries)
    requires GetHello(s).Got?
    ensures var r := GetHello(s); HelloFits(r.value, es) && s == Lay(HelloTable(r.value, es), r.rest)
  {
    hide GetU32, GetId, GetU64, GetText, GetDevices, GetActions, GetCounted, Lay, HelloTable, Carries, SizedTexts;
    var h, rest := GetHello(s).value, GetHello(s).rest;
    var s1 := GetU32(s).rest;
    var s2 := GetId(s1).rest;
    var s3 := GetId(s2).rest;
    var s4 := GetId(s3).rest;
    var s5 := GetU64(s4).rest;
    var s6 := GetText(s5).rest;
    var s7 := GetDevices(s6).rest;
    var s8 := GetActions(s7).rest;
    es := CountedRead(s8, MAX_OBSERVED);
    U32Exact(s, h.version, s1);
    IdExact(s1, h.worker, s2);
    IdExact(s2, h.boot, s3);
    IdExact(s3, h.node, s4);
    U64Exact(s4, h.epochGuess, s5);
    TextExact(s5, h.backend, s6);
    DevicesExact(s6, h.devices, s7);
    ActionsExact(s7, h.actions, s8);
    HelloParts(h, es, rest);
  }

  lemma HelloLaid(h: Hello, es: Entries, rest: seq<Byte>)
    requires HelloFits(h, es)
    ensures GetHello(Lay(HelloTable(h, es), rest)) == Got(h, rest)
  {
    hide GetU32, GetId, GetU64, GetText, GetDevices, GetActions, GetCounted, Lay, HelloTable, Carries, SizedTexts;
    HelloParts(h, es, rest);
    var t8 := Lay(CountedTable(es), rest);
    var t7 := Lay(ActionsTable(h.actions), t8);
    var t6 := Lay(DevicesTable(h.devices), t7);
    var t5 := Lay(Str(h.backend), t6);
    var t4 := Lay([Num(8, h.epochGuess)], t5);
    var t3 := Lay([Num(16, h.node)], t4);
    var t2 := Lay([Num(16, h.boot)], t3);
    var t1 := Lay([Num(16, h.worker)], t2);
    U32Exact(Lay([Num(4, h.version)], t1), h.version, t1);
    IdExact(t1, h.worker, t2);
    IdExact(t2, h.boot, t3);
    IdExact(t3, h.node, t4);
    U64Exact(t4, h.epochGuess, t5);
    TextExact(t5, h.backend, t6);
    DevicesExact(t6, h.devices, t7);
    ActionsExact(t7, h.actions, t8);
    CountedLaid(es, h.observed, MAX_OBSERVED, rest);
  }

  /** The HELLO decoder, exactly. */
  lemma HelloExact(s: seq<Byte>, h: Hello, rest: seq<Byte>)
    ensures GetHello(s) == Got(h, rest) <==> exists es :: HelloFits(h, es) && s == Lay(HelloTable(h, es), rest)
  {
    hide GetHello, Lay, HelloTable, HelloFits;
    if GetHello(s) == Got(h, rest) {
      var es := HelloRead(s);
    }
    forall es | HelloFits(h, es) && s == Lay(HelloTable(h, es), rest) ensures GetHello(s) == Got(h, rest) {
      HelloLaid(h, es, rest);
    }
  }

  // ---- HELLO_ACK ----

  /** The acceptance byte b counts as true unless it is zero. */
  function AckTable(a: HelloAck, b: Byte): Table {
    [Num(1, b)] + Str(a.reason) + [Num(8, a.epoch), Num(8, a.warmthGen), Num(8, a.depGen), Num(8, a.policyGen)]
  }

  lemma AckExactParts(a: HelloAck, b: Byte, rest: seq<Byte>)
    ensures Lay(AckTable(a, b), rest) ==
      Lay([Num(1, b)], Lay(Str(a.reason), Lay([Num(8, a.epoch)], Lay([Num(8, a.warmthGen)], Lay([Num(8, a.depGen)], Lay([Num(8, a.policyGen)], rest))))))
  {
    hide Lay, Str, Octets;
    var f6 := [Num(8, a.policyGen)];
    var f5 := [Num(8, a.depGen)] + f6;
    var f4 := [Num(8, a.warmthGen)] + f5;
    var f3 := [Num(8, a.epoch)] + f4;
    var f2 := Str(a.reason) + f3;
    var f1 := [Num(1, b)] + f2;
    assert AckTable(a, b) == f1;
    LayAppend([Num(1, b)], f2, rest);
    LayAppend(Str(a.reason), f3, rest);
    LayAppend([Num(8, a.epoch)], f4, rest);
    LayAppend([Num(8, a.warmthGen)], f5, rest);
    LayAppend([Num(8, a.depGen)], f6, rest);
  }

  lemma AckExact(s: seq<Byte>, a: HelloAck, rest: seq<Byte>)
    ensures GetHelloAck(s) == Got(a, rest) <==>
              |a.reason| < U32_LIMIT && exists b: Byte :: (b != 0 <==> a.accepted) && s == Lay(AckTable(a, b), rest)
  {
    hide GetU8, GetText, GetU64, Lay, AckTable;
    if GetHelloAck(s) == Got(a, rest) {
      var b := GetU8(s).value;
      var s1 := GetU8(s).rest;
      U8Exact(s, b, s1);
      var s2 := GetText(s1).rest;
      TextExact(s1, a.reason, s2);
      var s3 := GetU64(s2).rest;
      U64Exact(s2, a.epoch, s3);
      var s4 := GetU64(s3).rest;
      U64Exact(s3, a.warmthGen, s4);
      var s5 := GetU64(s4).rest;
      U64Exact(s4, a.depGen, s5);
      U64Exact(s5, a.policyGen, rest);
      AckExactParts(a, b, rest);
    }
    if |a.reason| < U32_LIMIT {
      forall b: Byte | (b != 0 <==> a.accepted) && s == Lay(AckTable(a, b), rest) ensures GetHelloAck(s) == Got(a, rest) {
        AckExactParts(a, b, rest);
        var t6 := Lay([Num(8, a.policyGen)], rest);
        var t5 := Lay([Num(8, a.depGen)], t6);
        var t4 := Lay([Num(8, a.warmthGen)], t5);
        var t3 := Lay([Num(8, a.epoch)], t4);
        var t2 := Lay(Str(a.reason), t3);
        U8Exact(s, b, t2);
        TextExact(t2, a.reason, t3);
        U64Exact(t3, a.epoch, t4);
        U64Exact(t4, a.warmthGen, t5);
        U64Exact(t5, a.depGen, t6);
        U64Exact(t6, a.policyGen, rest);
      }
    }
  }

  // ---- REPORT, WARM_TOPIC and WARM_RESULT ----

  function TagTable(t: Tag): Table {
    [Num(8, t.epoch), Num(8, t.warmthGen), Num(8, t.depGen)]
  }

  lemma TagExact(s: seq<Byte>, t: Tag, rest: seq<Byte>)
    ensures GetTag(s) == Got(t, rest) <==> s == Lay(TagTable(t), rest)
  {
    hide GetU64, Lay;
    var f3 := [Num(8, t.depGen)];
    var f2 := [Num(8, t.warmthGen)] + f3;
    var f1 := [Num(8, t.epoch)] + f2;
    assert TagTable(t) == f1;
    var t3 := Lay(f3, rest);
    var t2 := Lay(f2, rest);
    LayAppend([Num(8, t.epoch)], f2, rest);
    LayAppend([Num(8, t.warmthGen)], f3, rest);
    if GetTag(s) == Got(t, rest) {
      var s1 := GetU64(s).rest;
      U64Exact(s, t.epoch, s1);
      var s2 := GetU64(s1).rest;
      U64Exact(s1, t.warmthGen, s2);
      U64Exact(s2, t.depGen, rest);
    }
    if s == Lay(TagTable(t), rest) {
      U64Exact(s, t.epoch, t2);
      U64Exact(t2, t.warmthGen, t3);
      U64Exact(t3, t.depGen, rest);
    }
  }

  function ReportTable(p: Report, es: Entries): Table {
    [Num(16, p.boot)] + TagTable(p.tag) + CountedTable(es)
  }

  lemma ReportParts(p: Report, es: Entries, rest: seq<Byte>)
    ensures Lay(ReportTable(p, es), rest) == Lay([Num(16, p.boot)], Lay(TagTable(p.tag), Lay(CountedTable(es), rest)))
  {
    hide Lay, TagTable, CountedTable;
    var f2 := TagTable(p.tag) + CountedTable(es);
    assert ReportTable(p, es) == [Num(16, p.boot)] + f2;
    LayAppend([Num(16, p.boot)], f2, rest);
    LayAppend(TagTable(p.tag), CountedTable(es), rest);
  }

  lemma ReportRead(s: seq<Byte>) returns (es: Entries)
    requires GetReport(s).Got?
    ensures var r := GetReport(s); Carries(es, r.value.objects, 8192) && s == Lay(ReportTable(r.value, es), r.rest)
  {
    hide GetId, GetTag, GetCounted, Lay, ReportTable, Carries;
    var p, rest := GetReport(s).value, GetReport(s).rest;
    var s1 := GetId(s).rest;
    var s2 := GetTag(s1).rest;
    es := CountedRead(s2, MAX_REPORTED);
    IdExact(s, p.boot, s1);
    TagExact(s1, p.tag, s2);
    ReportParts(p, es, rest);
  }

  lemma ReportLaid(p: Report, es: Entries, rest: seq<Byte>)
    requires Carries(es, p.objects, 8192)
    ensures GetReport(Lay(ReportTable(p, es), rest)) == Got(p, rest)
  {
    hide GetId, GetTag, GetCounted, Lay, ReportTable, Carries;
    ReportParts(p, es, rest);
    var t2 := Lay(CountedTable(es), rest);
    var t1 := Lay(TagTable(p.tag), t2);
    IdExact(Lay([Num(16, p.boot)], t1), p.boot, t1);
    TagExact(t1, p.tag, t2);
    CountedLaid(es, p.objects, MAX_REPORTED, rest);
  }

  /** The REPORT decoder, exactly. */
  lemma ReportExact(s: seq<Byte>, p: Report, rest: seq<Byte>)
    ensures GetReport(s) == Got(p, rest) <==>
              exists es :: Carries(es, p.objects, 8192) && s == Lay(ReportTable(p, es), rest)
  {
    hide GetReport, Lay, ReportTable, Carries;
    if GetReport(s) == Got(p, rest) {
      var es := ReportRead(s);
    }
    forall es | Carries(es, p.objects, 8192) && s == Lay(ReportTable(p, es), rest) ensures GetReport(s) == Got(p, rest) {
      ReportLaid(p, es, rest);
    }
  }

  function TopicTable(t: WarmTopic): Table {
    [Num(8, t.epoch), Num(8, t.warmthGen), Num(4, |t.cmds|)] + CmdsTable(t.cmds)
  }

  lemma TopicParts(t: WarmTopic, rest: seq<Byte>)
    ensures Lay(TopicTable(t), rest) ==
      Lay([Num(8, t.epoch)], Lay([Num(8, t.warmthGen)], Lay([Num(4, |t.cmds|)], Lay(CmdsTable(t.cmds), rest))))
  {
    hide Lay, CmdsTable;
    var f3 := [Num(4, |t.cmds|)] + CmdsTable(t.cmds);
    var f2 := [Num(8, t.warmthGen)] + f3;
    assert TopicTable(t) == [Num(8, t.epoch)] + f2;
    LayAppend([Num(8, t.epoch)], f2, rest);
    LayAppend([Num(8, t.warmthGen)], f3, rest);
    LayAppend([Num(4, |t.cmds|)], CmdsTable(t.cmds), rest);
  }

  /** The WARM_TOPIC decoder, exactly. */
  lemma TopicExact(s: seq<Byte>, t: WarmTopic, rest: seq<Byte>)
    ensures GetWarmTopic(s) == Got(t, rest) <==> |t.cmds| <= 4096 && s == Lay(TopicTable(t), rest)
  {
    hide GetU64, GetU32, GetCmds, Lay, TopicTable;
    TopicParts(t, rest);
    if GetWarmTopic(s) == Got(t, rest) {
      var s1 := GetU64(s).rest;
      var s2 := GetU64(s1).rest;
      var n, s3 := GetU32(s2).value, GetU32(s2).rest;
      CmdsRead(s3, n, []);
      CmdsExact(s3, n, t.cmds, rest);
      U64Exact(s, t.epoch, s1);
      U64Exact(s1, t.warmthGen, s2);
      U32Exact(s2, n, s3);
    }
    if |t.cmds| <= 4096 && s == Lay(TopicTable(t), rest) {
      var t3 := Lay(CmdsTable(t.cmds), rest);
      var t2 := Lay([Num(4, |t.cmds|)], t3);
      var t1 := Lay([Num(8, t.warmthGen)], t2);
      U64Exact(s, t.epoch, t1);
      U64Exact(t1, t.warmthGen, t2);
      U32Exact(t2, |t.cmds|, t3);
      CmdsExact(t3, |t.cmds|, t.cmds, rest);
    }
  }

  /** The success byte b counts as true unless it is zero. */
  function ResultTable(r: WarmResult, b: Byte): Table {
    [Num(16, r.boot)] + TagTable(r.tag) + [Num(16, r.obj), Num(1, r.action), Num(8, r.attempt)]
    + [Num(1, b), Num(8, r.duration), Num(8, r.bytes)] + Str(r.error)
  }

  function CmdOf(r: WarmResult): WarmCmd {
    WarmCmd(r.obj, r.action, r.attempt)
  }

  lemma ResultExactParts(r: WarmResult, b: Byte, rest: seq<Byte>)
    ensures Lay(ResultTable(r, b), rest) ==
      Lay([Num(16, r.boot)], Lay(TagTable(r.tag), Lay(CmdTable(CmdOf(r)), Lay([Num(1, b)], Lay([Num(8, r.duration)], Lay([Num(8, r.bytes)], Lay(Str(r.error), rest)))))))
  {
    hide Lay, Str, TagTable;
    var f7 := Str(r.error);
    var f6 := [Num(8, r.bytes)] + f7;
    var f5 := [Num(8, r.duration)] + f6;
    var f4 := [Num(1, b)] + f5;
    var f3 := CmdTable(CmdOf(r)) + f4;
    var f2 := TagTable(r.tag) + f3;
    var f1 := [Num(16, r.boot)] + f2;
    assert ResultTable(r, b) == f1;
    LayAppend([Num(16, r.boot)], f2, rest);
    LayAppend(TagTable(r.tag), f3, rest);
    LayAppend(CmdTable(CmdOf(r)), f4, rest);
    LayAppend([Num(1, b)], f5, rest);
    LayAppend([Num(8, r.duration)], f6, rest);
    LayAppend([Num(8, r.bytes)], f7, rest);
  }

  lemma ResultExact(s: seq<Byte>, r: WarmResult, rest: seq<Byte>)
    ensures GetWarmResult(s) == Got(r, rest) <==>
              |r.error| < U32_LIMIT && exists b: Byte :: (b != 0 <==> r.success) && s == Lay(ResultTable(r, b), rest)
  {
    hide GetId, GetTag, GetCmd, GetU8, GetU64, GetText, Lay, TagTable, ResultTable;
    if GetWarmResult(s) == Got(r, rest) {
      var s1 := GetId(s).rest;
      IdExact(s, r.boot, s1);
      var s2 := GetTag(s1).rest;
      TagExact(s1, r.tag, s2);
      var s3 := GetCmd(s2).rest;
      CmdExact(s2, CmdOf(r), s3);
      var b := GetU8(s3).value;
      var s4 := GetU8(s3).rest;
      U8Exact(s3, b, s4);
      var s5 := GetU64(s4).rest;
      U64Exact(s4, r.duration, s5);
      var s6 := GetU64(s5).rest;
      U64Exact(s5, r.bytes, s6);
      TextExact(s6, r.error, rest);
      ResultExactParts(r, b, rest);
    }
    if |r.error| < U32_LIMIT {
      forall b: Byte | (b != 0 <==> r.success) && s == Lay(ResultTable(r, b), rest) ensures GetWarmResult(s) == Got(r, rest) {
        ResultExactParts(r, b, rest);
        var t7 := Lay(Str(r.error), rest);
        var t6 := Lay([Num(8, r.bytes)], t7);
        var t5 := Lay([Num(8, r.duration)], t6);
        var t4 := Lay([Num(1, b)], t5);
        var t3 := Lay(CmdTable(CmdOf(r)), t4);
        var t2 := Lay(TagTable(r.tag), t3);
        IdExact(s, r.boot, t2);
        TagExact(t2, r.tag, t3);
        CmdExact(t3, CmdOf(r), t4);
        U8Exact(t4, b, t5);
        U64Exact(t5, r.duration, t6);
        U64Exact(t6, r.bytes, t7);
        TextExact(t7, r.error, rest);
      }
    }
  }

  // ---- what the encoders lay out ----

  lemma AckWritten(a: HelloAck, tail: seq<Byte>)
    requires |a.reason| < U32_LIMIT
    ensures PutHelloAck(a, tail) == Lay(AckTable(a, if a.accepted then 1 else 0), tail)
  {
    hide PutU8, PutText, PutU64, Lay, AckTable;
    var b: Byte := if a.accepted then 1 else 0;
    AckExactParts(a, b, tail);
    var t6 := PutU64(a.policyGen, tail);
    var t5 := PutU64(a.depGen, t6);
    var t4 := PutU64(a.warmthGen, t5);
    var t3 := PutU64(a.epoch, t4);
    var t2 := PutText(a.reason, t3);
    U64Exact(t6, a.policyGen, tail);
    U64Exact(t5, a.depGen, t6);
    U64Exact(t4, a.warmthGen, t5);
    U64Exact(t3, a.epoch, t4);
    TextExact(t2, a.reason, t3);
    U8Exact(PutU8(b, t2), b, t2);
  }

  lemma ResultWritten(r: WarmResult, tail: seq<Byte>)
    requires |r.error| < U32_LIMIT
    ensures PutWarmResult(r, tail) == Lay(ResultTable(r, if r.success then 1 else 0), tail)
  {
    hide PutU8, PutText, PutU64, PutId, PutTag, PutCmd, GetTag, GetCmd, Lay, ResultTable, TagTable, CmdTable;
    var b: Byte := if r.success then 1 else 0;
    ResultExactParts(r, b, tail);
    var t7 := PutText(r.error, tail);
    var t6 := PutU64(r.bytes, t7);
    var t5 := PutU64(r.duration, t6);
    var t4 := PutU8(b, t5);
    var t3 := PutCmd(CmdOf(r), t4);
    var t2 := PutTag(r.tag, t3);
    TextExact(t7, r.error, tail);
    U64Exact(t6, r.bytes, t7);
    U64Exact(t5, r.duration, t6);
    U8Exact(t4, b, t5);
    CmdBack(CmdOf(r), t4);
    CmdExact(t3, CmdOf(r), t4);
    TagBack(r.tag, t3);
    TagExact(t2, r.tag, t3);
    IdExact(PutId(r.boot, t2), r.boot, t2);
  }

  lemma TopicWritten(t: WarmTopic, tail: seq<Byte>)
    requires |t.cmds| <= 4096
    ensures PutWarmTopic(t, tail) == Lay(TopicTable(t), tail)
  {
    hide PutWarmTopic, GetWarmTopic, Lay, TopicTable;
    WarmTopicBack(t, tail);
    TopicExact(PutWarmTopic(t, tail), t, tail);
  }

  lemma CountedWritten(os: seq<WarmthObject>, tail: seq<Byte>) returns (es: Entries)
    requires AllSized(os) && |os| < U32_LIMIT
    ensures S.WrittenEntries(es, os) && PutCounted(os, tail) == Lay(CountedTable(es), tail)
  {
    hide PutU32, PutObjects, Lay, EntriesTable, S.WrittenEntries;
    es := S.ObjectsWritten(os, 0, tail);
    assert os[0..] == os;
    S.EntriesCount(es, os);
    LayAppend([Num(4, |es|)], EntriesTable(es), tail);
    S.CountLaid(|os|, PutObjects(os, 0, tail));
  }

  lemma ReportWritten(p: Report, tail: seq<Byte>) returns (es: Entries)
    requires AllSized(p.objects) && |p.objects| < U32_LIMIT
    ensures S.WrittenEntries(es, p.objects) && PutReport(p, tail) == Lay(ReportTable(p, es), tail)
  {
    hide PutId, PutTag, GetTag, PutCounted, Lay, TagTable, CountedTable, ReportTable, S.WrittenEntries, AllSized;
    es := CountedWritten(p.objects, tail);
    var t2 := PutCounted(p.objects, tail);
    var t1 := PutTag(p.tag, t2);
    TagBack(p.tag, t2);
    TagExact(t1, p.tag, t2);
    IdExact(PutId(p.boot, t1), p.boot, t1);
    ReportParts(p, es, tail);
  }

  lemma HelloWritten(h: Hello, tail: seq<Byte>) returns (es: Entries)
    requires SizedHello(h) && |h.devices| <= 4096 && |h.actions| <= 64
    ensures S.WrittenEntries(es, h.observed) && PutHello(h, tail) == Lay(HelloTable(h, es), tail)
  {
    hide PutU32, PutId, PutU64, PutText, PutDevices, PutActions, PutCounted, GetDevices, GetActions, Lay, HelloTable;
    hide S.WrittenEntries, AllSized, SizedTexts, DevicesTable, ActionsTable, CountedTable;
    es := CountedWritten(h.observed, tail);
    HelloParts(h, es, tail);
    var t8 := PutCounted(h.observed, tail);
    var t7 := PutActions(h, t8);
    var t6 := PutDevices(h, t7);
    var t5 := PutText(h.backend, t6);
    ActionsBack(h, t8);
    ActionsExact(t7, h.actions, t8);
    DevicesBack(h, t7);
    DevicesExact(t6, h.devices, t7);
    TextExact(t5, h.backend, t6);
    HelloHead(h, t5);
  }

  lemma HelloHead(h: Hello, t: seq<Byte>)
    ensures PutU32(h.version, PutId(h.worker, PutId(h.boot, PutId(h.node, PutU64(h.epochGuess, t))))) ==
      Lay([Num(4, h.version)], Lay([Num(16, h.worker)], Lay([Num(16, h.boot)], Lay([Num(16, h.node)],
        Lay([Num(8, h.epochGuess)], t)))))
  {
    hide PutU32, PutId, PutU64, Lay;
    var t4 := PutU64(h.epochGuess, t);
    var t3 := PutId(h.node, t4);
    var t2 := PutId(h.boot, t3);
    var t1 := PutId(h.worker, t2);
    U64Exact(t4, h.epochGuess, t);
    IdExact(t3, h.node, t4);
    IdExact(t2, h.boot, t3);
    IdExact(t1, h.worker, t2);
    U32Exact(PutU32(h.version, t1), h.version, t1);
  }

  // ---- frames ----

  const FRAME_MAGIC: seq<Byte> := [0x57, 0x46, 0x52, 0x4D]

  /** A frame: "WFRM", version 1, flags, the type in two bytes, the size, the payload, its CRC-32. */
  function FrameTable(f: Frames.Frame): Table {
    [Raw(FRAME_MAGIC)] + [Num(1, 1), Num(1, f.flags)] + [Num(2, f.kind), Num(4, |f.payload|)]
    + [Raw(f.payload), Num(4, Crc32.Checksum(f.payload))]
  }

  lemma FrameMagic()
    ensures Octets(Frames.MAGIC, 4) == FRAME_MAGIC
  {
    Widths();
    assert Pow256(3) == 0x100_0000 && Pow256(2) == 0x1_0000 && Pow256(1) == 0x100 && Pow256(0) == 1;
  }

  lemma KindOctets(k: Byte)
    ensures Octets(k, 2) == [0, k]
  {
    assert Pow256(1) == 0x100 && Pow256(0) == 1;
  }

  lemma FrameEnd(f: Frames.Frame, tail: seq<Byte>)
    requires |f.payload| <= 16 * 1024 * 1024
    ensures Lay([Raw(f.payload), Num(4, Crc32.Checksum(f.payload))], tail)
         == f.payload + PutU32(Crc32.Checksum(f.payload), tail)
  {
    hide PutU32, Lay, Octets, Crc32.Checksum;
    var sum := Crc32.Checksum(f.payload);
    LayTwo(Raw(f.payload), Num(4, sum), tail);
    U32Exact(PutU32(sum, tail), sum, tail);
    LayOne(Num(4, sum), tail);
  }

  lemma FrameMiddle(f: Frames.Frame, t: seq<Byte>)
    requires |f.payload| <= 16 * 1024 * 1024
    ensures Lay([Num(2, f.kind), Num(4, |f.payload|)], t) == PutU8(0, PutU8(f.kind, PutU32(|f.payload|, t)))
  {
    hide PutU32, Lay, Octets;
    LayTwo(Num(2, f.kind), Num(4, |f.payload|), t);
    KindOctets(f.kind);
    U32Exact(PutU32(|f.payload|, t), |f.payload|, t);
    LayOne(Num(4, |f.payload|), t);
  }

  lemma FrameStart(f: Frames.Frame, t: seq<Byte>)
    ensures Lay([Raw(FRAME_MAGIC)], Lay([Num(1, 1), Num(1, f.flags)], t)) == PutU32(Frames.MAGIC, PutU8(1, PutU8(f.flags, t)))
  {
    hide PutU32, PutU8, Lay, Octets;
    var t2 := PutU8(f.flags, t);
    var t1 := PutU8(1, t2);
    LayTwo(Num(1, 1), Num(1, f.flags), t);
    LayOne(Num(1, f.flags), t);
    LayOne(Num(1, 1), t2);
    U8Exact(t2, f.flags, t);
    U8Exact(t1, 1, t2);
    FrameMagic();
    LayOne(Raw(FRAME_MAGIC), t1);
    LayOne(Num(4, Frames.MAGIC), t1);
    U32Exact(PutU32(Frames.MAGIC, t1), Frames.MAGIC, t1);
  }

  lemma FrameWritten(f: Frames.Frame, tail: seq<Byte>)
    requires |f.payload| <= 16 * 1024 * 1024
    ensures Frames.PutFrame(f, tail) == Lay(FrameTable(f), tail)
  {
    hide PutU32, PutU8, Lay, Crc32.Checksum;
    var f4 := [Raw(f.payload), Num(4, Crc32.Checksum(f.payload))];
    var f3 := [Num(2, f.kind), Num(4, |f.payload|)] + f4;
    var f2 := [Num(1, 1), Num(1, f.flags)] + f3;
    assert FrameTable(f) == [Raw(FRAME_MAGIC)] + f2;
    LayAppend([Raw(FRAME_MAGIC)], f2, tail);
    LayAppend([Num(1, 1), Num(1, f.flags)], f3, tail);
    LayAppend([Num(2, f.kind), Num(4, |f.payload|)], f4, tail);
    FrameEnd(f, tail);
    FrameMiddle(f, Lay(f4, tail));
    FrameStart(f, Lay(f3, tail));
  }

  /** The frame reader, exactly: a stream yields this frame and this rest iff it is the frame's table followed by
      the rest, and the payload is at most 16 MiB. */
  lemma FrameExact(s: seq<Byte>, f: Frames.Frame, rest: seq<Byte>)
    ensures Frames.GetFrame(s) == Got(f, rest) <==> |f.payload| <= 16 * 1024 * 1024 && s == Lay(FrameTable(f), rest)
  {
    hide Frames.GetFrame, Frames.PutFrame, Lay, FrameTable;
    if Frames.GetFrame(s) == Got(f, rest) {
      Frames.OnlyWrittenFrames(s);
      FrameWritten(f, rest);
    }
    if |f.payload| <= 16 * 1024 * 1024 {
      Frames.FrameBack(f, rest);
      FrameWritten(f, rest);
    }
  }
}
