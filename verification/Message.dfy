/** The byte grammars of the message payloads, and that each decoder inverts its encoder. */
module MessageGrammar {
  import opened Basics
  import opened WarmthObjects
  import opened Bytes
  import opened ObjectGrammar
  import opened MessageTypes

  const MAX_DEVICES: nat := 4096
  const MAX_ACTIONS: nat := 64
  const MAX_OBSERVED: nat := 4096
  const MAX_REPORTED: nat := 8192
  const MAX_COMMANDS: nat := 4096

  // ---- lists ----

  function PutTexts(ts: seq<Text>, i: nat, tail: seq<Byte>): seq<Byte>
    requires i <= |ts|
    decreases |ts| - i
  {
    if i == |ts| then tail else PutText(ts[i], PutTexts(ts, i + 1, tail))
  }

  function GetTexts(s: seq<Byte>, n: nat, done: seq<Text>): (r: Parsed<seq<Text>>)
    decreases n, |s|
  {
    if n == 0 then Got(done, s)
    else
      match GetText(s)
      case Fail => Fail
      case Got(t, s1) => GetTexts(s1, n - 1, done + [t])
  }

  function PutOctets(bs: seq<Byte>, i: nat, tail: seq<Byte>): seq<Byte>
    requires i <= |bs|
    decreases |bs| - i
  {
    if i == |bs| then tail else PutU8(bs[i], PutOctets(bs, i + 1, tail))
  }

  function GetOctets(s: seq<Byte>, n: nat, done: seq<Byte>): (r: Parsed<seq<Byte>>)
    decreases n, |s|
  {
    if n == 0 then Got(done, s)
    else
      match GetU8(s)
      case Fail => Fail
      case Got(b, s1) => GetOctets(s1, n - 1, done + [b])
  }

  function GetWireObjects(s: seq<Byte>, n: nat, done: seq<WarmthObject>): (r: Parsed<seq<WarmthObject>>)
    decreases n, |s|
  {
    if n == 0 then Got(done, s)
    else
      match WireObject(s)
      case Fail => Fail
      case Got(o, s1) => GetWireObjects(s1, n - 1, done + [o])
  }

  function PutCmd(c: WarmCmd, tail: seq<Byte>): seq<Byte> {
    PutId(c.obj, PutU8(c.action, PutU64(c.attempt, tail)))
  }

  function GetCmd(s: seq<Byte>): (r: Parsed<WarmCmd>) {
    match GetId(s)
    case Fail => Fail
    case Got(obj, s1) =>
    match GetU8(s1)
    case Fail => Fail
    case Got(action, s2) =>
    match GetU64(s2)
    case Fail => Fail
    case Got(attempt, s3) => Got(WarmCmd(obj, action, attempt), s3)
  }

  function PutCmds(cs: seq<WarmCmd>, i: nat, tail: seq<Byte>): seq<Byte>
    requires i <= |cs|
    decreases |cs| - i
  {
    if i == |cs| then tail else PutCmd(cs[i], PutCmds(cs, i + 1, tail))
  }

  function GetCmds(s: seq<Byte>, n: nat, done: seq<WarmCmd>): (r: Parsed<seq<WarmCmd>>)
    decreases n, |s|
  {
    if n == 0 then Got(done, s)
    else
      match GetCmd(s)
      case Fail => Fail
      case Got(c, s1) => GetCmds(s1, n - 1, done + [c])
  }

  // ---- payloads ----

  function PutDevices(h: Hello, tail: seq<Byte>): seq<Byte> {
    PutU32(|h.devices| % U32_LIMIT, PutTexts(h.devices, 0, tail))
  }

  function GetDevices(s: seq<Byte>): (r: Parsed<seq<Text>>) {
    match GetU32(s)
    case Fail => Fail
    case Got(n, s1) => if n > MAX_DEVICES then Fail else GetTexts(s1, n, [])
  }

  function PutActions(h: Hello, tail: seq<Byte>): seq<Byte> {
    PutU32(|h.actions| % U32_LIMIT, PutOctets(h.actions, 0, tail))
  }

  function GetActions(s: seq<Byte>): (r: Parsed<seq<Byte>>) {
    match GetU32(s)
    case Fail => Fail
    case Got(n, s1) => if n > MAX_ACTIONS then Fail else GetOctets(s1, n, [])
  }

  /** A counted list of objects; the cap is the message's own. */
  function PutCounted(os: seq<WarmthObject>, tail: seq<Byte>): seq<Byte> {
    PutU32(|os| % U32_LIMIT, PutObjects(os, 0, tail))
  }

  function GetCounted(s: seq<Byte>, cap: nat): (r: Parsed<seq<WarmthObject>>) {
    match GetU32(s)
    case Fail => Fail
    case Got(n, s1) => if n > cap then Fail else GetWireObjects(s1, n, [])
  }

  function PutHello(h: Hello, tail: seq<Byte>): seq<Byte> {
    PutU32(h.version, PutId(h.worker, PutId(h.boot, PutId(h.node, PutU64(h.epochGuess, PutText(h.backend,
      PutDevices(h, PutActions(h, PutCounted(h.observed, tail)))))))))
  }

  function GetHello(s: seq<Byte>): (r: Parsed<Hello>) {
    match GetU32(s)
    case Fail => Fail
    case Got(version, s1) =>
    match GetId(s1)
    case Fail => Fail
    case Got(worker, s2) =>
    match GetId(s2)
    case Fail => Fail
    case Got(boot, s3) =>
    match GetId(s3)
    case Fail => Fail
    case Got(node, s4) =>
    match GetU64(s4)
    case Fail => Fail
    case Got(epochGuess, s5) =>
    match GetText(s5)
    case Fail => Fail
    case Got(backend, s6) =>
    match GetDevices(s6)
    case Fail => Fail
    case Got(devices, s7) =>
    match GetActions(s7)
    case Fail => Fail
    case Got(actions, s8) =>
    match GetCounted(s8, MAX_OBSERVED)
    case Fail => Fail
    case Got(observed, s9) =>
    Got(Hello(version, worker, boot, node, epochGuess, backend, devices, actions, observed), s9)
  }

  function PutHelloAck(a: HelloAck, tail: seq<Byte>): seq<Byte> {
    PutU8(if a.accepted then 1 else 0, PutText(a.reason,
      PutU64(a.epoch, PutU64(a.warmthGen, PutU64(a.depGen, PutU64(a.policyGen, tail))))))
  }

  /** Any nonzero byte reads as accepted. */
  function GetHelloAck(s: seq<Byte>): (r: Parsed<HelloAck>) {
    match GetU8(s)
    case Fail => Fail
    case Got(accepted, s1) =>
    match GetText(s1)
    case Fail => Fail
    case Got(reason, s2) =>
    match GetU64(s2)
    case Fail => Fail
    case Got(epoch, s3) =>
    match GetU64(s3)
    case Fail => Fail
    case Got(warmthGen, s4) =>
    match GetU64(s4)
    case Fail => Fail
    case Got(depGen, s5) =>
    match GetU64(s5)
    case Fail => Fail
    case Got(policyGen, s6) =>
    Got(HelloAck(accepted != 0, reason, epoch, warmthGen, depGen, policyGen), s6)
  }

  function PutTag(t: Tag, tail: seq<Byte>): seq<Byte> {
    PutU64(t.epoch, PutU64(t.warmthGen, PutU64(t.depGen, tail)))
  }

  function GetTag(s: seq<Byte>): (r: Parsed<Tag>) {
    match GetU64(s)
    case Fail => Fail
    case Got(epoch, s1) =>
    match GetU64(s1)
    case Fail => Fail
    case Got(warmthGen, s2) =>
    match GetU64(s2)
    case Fail => Fail
    case Got(depGen, s3) => Got(Tag(epoch, warmthGen, depGen), s3)
  }

  function PutReport(p: Report, tail: seq<Byte>): seq<Byte> {
    PutId(p.boot, PutTag(p.tag, PutCounted(p.objects, tail)))
  }

  function GetReport(s: seq<Byte>): (r: Parsed<Report>) {
    match GetId(s)
    case Fail => Fail
    case Got(boot, s1) =>
    match GetTag(s1)
    case Fail => Fail
    case Got(tag, s2) =>
    match GetCounted(s2, MAX_REPORTED)
    case Fail => Fail
    case Got(objects, s3) => Got(Report(boot, tag, objects), s3)
  }

  function PutWarmTopic(t: WarmTopic, tail: seq<Byte>): seq<Byte> {
    PutU64(t.epoch, PutU64(t.warmthGen, PutU32(|t.cmds| % U32_LIMIT, PutCmds(t.cmds, 0, tail))))
  }

  function GetWarmTopic(s: seq<Byte>): (r: Parsed<WarmTopic>) {
    match GetU64(s)
    case Fail => Fail
    case Got(epoch, s1) =>
    match GetU64(s1)
    case Fail => Fail
    case Got(warmthGen, s2) =>
    match GetU32(s2)
    case Fail => Fail
    case Got(n, s3) =>
    if n > MAX_COMMANDS then Fail
    else
      match GetCmds(s3, n, [])
      case Fail => Fail
      case Got(cmds, s4) => Got(WarmTopic(epoch, warmthGen, cmds), s4)
  }

  function PutOutcome(r: WarmResult, tail: seq<Byte>): seq<Byte> {
    PutU8(if r.success then 1 else 0, PutU64(r.duration, PutU64(r.bytes, PutText(r.error, tail))))
  }

  function PutWarmResult(r: WarmResult, tail: seq<Byte>): seq<Byte> {
    PutId(r.boot, PutTag(r.tag, PutCmd(WarmCmd(r.obj, r.action, r.attempt), PutOutcome(r, tail))))
  }

  function GetWarmResult(s: seq<Byte>): (r: Parsed<WarmResult>) {
    match GetId(s)
    case Fail => Fail
    case Got(boot, s1) =>
    match GetTag(s1)
    case Fail => Fail
    case Got(tag, s2) =>
    match GetCmd(s2)
    case Fail => Fail
    case Got(c, s3) =>
    match GetU8(s3)
    case Fail => Fail
    case Got(success, s4) =>
    match GetU64(s4)
    case Fail => Fail
    case Got(duration, s5) =>
    match GetU64(s5)
    case Fail => Fail
    case Got(bytes, s6) =>
    match GetText(s6)
    case Fail => Fail
    case Got(error, s7) =>
    Got(WarmResult(boot, tag, c.obj, c.action, c.attempt, success != 0, duration, bytes, error), s7)
  }

  // ---- decoding inverts encoding ----

  predicate SizedTexts(ts: seq<Text>) {
    forall i :: 0 <= i < |ts| ==> |ts[i]| < U32_LIMIT
  }

  lemma {:induction false} TextsBack(ts: seq<Text>, i: nat, tail: seq<Byte>)
    requires i <= |ts| && SizedTexts(ts)
    ensures GetTexts(PutTexts(ts, i, tail), |ts| - i, ts[..i]) == Got(ts, tail)
    decreases |ts| - i
  {
    hide GetText, PutText;
    if i == |ts| {
      assert ts[..i] == ts;
    } else {
      TextsBack(ts, i + 1, tail);
      assert ts[..i + 1] == ts[..i] + [ts[i]];
    }
  }

  lemma {:induction false} OctetsBack(bs: seq<Byte>, i: nat, tail: seq<Byte>)
    requires i <= |bs|
    ensures GetOctets(PutOctets(bs, i, tail), |bs| - i, bs[..i]) == Got(bs, tail)
    decreases |bs| - i
  {
    hide GetU8, PutU8;
    if i == |bs| {
      assert bs[..i] == bs;
    } else {
      OctetsBack(bs, i + 1, tail);
      assert bs[..i + 1] == bs[..i] + [bs[i]];
    }
  }

  lemma {:induction false} WireObjectsBack(os: seq<WarmthObject>, i: nat, tail: seq<Byte>)
    requires i <= |os| && AllSized(os)
    ensures GetWireObjects(PutObjects(os, i, tail), |os| - i, NormAll(os[..i])) == Got(NormAll(os), tail)
    decreases |os| - i
  {
    hide WireObject, WireFields, PutObject, Norm, Sized;
    if i == |os| {
      assert os[..i] == os;
    } else {
      WireRoundTrip(os[i], PutObjects(os, i + 1, tail));
      assert os[..i + 1] == os[..i] + [os[i]];
      assert NormAll(os[..i + 1]) == NormAll(os[..i]) + [Norm(os[i])];
      WireObjectsBack(os, i + 1, tail);
    }
  }

  lemma CmdBack(c: WarmCmd, tail: seq<Byte>)
    ensures GetCmd(PutCmd(c, tail)) == Got(c, tail)
  {
    hide GetId, PutId, GetU8, PutU8, GetU64, PutU64;
  }

  lemma {:induction false} CmdsBack(cs: seq<WarmCmd>, i: nat, tail: seq<Byte>)
    requires i <= |cs|
    ensures GetCmds(PutCmds(cs, i, tail), |cs| - i, cs[..i]) == Got(cs, tail)
    decreases |cs| - i
  {
    hide GetCmd, PutCmd;
    if i == |cs| {
      assert cs[..i] == cs;
    } else {
      CmdsBack(cs, i + 1, tail);
      CmdBack(cs[i], PutCmds(cs, i + 1, tail));
      assert cs[..i + 1] == cs[..i] + [cs[i]];
    }
  }

  lemma CountedBack(os: seq<WarmthObject>, cap: nat, tail: seq<Byte>)
    requires AllSized(os) && |os| < U32_LIMIT
    ensures GetCounted(PutCounted(os, tail), cap) == if |os| <= cap then Got(NormAll(os), tail) else Fail
  {
    hide GetU32, PutU32, GetWireObjects, PutObjects, Norm, Sized;
    WireObjectsBack(os, 0, tail);
    assert os[..0] == [] && NormAll([]) == [];
  }

  lemma DevicesBack(h: Hello, tail: seq<Byte>)
    requires SizedTexts(h.devices) && |h.devices| < U32_LIMIT
    ensures GetDevices(PutDevices(h, tail)) == if |h.devices| <= MAX_DEVICES then Got(h.devices, tail) else Fail
  {
    hide GetU32, PutU32, GetTexts, PutTexts;
    TextsBack(h.devices, 0, tail);
    assert h.devices[..0] == [];
  }

  lemma ActionsBack(h: Hello, tail: seq<Byte>)
    requires |h.actions| < U32_LIMIT
    ensures GetActions(PutActions(h, tail)) == if |h.actions| <= MAX_ACTIONS then Got(h.actions, tail) else Fail
  {
    hide GetU32, PutU32, GetOctets, PutOctets;
    OctetsBack(h.actions, 0, tail);
    assert h.actions[..0] == [];
  }

  /** Lengths and counts that their 32-bit prefixes can express. */
  predicate SizedHello(h: Hello) {
    && |h.backend| < U32_LIMIT && SizedTexts(h.devices) && AllSized(h.observed)
    && |h.devices| < U32_LIMIT && |h.actions| < U32_LIMIT && |h.observed| < U32_LIMIT
  }

  /** A HELLO decodes to its normal form exactly when its three counts are within the caps. */
  lemma HelloBack(h: Hello, tail: seq<Byte>)
    requires SizedHello(h)
    ensures GetHello(PutHello(h, tail)) ==
      if |h.devices| <= MAX_DEVICES && |h.actions| <= MAX_ACTIONS && |h.observed| <= MAX_OBSERVED
      then Got(h.(observed := NormAll(h.observed)), tail) else Fail
  {
    hide GetU32, PutU32, GetU64, PutU64, GetId, PutId, GetText, PutText, SizedTexts, AllSized, Norm;
    hide GetDevices, PutDevices, GetActions, PutActions, GetCounted, PutCounted;
    var t2 := PutCounted(h.observed, tail);
    var t1 := PutActions(h, t2);
    CountedBack(h.observed, MAX_OBSERVED, tail);
    ActionsBack(h, t2);
    DevicesBack(h, t1);
  }

  lemma HelloAckBack(a: HelloAck, tail: seq<Byte>)
    requires |a.reason| < U32_LIMIT
    ensures GetHelloAck(PutHelloAck(a, tail)) == Got(a, tail)
  {
    hide GetU8, PutU8, GetU64, PutU64, GetText, PutText;
  }

  lemma TagBack(t: Tag, tail: seq<Byte>)
    ensures GetTag(PutTag(t, tail)) == Got(t, tail)
  {
    hide GetU64, PutU64;
  }

  lemma ReportBack(p: Report, tail: seq<Byte>)
    requires AllSized(p.objects) && |p.objects| < U32_LIMIT
    ensures GetReport(PutReport(p, tail)) ==
      if |p.objects| <= MAX_REPORTED then Got(p.(objects := NormAll(p.objects)), tail) else Fail
  {
    hide GetId, PutId, GetTag, PutTag, GetCounted, PutCounted, Norm, Sized;
    CountedBack(p.objects, MAX_REPORTED, tail);
    TagBack(p.tag, PutCounted(p.objects, tail));
  }

  lemma WarmTopicBack(t: WarmTopic, tail: seq<Byte>)
    requires |t.cmds| < U32_LIMIT
    ensures GetWarmTopic(PutWarmTopic(t, tail)) == if |t.cmds| <= MAX_COMMANDS then Got(t, tail) else Fail
  {
    hide GetU64, PutU64, GetU32, PutU32, GetCmds, PutCmds;
    CmdsBack(t.cmds, 0, tail);
    assert t.cmds[..0] == [];
  }

  lemma WarmResultBack(r: WarmResult, tail: seq<Byte>)
    requires |r.error| < U32_LIMIT
    ensures GetWarmResult(PutWarmResult(r, tail)) == Got(r, tail)
  {
    hide GetId, PutId, GetTag, PutTag, GetCmd, PutCmd, GetU8, PutU8, GetU64, PutU64, GetText, PutText;
    var t := PutOutcome(r, tail);
    CmdBack(WarmCmd(r.obj, r.action, r.attempt), t);
    TagBack(r.tag, PutCmd(WarmCmd(r.obj, r.action, r.attempt), t));
  }
}
