/** The message encoders and decoders as cursors and loops. */
module MessageCodec {
  import opened Basics
  import opened WarmthObjects
  import opened Bytes
  import opened ObjectGrammar
  import opened MessageTypes
  import opened MessageGrammar
  import C = ObjectCodec

  // ---- encoders ----

  method EncodeTexts(w: ByteWriter, ts: seq<Text>)
    modifies w
    ensures forall tail :: w.buf + tail == old(w.buf) + PutTexts(ts, 0, tail)
  {
    hide PutText;
    for i := 0 to |ts|
      invariant forall tail :: w.buf + PutTexts(ts, i, tail) == old(w.buf) + PutTexts(ts, 0, tail)
    {
      w.Str(ts[i]);
    }
  }

  method EncodeOctets(w: ByteWriter, bs: seq<Byte>)
    modifies w
    ensures forall tail :: w.buf + tail == old(w.buf) + PutOctets(bs, 0, tail)
  {
    hide PutU8;
    for i := 0 to |bs|
      invariant forall tail :: w.buf + PutOctets(bs, i, tail) == old(w.buf) + PutOctets(bs, 0, tail)
    {
      w.U8(bs[i]);
    }
  }

  method EncodeCounted(w: ByteWriter, os: seq<WarmthObject>)
    modifies w
    ensures forall tail :: w.buf + tail == old(w.buf) + PutCounted(os, tail)
  {
    hide PutU32, PutObject;
    w.U32(|os| % U32_LIMIT);
    for i := 0 to |os|
      invariant forall tail :: w.buf + PutObjects(os, i, tail) == old(w.buf) + PutCounted(os, tail)
    {
      C.EncodeObject(w, os[i]);
    }
  }

  method EncodeCmd(w: ByteWriter, c: WarmCmd)
    modifies w
    ensures forall tail :: w.buf + tail == old(w.buf) + PutCmd(c, tail)
  {
    hide PutId, PutU8, PutU64;
    w.Id(c.obj);
    w.U8(c.action);
    w.U64(c.attempt);
  }

  method EncodeTag(w: ByteWriter, t: Tag)
    modifies w
    ensures forall tail :: w.buf + tail == old(w.buf) + PutTag(t, tail)
  {
    hide PutU64;
    w.U64(t.epoch);
    w.U64(t.warmthGen);
    w.U64(t.depGen);
  }

  method EncodeHello(w: ByteWriter, h: Hello)
    modifies w
    ensures forall tail :: w.buf + tail == old(w.buf) + PutHello(h, tail)
  {
    hide PutU32, PutU64, PutId, PutText, PutTexts, PutOctets, PutCounted;
    w.U32(h.version);
    w.Id(h.worker);
    w.Id(h.boot);
    w.Id(h.node);
    w.U64(h.epochGuess);
    w.Str(h.backend);
    w.U32(|h.devices| % U32_LIMIT);
    EncodeTexts(w, h.devices);
    w.U32(|h.actions| % U32_LIMIT);
    EncodeOctets(w, h.actions);
    EncodeCounted(w, h.observed);
  }

  method EncodeHelloAck(w: ByteWriter, a: HelloAck)
    modifies w
    ensures forall tail :: w.buf + tail == old(w.buf) + PutHelloAck(a, tail)
  {
    hide PutU8, PutU64, PutText;
    w.U8(if a.accepted then 1 else 0);
    w.Str(a.reason);
    w.U64(a.epoch);
    w.U64(a.warmthGen);
    w.U64(a.depGen);
    w.U64(a.policyGen);
  }

  method EncodeReport(w: ByteWriter, p: Report)
    modifies w
    ensures forall tail :: w.buf + tail == old(w.buf) + PutReport(p, tail)
  {
    hide PutId, PutTag, PutCounted;
    w.Id(p.boot);
    EncodeTag(w, p.tag);
    EncodeCounted(w, p.objects);
  }

  method EncodeCmds(w: ByteWriter, cs: seq<WarmCmd>)
    modifies w
    ensures forall tail :: w.buf + tail == old(w.buf) + PutCmds(cs, 0, tail)
  {
    hide PutCmd;
    for i := 0 to |cs|
      invariant forall tail :: w.buf + PutCmds(cs, i, tail) == old(w.buf) + PutCmds(cs, 0, tail)
    {
      EncodeCmd(w, cs[i]);
    }
  }

  method EncodeWarmTopic(w: ByteWriter, t: WarmTopic)
    modifies w
    ensures forall tail :: w.buf + tail == old(w.buf) + PutWarmTopic(t, tail)
  {
    hide PutU32, PutU64, PutCmds;
    w.U64(t.epoch);
    w.U64(t.warmthGen);
    w.U32(|t.cmds| % U32_LIMIT);
    EncodeCmds(w, t.cmds);
  }

  method EncodeWarmResult(w: ByteWriter, r: WarmResult)
    modifies w
    ensures forall tail :: w.buf + tail == old(w.buf) + PutWarmResult(r, tail)
  {
    hide PutU8, PutU64, PutText, PutId, PutTag, PutCmd;
    w.Id(r.boot);
    EncodeTag(w, r.tag);
    EncodeCmd(w, WarmCmd(r.obj, r.action, r.attempt));
    w.U8(if r.success then 1 else 0);
    w.U64(r.duration);
    w.U64(r.bytes);
    w.Str(r.error);
  }

  // ---- decoders ----

  method DecodeTexts(r: ByteReader, n: nat) returns (ok: bool, ts: seq<Text>)
    requires r.Valid()
    modifies r
    ensures r.Valid() && Agrees(ok, ts, r.Rest(), GetTexts(old(r.Rest()), n, []))
  {
    hide GetText;
    ts := [];
    for i := 0 to n
      invariant r.Valid()
      invariant GetTexts(r.Rest(), n - i, ts) == GetTexts(old(r.Rest()), n, [])
    {
      var t: Text;
      ok, t := r.Str();
      if !ok {
        return;
      }
      ts := ts + [t];
    }
    ok := true;
  }

  method DecodeDevices(r: ByteReader) returns (ok: bool, devices: seq<Text>)
    requires r.Valid()
    modifies r
    ensures r.Valid() && Agrees(ok, devices, r.Rest(), GetDevices(old(r.Rest())))
  {
    hide GetU32, GetTexts;
    devices := [];
    var n: Word32;
    ok, n := r.U32();
    if !ok || n > MAX_DEVICES {
      return false, devices;
    }
    ok, devices := DecodeTexts(r, n);
  }

  method DecodeActions(r: ByteReader) returns (ok: bool, actions: seq<Byte>)
    requires r.Valid()
    modifies r
    ensures r.Valid() && Agrees(ok, actions, r.Rest(), GetActions(old(r.Rest())))
  {
    hide GetU32, GetU8;
    actions := [];
    var n: Word32;
    ok, n := r.U32();
    if !ok || n > MAX_ACTIONS {
      return false, actions;
    }
    ghost var start := r.Rest();
    for i := 0 to n
      invariant r.Valid()
      invariant GetOctets(r.Rest(), n - i, actions) == GetOctets(start, n, [])
    {
      var a: Byte;
      ok, a := r.U8();
      if !ok {
        return;
      }
      actions := actions + [a];
    }
    ok := true;
  }

  method DecodeCounted(r: ByteReader, cap: nat) returns (ok: bool, os: seq<WarmthObject>)
    requires r.Valid()
    modifies r
    ensures r.Valid() && Agrees(ok, os, r.Rest(), GetCounted(old(r.Rest()), cap))
  {
    hide GetU32, WireObject;
    os := [];
    var n: Word32;
    ok, n := r.U32();
    if !ok || n > cap {
      return false, os;
    }
    ghost var start := r.Rest();
    for i := 0 to n
      invariant r.Valid()
      invariant GetWireObjects(r.Rest(), n - i, os) == GetWireObjects(start, n, [])
    {
      var o: WarmthObject;
      ok, o := C.DecodeObject(r);
      if !ok {
        return;
      }
      os := os + [o];
    }
    ok := true;
  }

  method DecodeTag(r: ByteReader) returns (ok: bool, t: Tag)
    requires r.Valid()
    modifies r
    ensures r.Valid() && Agrees(ok, t, r.Rest(), GetTag(old(r.Rest())))
  {
    hide GetU64;
    t := Tag(0, 0, 0);
    var epoch, warmthGen, depGen: Word64;
    ok, epoch := r.U64();
    if !ok {
      return;
    }
    ok, warmthGen := r.U64();
    if !ok {
      return;
    }
    ok, depGen := r.U64();
    t := Tag(epoch, warmthGen, depGen);
  }

  method DecodeCmd(r: ByteReader) returns (ok: bool, c: WarmCmd)
    requires r.Valid()
    modifies r
    ensures r.Valid() && Agrees(ok, c, r.Rest(), GetCmd(old(r.Rest())))
  {
    hide GetId, GetU8, GetU64;
    c := WarmCmd(0, 0, 0);
    var obj: Id128;
    var action: Byte;
    var attempt: Word64;
    ok, obj := r.Id();
    if !ok {
      return;
    }
    ok, action := r.U8();
    if !ok {
      return;
    }
    ok, attempt := r.U64();
    c := WarmCmd(obj, action, attempt);
  }

  method DecodeHello(r: ByteReader) returns (ok: bool, h: Hello)
    requires r.Valid()
    modifies r
    ensures r.Valid() && Agrees(ok, h, r.Rest(), GetHello(old(r.Rest())))
  {
    hide GetU32, GetId, GetU64, GetText, GetDevices, GetActions, GetCounted;
    h := Hello(0, 0, 0, 0, 0, [], [], [], []);
    var version: Word32;
    var worker, boot, node: Id128;
    var epochGuess: Word64;
    var backend: Text;
    ok, version := r.U32();
    if !ok {
      return;
    }
    ok, worker := r.Id();
    if !ok {
      return;
    }
    ok, boot := r.Id();
    if !ok {
      return;
    }
    ok, node := r.Id();
    if !ok {
      return;
    }
    ok, epochGuess := r.U64();
    if !ok {
      return;
    }
    ok, backend := r.Str();
    if !ok {
      return;
    }
    var devices: seq<Text>;
    var actions: seq<Byte>;
    var observed: seq<WarmthObject>;
    ok, devices := DecodeDevices(r);
    if !ok {
      return;
    }
    ok, actions := DecodeActions(r);
    if !ok {
      return;
    }
    ok, observed := DecodeCounted(r, MAX_OBSERVED);
    h := Hello(version, worker, boot, node, epochGuess, backend, devices, actions, observed);
  }

  method DecodeHelloAck(r: ByteReader) returns (ok: bool, a: HelloAck)
    requires r.Valid()
    modifies r
    ensures r.Valid() && Agrees(ok, a, r.Rest(), GetHelloAck(old(r.Rest())))
  {
    hide GetU8, GetU64, GetText;
    a := HelloAck(false, [], 0, 0, 0, 0);
    var accepted: Byte;
    var reason: Text;
    var epoch, warmthGen, depGen, policyGen: Word64;
    ok, accepted := r.U8();
    if !ok {
      return;
    }
    ok, reason := r.Str();
    if !ok {
      return;
    }
    ok, epoch := r.U64();
    if !ok {
      return;
    }
    ok, warmthGen := r.U64();
    if !ok {
      return;
    }
    ok, depGen := r.U64();
    if !ok {
      return;
    }
    ok, policyGen := r.U64();
    a := HelloAck(accepted != 0, reason, epoch, warmthGen, depGen, policyGen);
  }

  method DecodeReport(r: ByteReader) returns (ok: bool, p: Report)
    requires r.Valid()
    modifies r
    ensures r.Valid() && Agrees(ok, p, r.Rest(), GetReport(old(r.Rest())))
  {
    hide GetId, GetTag, GetCounted;
    p := Report(0, Tag(0, 0, 0), []);
    var boot: Id128;
    var tag: Tag;
    var objects: seq<WarmthObject>;
    ok, boot := r.Id();
    if !ok {
      return;
    }
    ok, tag := DecodeTag(r);
    if !ok {
      return;
    }
    ok, objects := DecodeCounted(r, MAX_REPORTED);
    p := Report(boot, tag, objects);
  }

  method DecodeWarmTopic(r: ByteReader) returns (ok: bool, t: WarmTopic)
    requires r.Valid()
    modifies r
    ensures r.Valid() && Agrees(ok, t, r.Rest(), GetWarmTopic(old(r.Rest())))
  {
    hide GetU64, GetU32, GetCmd;
    t := WarmTopic(0, 0, []);
    var epoch, warmthGen: Word64;
    ok, epoch := r.U64();
    if !ok {
      return;
    }
    ok, warmthGen := r.U64();
    if !ok {
      return;
    }
    var n: Word32;
    ok, n := r.U32();
    if !ok || n > MAX_COMMANDS {
      return false, t;
    }
    ghost var start := r.Rest();
    var cmds: seq<WarmCmd> := [];
    for i := 0 to n
      invariant r.Valid()
      invariant GetCmds(r.Rest(), n - i, cmds) == GetCmds(start, n, [])
    {
      var c: WarmCmd;
      ok, c := DecodeCmd(r);
      if !ok {
        return;
      }
      cmds := cmds + [c];
    }
    ok, t := true, WarmTopic(epoch, warmthGen, cmds);
  }

  method DecodeWarmResult(r: ByteReader) returns (ok: bool, res: WarmResult)
    requires r.Valid()
    modifies r
    ensures r.Valid() && Agrees(ok, res, r.Rest(), GetWarmResult(old(r.Rest())))
  {
    hide GetId, GetTag, GetCmd, GetU8, GetU64, GetText;
    res := WarmResult(0, Tag(0, 0, 0), 0, 0, 0, false, 0, 0, []);
    var boot: Id128;
    var tag: Tag;
    var c: WarmCmd;
    var success: Byte;
    var duration, bytes: Word64;
    var error: Text;
    ok, boot := r.Id();
    if !ok {
      return;
    }
    ok, tag := DecodeTag(r);
    if !ok {
      return;
    }
    ok, c := DecodeCmd(r);
    if !ok {
      return;
    }
    ok, success := r.U8();
    if !ok {
      return;
    }
    ok, duration := r.U64();
    if !ok {
      return;
    }
    ok, bytes := r.U64();
    if !ok {
      return;
    }
    ok, error := r.Str();
    res := WarmResult(boot, tag, c.obj, c.action, c.attempt, success != 0, duration, bytes, error);
  }
}
