/** Frames on a connection: twelve header bytes, the payload, and its checksum.  A connection is the
    sequence of bytes still to be read. */
module Frames {
  import opened Basics
  import opened Bytes
  import Crc32

  const MAGIC: Word32 := 0x5746_524D
  const VERSION: Byte := 1
  const MAX_PAYLOAD: nat := 16 * 1024 * 1024

  /** HELLO is 1 ... READY is 10; `known_type` refuses every other code. */
  type MessageType = t: Byte | 1 <= t <= 10 witness 1

  datatype Frame = Frame(kind: MessageType, flags: Byte, payload: seq<Byte>)

  // ---- the grammar ----

  /** The frame layout with an arbitrary checksum field. */
  function PutRaw(f: Frame, crc: Word32, tail: seq<Byte>): (s: seq<Byte>)
    requires |f.payload| <= MAX_PAYLOAD
    ensures |s| == 16 + |f.payload| + |tail|
  {
    PutU32(MAGIC, PutU8(VERSION, PutU8(f.flags, PutU8(0, PutU8(f.kind,
      PutU32(|f.payload|, f.payload + PutU32(crc, tail)))))))
  }

  function PutFrame(f: Frame, tail: seq<Byte>): (s: seq<Byte>)
    requires |f.payload| <= MAX_PAYLOAD
    ensures |s| == 16 + |f.payload| + |tail|
  {
    PutRaw(f, Crc32.Checksum(f.payload), tail)
  }

  /** Everything behind the length field. */
  function GetBody(s: seq<Byte>, n: nat, kind: MessageType, flags: Byte): (r: Parsed<Frame>) {
    if |s| < n then Fail
    else
      match GetU32(s[n..])
      case Fail => Fail
      case Got(crc, rest) =>
        if crc == Crc32.Checksum(s[..n]) then Got(Frame(kind, flags, s[..n]), rest) else Fail
  }

  function GetFrame(s: seq<Byte>): (r: Parsed<Frame>)
    ensures r.Got? ==> |r.value.payload| <= MAX_PAYLOAD
  {
    match GetU32(s)
    case Fail => Fail
    case Got(magic, s1) =>
    match GetU8(s1)
    case Fail => Fail
    case Got(version, s2) =>
    match GetU8(s2)
    case Fail => Fail
    case Got(flags, s3) =>
    match GetU8(s3)
    case Fail => Fail
    case Got(high, s4) =>
    match GetU8(s4)
    case Fail => Fail
    case Got(low, s5) =>
    match GetU32(s5)
    case Fail => Fail
    case Got(n, s6) =>
    if magic != MAGIC || version != VERSION || high != 0 || low < 1 || low > 10 || n > MAX_PAYLOAD then Fail
    else GetBody(s6, n, low, flags)
  }

  // ---- reading back, and only that ----

  lemma BodyOf(f: Frame, crc: Word32, tail: seq<Byte>)
    ensures GetBody(f.payload + PutU32(crc, tail), |f.payload|, f.kind, f.flags) ==
      if crc == Crc32.Checksum(f.payload) then Got(f, tail) else Fail
  {
    hide PutU32, GetU32, Crc32.Checksum;
    var s := f.payload + PutU32(crc, tail);
    assert s[..|f.payload|] == f.payload && s[|f.payload|..] == PutU32(crc, tail);
  }

  lemma RawBack(f: Frame, crc: Word32, tail: seq<Byte>)
    requires |f.payload| <= MAX_PAYLOAD
    ensures GetFrame(PutRaw(f, crc, tail)) == if crc == Crc32.Checksum(f.payload) then Got(f, tail) else Fail
  {
    hide PutU32, PutU8, GetU32, GetU8, GetBody, Crc32.Checksum;
    BodyOf(f, crc, tail);
  }

  lemma FrameBack(f: Frame, tail: seq<Byte>)
    requires |f.payload| <= MAX_PAYLOAD
    ensures GetFrame(PutFrame(f, tail)) == Got(f, tail)
  {
    RawBack(f, Crc32.Checksum(f.payload), tail);
  }

  lemma BodyBytes(s: seq<Byte>, n: nat, kind: MessageType, flags: Byte)
    requires GetBody(s, n, kind, flags).Got?
    ensures var r := GetBody(s, n, kind, flags);
      |r.value.payload| == n && r.value.kind == kind && r.value.flags == flags &&
      s == r.value.payload + PutU32(Crc32.Checksum(r.value.payload), r.rest)
  {
    hide PutU32, GetU32, Crc32.Checksum;
    U32Bytes(s[n..]);
    assert s == s[..n] + s[n..];
  }

  /** The reader accepts nothing but what the writer produces: an accepted stream begins with the written
      form of the frame it yields. */
  lemma OnlyWrittenFrames(s: seq<Byte>)
    requires GetFrame(s).Got?
    ensures s == PutFrame(GetFrame(s).value, GetFrame(s).rest)
  {
    hide PutU32, PutU8, GetU32, GetU8, GetBody, Crc32.Checksum;
    var s1 := GetU32(s);
    var s2 := GetU8(s1.rest);
    var s3 := GetU8(s2.rest);
    var s4 := GetU8(s3.rest);
    var s5 := GetU8(s4.rest);
    var s6 := GetU32(s5.rest);
    U32Bytes(s);
    U8Bytes(s1.rest);
    U8Bytes(s2.rest);
    U8Bytes(s3.rest);
    U8Bytes(s4.rest);
    U32Bytes(s5.rest);
    BodyBytes(s6.rest, s6.value, s5.value, s3.value);
  }

  lemma FrameTail(f: Frame, tail: seq<Byte>, more: seq<Byte>)
    requires |f.payload| <= MAX_PAYLOAD
    ensures PutFrame(f, tail + more) == PutFrame(f, tail) + more
  {
    hide Put, Crc32.Checksum;
    var crc := Crc32.Checksum(f.payload);
    PutTail(crc, 4, tail, more);
    assert f.payload + (Put(crc, 4, tail) + more) == (f.payload + Put(crc, 4, tail)) + more;
    var t := f.payload + Put(crc, 4, tail);
    HeadTail(f, t, more);
  }

  function PutHead(f: Frame, body: seq<Byte>): seq<Byte>
    requires |f.payload| <= MAX_PAYLOAD
  {
    PutU32(MAGIC, PutU8(VERSION, PutU8(f.flags, PutU8(0, PutU8(f.kind, PutU32(|f.payload|, body))))))
  }

  lemma HeadTail(f: Frame, body: seq<Byte>, more: seq<Byte>)
    requires |f.payload| <= MAX_PAYLOAD
    ensures PutHead(f, body + more) == PutHead(f, body) + more
  {
    hide Put;
    PutTail(|f.payload|, 4, body, more);
    var t := Put(|f.payload|, 4, body);
    var h := [VERSION, f.flags, 0, f.kind];
    assert PutU8(VERSION, PutU8(f.flags, PutU8(0, PutU8(f.kind, t + more)))) == (h + t) + more;
    assert PutU8(VERSION, PutU8(f.flags, PutU8(0, PutU8(f.kind, t)))) == h + t;
    PutTail(MAGIC, 4, h + t, more);
  }

  /** A stream cut anywhere inside its first frame is refused. */
  lemma NoPrefixAccepted(f: Frame, tail: seq<Byte>, k: nat)
    requires |f.payload| <= MAX_PAYLOAD && k < 16 + |f.payload|
    ensures GetFrame(PutFrame(f, tail)[..k]).Fail?
  {
    hide GetFrame, PutFrame;
    var s := PutFrame(f, tail);
    var r := GetFrame(s[..k]);
    if r.Got? {
      OnlyWrittenFrames(s[..k]);
      FrameTail(r.value, r.rest, s[k..]);
      assert s == s[..k] + s[k..];
      FrameBack(r.value, r.rest + s[k..]);
      FrameBack(f, tail);
    }
  }

  /** Corrupting up to four consecutive payload bytes makes the reader refuse the frame. */
  lemma CorruptFrameRefused(f: Frame, g: Frame, before: seq<Byte>, u: seq<Byte>, v: seq<Byte>, after: seq<Byte>,
                            tail: seq<Byte>)
    requires |f.payload| <= MAX_PAYLOAD && |u| == |v| <= 4 && u != v
    requires f.payload == before + u + after && g == f.(payload := before + v + after)
    ensures GetFrame(PutRaw(g, Crc32.Checksum(f.payload), tail)).Fail?
  {
    Crc32.FourByteCorruptionDetected(before, u, v, after);
    RawBack(g, Crc32.Checksum(f.payload), tail);
  }

  // ---- several frames ----

  predicate Writable(fs: seq<Frame>) {
    forall i :: 0 <= i < |fs| ==> |fs[i].payload| <= MAX_PAYLOAD
  }

  function PutFrames(fs: seq<Frame>, tail: seq<Byte>): seq<Byte>
    requires Writable(fs)
    decreases |fs|
  {
    if fs == [] then tail else PutFrame(fs[0], PutFrames(fs[1..], tail))
  }

  function GetFrames(s: seq<Byte>, n: nat): (r: Parsed<seq<Frame>>)
    decreases n, |s|
  {
    if n == 0 then Got([], s)
    else
      match GetFrame(s)
      case Fail => Fail
      case Got(f, rest) =>
        match GetFrames(rest, n - 1)
        case Fail => Fail
        case Got(fs, end) => Got([f] + fs, end)
  }

  /** Reading the concatenation of written frames returns exactly those frames, in order, and stops
      exactly behind them. */
  lemma {:induction false} FramesBack(fs: seq<Frame>, tail: seq<Byte>)
    requires Writable(fs)
    ensures GetFrames(PutFrames(fs, tail), |fs|) == Got(fs, tail)
    decreases |fs|
  {
    hide GetFrame, PutFrame;
    if fs != [] {
      FramesBack(fs[1..], tail);
      FrameBack(fs[0], PutFrames(fs[1..], tail));
      assert fs == [fs[0]] + fs[1..];
    }
  }

  // ---- the writer and the reader ----

  method WriteHeader(conn: ByteWriter, f: Frame)
    requires |f.payload| <= MAX_PAYLOAD
    modifies conn
    ensures forall body :: conn.buf + body == old(conn.buf) + PutHead(f, body)
  {
    hide PutU32, PutU8;
    conn.U32(MAGIC);
    conn.U8(VERSION);
    conn.U8(f.flags);
    conn.U8(0);
    conn.U8(f.kind);
    conn.U32(|f.payload|);
  }

  lemma FrameIsHead(f: Frame, tail: seq<Byte>)
    requires |f.payload| <= MAX_PAYLOAD
    ensures PutFrame(f, tail) == PutHead(f, f.payload + PutU32(Crc32.Checksum(f.payload), tail))
  {
    hide PutU32, PutU8, Crc32.Checksum;
  }

  /** `FrameWriter::write`: an oversized payload is refused and nothing is sent. */
  method Write(conn: ByteWriter, f: Frame) returns (ok: bool)
    modifies conn
    ensures ok == (|f.payload| <= MAX_PAYLOAD)
    ensures !ok ==> conn.buf == old(conn.buf)
    ensures ok ==> forall tail :: conn.buf + tail == old(conn.buf) + PutFrame(f, tail)
  {
    hide PutU32, PutFrame, PutHead, Crc32.Checksum;
    if |f.payload| > MAX_PAYLOAD {
      return false;
    }
    WriteHeader(conn, f);
    ghost var headed := conn.buf;
    conn.buf := conn.buf + f.payload;
    var crc := Crc32.Compute(f.payload);
    conn.U32(crc);
    forall tail ensures conn.buf + tail == old(conn.buf) + PutFrame(f, tail) {
      assert (headed + f.payload) + PutU32(crc, tail) == headed + (f.payload + PutU32(crc, tail));
      FrameIsHead(f, tail);
    }
    ok := true;
  }

  method Read(conn: ByteReader) returns (ok: bool, f: Frame)
    requires conn.Valid()
    modifies conn
    ensures conn.Valid() && Agrees(ok, f, conn.Rest(), GetFrame(old(conn.Rest())))
  {
    hide GetU32, GetU8, GetBody;
    f := Frame(6, 0, []);
    var magic, n: Word32;
    var version, flags, high, low: Byte;
    ok, magic := conn.U32();
    if !ok {
      return;
    }
    ok, version := conn.U8();
    if !ok {
      return;
    }
    ok, flags := conn.U8();
    if !ok {
      return;
    }
    ok, high := conn.U8();
    if !ok {
      return;
    }
    ok, low := conn.U8();
    if !ok {
      return;
    }
    ok, n := conn.U32();
    if !ok || magic != MAGIC || version != VERSION || high != 0 || low < 1 || low > 10 || n > MAX_PAYLOAD {
      return false, f;
    }
    ok, f := ReadBody(conn, n, low, flags);
  }

  method ReadBody(conn: ByteReader, n: nat, kind: MessageType, flags: Byte) returns (ok: bool, f: Frame)
    requires conn.Valid()
    modifies conn
    ensures conn.Valid() && Agrees(ok, f, conn.Rest(), GetBody(old(conn.Rest()), n, kind, flags))
  {
    hide GetU32, Crc32.Checksum;
    f := Frame(kind, flags, []);
    if n > conn.Remaining() {
      return false, f;
    }
    ghost var start := conn.Rest();
    f := f.(payload := conn.s[conn.i..conn.i + n]);
    conn.i := conn.i + n;
    assert start[..n] == f.payload && start[n..] == conn.Rest();
    var crc: Word32;
    ok, crc := conn.U32();
    if !ok {
      return;
    }
    var actual := Crc32.Compute(f.payload);
    ok := crc == actual;
  }
}
