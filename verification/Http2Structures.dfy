/** The fixed-size structures of an HTTP/2 frame and their wire form
    (sections 4.1 and 6 of RFC 7540). */
module Http2Structures {
  import opened Wrappers
  import opened BigEndian

  const DATA: byte := 0
  const HEADERS: byte := 1
  const PRIORITY: byte := 2
  const RST_STREAM: byte := 3
  const SETTINGS: byte := 4
  const PUSH_PROMISE: byte := 5
  const PING: byte := 6
  const GOAWAY: byte := 7
  const WINDOW_UPDATE: byte := 8
  const CONTINUATION: byte := 9
  const ALTSVC: byte := 10

  const FLAG_END_STREAM: byte := 0x01
  const FLAG_ACK: byte := 0x01
  const FLAG_END_HEADERS: byte := 0x04
  const FLAG_PADDED: byte := 0x08
  const FLAG_PRIORITY: byte := 0x20

  datatype FrameHeader = FrameHeader(payloadLength: nat, frameType: byte, flags: byte, streamId: nat)

  datatype Structure =
    | Header(header: FrameHeader)
    | Priority(streamDependency: nat, weight: nat, isExclusive: bool)
    | RstStream(rstErrorCode: nat)
    | Setting(parameter: nat, value: nat)
    | PushPromise(promisedStreamId: nat)
    | Ping(opaqueBytes: seq<byte>)
    | GoAway(lastStreamId: nat, goAwayErrorCode: nat)
    | WindowUpdate(windowSizeIncrement: nat)
    | AltSvc(originLength: nat)

  datatype Kind =
    | HeaderKind | PriorityKind | RstStreamKind | SettingKind | PushPromiseKind
    | PingKind | GoAwayKind | WindowUpdateKind | AltSvcKind

  function KindOf(x: Structure): Kind {
    match x
    case Header(_) => HeaderKind
    case Priority(_, _, _) => PriorityKind
    case RstStream(_) => RstStreamKind
    case Setting(_, _) => SettingKind
    case PushPromise(_) => PushPromiseKind
    case Ping(_) => PingKind
    case GoAway(_, _) => GoAwayKind
    case WindowUpdate(_) => WindowUpdateKind
    case AltSvc(_) => AltSvcKind
  }

  function EncodedSize(k: Kind): nat {
    match k
    case HeaderKind => 9
    case PriorityKind => 5
    case RstStreamKind => 4
    case SettingKind => 6
    case PushPromiseKind => 4
    case PingKind => 8
    case GoAwayKind => 8
    case WindowUpdateKind => 4
    case AltSvcKind => 2
  }

  /** An unsigned field of n bytes at offset i. */
  function Field(s: seq<byte>, i: nat, n: nat): nat
    requires i + n <= |s|
  {
    Value(s[i..i + n])
  }

  /** A 31-bit field: the high bit of its four bytes is reserved and masked out. */
  function Field31(s: seq<byte>, i: nat): nat
    requires i + 4 <= |s|
  {
    Field(s, i, 4) % 0x8000_0000
  }

  // ---- structures ----

  /** The value a structure's bytes stand for. */
  function Decode(k: Kind, s: seq<byte>): (x: Structure)
    requires |s| == EncodedSize(k)
    ensures KindOf(x) == k
  {
    match k
    case HeaderKind => Header(FrameHeader(Field(s, 0, 3), s[3], s[4], Field31(s, 5)))
    case PriorityKind => Priority(Field31(s, 0), s[4] as nat + 1, Field(s, 0, 4) != Field31(s, 0))
    case RstStreamKind => RstStream(Field(s, 0, 4))
    case SettingKind => Setting(Field(s, 0, 2), Field(s, 2, 4))
    case PushPromiseKind => PushPromise(Field31(s, 0))
    case PingKind => Ping(s)
    case GoAwayKind => GoAway(Field31(s, 0), Field(s, 4, 4))
    case WindowUpdateKind => WindowUpdate(Field31(s, 0))
    case AltSvcKind => AltSvc(Field(s, 0, 2))
  }

  /** The range of values the builder accepts for each field. */
  predicate Encodable(x: Structure) {
    match x
    case Header(h) => h.payloadLength < 0x100_0000 && h.streamId < 0x8000_0000
    case Priority(d, w, _) => d < 0x8000_0000 && 1 <= w <= 256
    case RstStream(e) => e < 0x1_0000_0000
    case Setting(p, v) => p < 0x1_0000 && v < 0x1_0000_0000
    case PushPromise(i) => i < 0x8000_0000
    case Ping(o) => |o| == 8
    case GoAway(i, e) => i < 0x8000_0000 && e < 0x1_0000_0000
    case WindowUpdate(i) => i < 0x8000_0000
    case AltSvc(n) => n < 0x1_0000
  }

  /** The bytes the builder writes for a structure. */
  function Encode(x: Structure): (s: seq<byte>)
    requires Encodable(x)
    ensures |s| == EncodedSize(KindOf(x))
  {
    match x
    case Header(h) => Bytes(h.payloadLength, 3) + [h.frameType, h.flags] + Bytes(h.streamId, 4)
    case Priority(d, w, e) => Bytes(d + if e then 0x8000_0000 else 0, 4) + [w - 1]
    case RstStream(e) => Bytes(e, 4)
    case Setting(p, v) => Bytes(p, 2) + Bytes(v, 4)
    case PushPromise(i) => Bytes(i, 4)
    case Ping(o) => o
    case GoAway(i, e) => Bytes(i, 4) + Bytes(e, 4)
    case WindowUpdate(i) => Bytes(i, 4)
    case AltSvc(n) => Bytes(n, 2)
  }

  /** Every encodable structure is read back from the bytes written for it. */
  lemma DecodeEncode(x: Structure)
    requires Encodable(x)
    ensures Decode(KindOf(x), Encode(x)) == x
  {
    match x
    case Header(h) => DecodeEncodeHeader(h);
    case Priority(d, w, e) => DecodeEncodePriority(d, w, e);
    case Setting(p, v) => DecodeEncodeSetting(p, v);
    case Ping(o) =>
    case GoAway(i, e) => DecodeEncodeGoAway(i, e);
    case _ => DecodeEncodeOneField(x);
  }

  lemma DecodeEncodeOneField(x: Structure)
    requires Encodable(x) && (x.RstStream? || x.PushPromise? || x.WindowUpdate? || x.AltSvc?)
    ensures Decode(KindOf(x), Encode(x)) == x
  {
    hide Pow256, Bytes, Value, Field;
    Pow256Values();
    match x
    case RstStream(e) => FieldOf(e, 4, Encode(x), 0);
    case PushPromise(i) => FieldOf(i, 4, Encode(x), 0);
    case WindowUpdate(i) => FieldOf(i, 4, Encode(x), 0);
    case AltSvc(n) => FieldOf(n, 2, Encode(x), 0);
  }

  lemma DecodeEncodePriority(d: nat, w: nat, e: bool)
    requires Encodable(Priority(d, w, e))
    ensures Decode(PriorityKind, Encode(Priority(d, w, e))) == Priority(d, w, e)
  {
    Pow256Values();
    FieldOf(d + if e then 0x8000_0000 else 0, 4, Encode(Priority(d, w, e)), 0);
  }

  lemma DecodeEncodeSetting(p: nat, v: nat)
    requires Encodable(Setting(p, v))
    ensures Decode(SettingKind, Encode(Setting(p, v))) == Setting(p, v)
  {
    Pow256Values();
    var s := Encode(Setting(p, v));
    FieldOf(p, 2, s, 0);
    FieldOf(v, 4, s, 2);
  }

  lemma DecodeEncodeHeader(h: FrameHeader)
    requires Encodable(Header(h))
    ensures Decode(HeaderKind, Encode(Header(h))) == Header(h)
  {
    Pow256Values();
    var s := Encode(Header(h));
    FieldOf(h.payloadLength, 3, s, 0);
    FieldOf(h.streamId, 4, s, 5);
  }

  lemma DecodeEncodeGoAway(i: nat, e: nat)
    requires Encodable(GoAway(i, e))
    ensures Decode(GoAwayKind, Encode(GoAway(i, e))) == GoAway(i, e)
  {
    Pow256Values();
    var s := Encode(GoAway(i, e));
    FieldOf(i, 4, s, 0);
    FieldOf(e, 4, s, 4);
  }

  lemma FieldOf(v: nat, n: nat, s: seq<byte>, i: nat)
    requires v < Pow256(n) && i + n <= |s| && s[i..i + n] == Bytes(v, n)
    ensures Field(s, i, n) == v
  {
    ValueBytesExact(v, n);
  }

  /** The offset of the 31-bit field whose reserved bit decoding drops, if there is one. */
  function ReservedOffset(k: Kind): int {
    match k
    case HeaderKind => 5
    case PushPromiseKind | GoAwayKind | WindowUpdateKind => 0
    case _ => -1
  }

  /** Is the reserved bit, if there is one, clear in this wire form? */
  predicate ReservedClear(k: Kind, s: seq<byte>)
    requires |s| == EncodedSize(k)
  {
    var i := ReservedOffset(k);
    i >= 0 ==> Field(s, i, 4) < 0x8000_0000
  }

  /** Decoding loses exactly the reserved bit: the decoded value is always encodable, and
      writing it gives the input back if and only if the reserved bit was clear. */
  lemma EncodeDecode(k: Kind, s: seq<byte>)
    requires |s| == EncodedSize(k)
    ensures Encodable(Decode(k, s))
    ensures Encode(Decode(k, s)) == s <==> ReservedClear(k, s)
  {
    match k
    case HeaderKind => EncodeDecodeHeader(s);
    case PriorityKind => EncodeDecodePriority(s);
    case SettingKind => EncodeDecodeSetting(s);
    case PingKind =>
    case GoAwayKind => EncodeDecodeGoAway(s);
    case _ => EncodeDecodeOneField(k, s);
  }

  lemma EncodeDecodeOneField(k: Kind, s: seq<byte>)
    requires |s| == EncodedSize(k) && (k.RstStreamKind? || k.PushPromiseKind? || k.WindowUpdateKind? || k.AltSvcKind?)
    ensures Encodable(Decode(k, s)) && (Encode(Decode(k, s)) == s <==> ReservedClear(k, s))
  {
    Pow256Values();
    var e := Encode(Decode(k, s));
    if k == RstStreamKind { Rewrite(s, e, 0, 4); }
    else if k == AltSvcKind { Rewrite(s, e, 0, 2); }
    else { Rewrite31(s, e, 0); }
  }

  lemma EncodeDecodePriority(s: seq<byte>)
    requires |s| == 5
    ensures Encodable(Decode(PriorityKind, s)) && Encode(Decode(PriorityKind, s)) == s
  {
    Pow256Values();
    var x := Decode(PriorityKind, s);
    var e := Encode(x);
    var v := Field(s, 0, 4);
    assert v < 0x1_0000_0000 && x.streamDependency + (if x.isExclusive then 0x8000_0000 else 0) == v;
    Rewrite(s, e, 0, 4);
    assert e == e[0..4] + [e[4]] && s == s[0..4] + [s[4]];
  }

  lemma EncodeDecodeSetting(s: seq<byte>)
    requires |s| == 6
    ensures Encodable(Decode(SettingKind, s)) && Encode(Decode(SettingKind, s)) == s
  {
    Pow256Values();
    var e := Encode(Decode(SettingKind, s));
    Rewrite(s, e, 0, 2);
    Rewrite(s, e, 2, 4);
    CutBytes(s, e, 2);
  }

  lemma EncodeDecodeGoAway(s: seq<byte>)
    requires |s| == 8
    ensures Encodable(Decode(GoAwayKind, s))
    ensures Encode(Decode(GoAwayKind, s)) == s <==> ReservedClear(GoAwayKind, s)
  {
    Pow256Values();
    var e := Encode(Decode(GoAwayKind, s));
    var high, low := Bytes(Field31(s, 0), 4), Bytes(Field(s, 4, 4), 4);
    Halves(e, high, low);
    Rewrite31(s, e, 0);
    Rewrite(s, e, 4, 4);
    CutBytes(s, e, 4);
  }

  lemma Halves(e: seq<byte>, high: seq<byte>, low: seq<byte>)
    requires e == high + low && |high| == |low| == 4
    ensures e[0..4] == high && e[4..8] == low
  {
    assert e[0..4] == high && e[4..8] == low;
  }

  lemma EncodeDecodeHeader(s: seq<byte>)
    requires |s| == 9
    ensures Encodable(Decode(HeaderKind, s))
    ensures Encode(Decode(HeaderKind, s)) == s <==> ReservedClear(HeaderKind, s)
  {
    Pow256Values();
    var e := Encode(Decode(HeaderKind, s));
    Rewrite(s, e, 0, 3);
    Rewrite31(s, e, 5);
    CutBytes(s, e, 5);
    assert e[..5] == e[0..3] + [e[3], e[4]] && s[..5] == s[0..3] + [s[3], s[4]];
  }

  lemma CutBytes(s: seq<byte>, e: seq<byte>, i: nat)
    requires |s| == |e| && i <= |s|
    ensures s == e <==> s[..i] == e[..i] && s[i..] == e[i..]
  {
    assert s == s[..i] + s[i..] && e == e[..i] + e[i..];
  }

  lemma Rewrite(s: seq<byte>, e: seq<byte>, i: nat, n: nat)
    requires i + n <= |s| && i + n <= |e| && e[i..i + n] == Bytes(Field(s, i, n), n)
    ensures e[i..i + n] == s[i..i + n]
  {
    BytesValue(s[i..i + n]);
  }

  lemma Rewrite31(s: seq<byte>, e: seq<byte>, i: nat)
    requires i + 4 <= |s| && i + 4 <= |e| && e[i..i + 4] == Bytes(Field31(s, i), 4)
    ensures e[i..i + 4] == s[i..i + 4] <==> Field(s, i, 4) < 0x8000_0000
  {
    Pow256Values();
    BytesValue(s[i..i + 4]);
    ValueBytesExact(Field31(s, i), 4);
  }

  // ---- header queries ----

  predicate HasFlag(h: FrameHeader, flag: byte)
    requires flag > 0
  {
    h.flags / flag % 2 == 1
  }

  predicate IsPaddable(h: FrameHeader) {
    h.frameType == DATA || h.frameType == HEADERS || h.frameType == PUSH_PROMISE
  }

  predicate IsPadded(h: FrameHeader) { HasFlag(h, FLAG_PADDED) }
  predicate HasPriority(h: FrameHeader) { HasFlag(h, FLAG_PRIORITY) }
  predicate IsAck(h: FrameHeader) { HasFlag(h, FLAG_ACK) }

  /** Bitwise and. */
  function BitAnd(a: nat, b: nat): (r: nat)
    ensures r <= a
  {
    if a == 0 then 0 else (if a % 2 == 1 && b % 2 == 1 then 1 else 0) + 2 * BitAnd(a / 2, b / 2)
  }

  /** BitAnd keeps bit n exactly when both operands have it. */
  lemma {:induction false} BitAndBit(a: nat, b: nat, n: nat)
    ensures BitAnd(a, b) / Pow2(n) % 2 == 1 <==> a / Pow2(n) % 2 == 1 && b / Pow2(n) % 2 == 1
  {
    if a == 0 {
      ModUnique(0, Pow2(n), 0, 0);
    } else if n == 0 {
      BitAndHalves(a, b);
      assert Pow2(0) == 1;
    } else {
      BitAndHalves(a, b);
      BitAndBit(a / 2, b / 2, n - 1);
      Halve(a, Pow2(n - 1));
      Halve(b, Pow2(n - 1));
      Halve(BitAnd(a, b), Pow2(n - 1));
    }
  }

  lemma BitAndHalves(a: nat, b: nat)
    ensures BitAnd(a, b) % 2 == 1 <==> a % 2 == 1 && b % 2 == 1
    ensures BitAnd(a, b) / 2 == BitAnd(a / 2, b / 2)
  {
  }

  lemma Halve(a: nat, p: nat)
    requires p > 0
    ensures 2 * p > 0 && a / (2 * p) == a / 2 / p
  {
    var q, r := a / 2 / p, a / 2 % p;
    assert a / 2 == p * q + r;
    assert a == 2 * p * q + (2 * r + a % 2);
    ModUnique(a, 2 * p, q, 2 * r + a % 2);
  }

  function RetainFlags(h: FrameHeader, validFlags: byte): FrameHeader {
    h.(flags := BitAnd(h.flags, validFlags))
  }

  lemma {:induction false} BitAndNone(a: nat)
    ensures BitAnd(a, 0) == 0
  {
    if a > 0 {
      BitAndNone(a / 2);
    }
  }

  /** A mask of n ones keeps a number of n bits. */
  lemma {:induction false} BitAndAll(a: nat, n: nat)
    requires a < Pow2(n)
    ensures BitAnd(a, Pow2(n) - 1) == a
  {
    if a > 0 {
      BitAndAll(a / 2, n - 1);
      assert (Pow2(n) - 1) / 2 == Pow2(n - 1) - 1 && (Pow2(n) - 1) % 2 == 1;
    }
  }

  /** The flags each frame type defines; an unknown type keeps them all. */
  function ValidFlags(frameType: byte): byte {
    if frameType == DATA then FLAG_END_STREAM + FLAG_PADDED
    else if frameType == HEADERS then FLAG_END_STREAM + FLAG_END_HEADERS + FLAG_PADDED + FLAG_PRIORITY
    else if frameType == SETTINGS || frameType == PING then FLAG_ACK
    else if frameType == PUSH_PROMISE then FLAG_END_HEADERS + FLAG_PADDED
    else if frameType == CONTINUATION then FLAG_END_HEADERS
    else if frameType <= ALTSVC then 0
    else 255
  }

  function CleanHeader(h: FrameHeader): FrameHeader {
    RetainFlags(h, ValidFlags(h.frameType))
  }

  // ---- the wire form, byte by byte ----

  lemma Fields(s: seq<byte>, i: nat)
    ensures i + 2 <= |s| ==> Field(s, i, 2) == s[i] as nat * 0x100 + s[i + 1] as nat
    ensures i + 3 <= |s| ==> Field(s, i, 3) == s[i] as nat * 0x1_0000 + s[i + 1] as nat * 0x100 + s[i + 2] as nat
    ensures i + 4 <= |s| ==> Field(s, i, 4) == s[i] as nat * 0x100_0000 + s[i + 1] as nat * 0x1_0000 + s[i + 2] as nat * 0x100 + s[i + 3] as nat
  {
    hide Field;
    if i + 2 <= |s| {
      FieldStep(s, i, 1);
      FieldStep(s, i, 0);
    }
    if i + 3 <= |s| {
      FieldStep(s, i, 2);
    }
    if i + 4 <= |s| {
      FieldStep(s, i, 3);
    }
  }

  lemma FieldStep(s: seq<byte>, i: nat, n: nat)
    requires i + n < |s|
    ensures Field(s, i, n + 1) == Field(s, i, n) * 0x100 + s[i + n] as nat && Field(s, i, 0) == 0
  {
    assert s[i..i + n + 1][..n] == s[i..i + n];
  }

  /** Where each field of a structure is, and in which order its bytes are. */
  lemma Layout(k: Kind, s: seq<byte>)
    requires |s| == EncodedSize(k)
    ensures match k
      case HeaderKind => Decode(k, s) == Header(FrameHeader(s[0] as nat * 0x1_0000 + s[1] as nat * 0x100 + s[2] as nat, s[3], s[4],
        (s[5] as nat * 0x100_0000 + s[6] as nat * 0x1_0000 + s[7] as nat * 0x100 + s[8] as nat) % 0x8000_0000))
      case PriorityKind => var v := s[0] as nat * 0x100_0000 + s[1] as nat * 0x1_0000 + s[2] as nat * 0x100 + s[3] as nat;
        Decode(k, s) == Priority(v % 0x8000_0000, s[4] as nat + 1, s[0] >= 128)
      case RstStreamKind => Decode(k, s) == RstStream(s[0] as nat * 0x100_0000 + s[1] as nat * 0x1_0000 + s[2] as nat * 0x100 + s[3] as nat)
      case SettingKind => Decode(k, s) == Setting(s[0] as nat * 0x100 + s[1] as nat,
        s[2] as nat * 0x100_0000 + s[3] as nat * 0x1_0000 + s[4] as nat * 0x100 + s[5] as nat)
      case PushPromiseKind => Decode(k, s) == PushPromise((s[0] as nat * 0x100_0000 + s[1] as nat * 0x1_0000 + s[2] as nat * 0x100 + s[3] as nat) % 0x8000_0000)
      case PingKind => Decode(k, s) == Ping(s)
      case GoAwayKind => Decode(k, s) == GoAway((s[0] as nat * 0x100_0000 + s[1] as nat * 0x1_0000 + s[2] as nat * 0x100 + s[3] as nat) % 0x8000_0000,
        s[4] as nat * 0x100_0000 + s[5] as nat * 0x1_0000 + s[6] as nat * 0x100 + s[7] as nat)
      case WindowUpdateKind => Decode(k, s) == WindowUpdate((s[0] as nat * 0x100_0000 + s[1] as nat * 0x1_0000 + s[2] as nat * 0x100 + s[3] as nat) % 0x8000_0000)
      case AltSvcKind => Decode(k, s) == AltSvc(s[0] as nat * 0x100 + s[1] as nat)
  {
    hide Field;
    Fields(s, 0);
    match k
    case HeaderKind => Fields(s, 5);
    case SettingKind => Fields(s, 2);
    case GoAwayKind => Fields(s, 4);
    case _ =>
  }
}
