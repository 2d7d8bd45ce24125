/** What a listener is told about a byte stream, defined on the bytes alone: no buffers,
    no resumable state, no fast paths. Section numbers are those of RFC 7540. */
module Http2Reference {
  import opened BigEndian
  import opened Http2Structures

  /** The variable-length parts of a payload, which reach the listener in fragments. */
  datatype Part = DataPayload | HpackFragment | GoAwayOpaqueData | AltSvcOrigin | AltSvcValue | UnknownPayload | Padding

  /** Listener callbacks. A fragment callback is recorded byte by byte, since where fragments
      begin and end is the one thing that the buffering of the input decides. */
  datatype Event =
    | OnFrameHeader(header: FrameHeader)
    | OnDataStart(header: FrameHeader) | OnDataEnd
    | OnHeadersStart(header: FrameHeader) | OnHeadersPriority(fields: Structure) | OnHeadersEnd
    | OnPriorityFrame(header: FrameHeader, fields: Structure)
    | OnRstStream(header: FrameHeader, fields: Structure)
    | OnSettingsStart(header: FrameHeader) | OnSetting(fields: Structure) | OnSettingsEnd
    | OnSettingsAck(header: FrameHeader)
    | OnPushPromiseStart(header: FrameHeader, fields: Structure, totalPaddingLength: nat) | OnPushPromiseEnd
    | OnPing(header: FrameHeader, fields: Structure) | OnPingAck(header: FrameHeader, fields: Structure)
    | OnGoAwayStart(header: FrameHeader, fields: Structure) | OnGoAwayEnd
    | OnWindowUpdate(header: FrameHeader, fields: Structure)
    | OnContinuationStart(header: FrameHeader) | OnContinuationEnd
    | OnAltSvcStart(header: FrameHeader, originLength: nat, valueLength: nat) | OnAltSvcEnd
    | OnUnknownStart(header: FrameHeader) | OnUnknownEnd
    | OnPadLength(padLength: nat)
    | OnPaddingTooLong(header: FrameHeader, missingLength: nat)
    | OnFrameSizeError(header: FrameHeader)
    | OnByte(part: Part, value: byte)

  function Bytewise(part: Part, s: seq<byte>): (events: seq<Event>)
    ensures |events| == |s|
  {
    seq(|s|, i requires 0 <= i < |s| => OnByte(part, s[i]))
  }

  lemma BytewiseEach(part: Part, s: seq<byte>, i: nat)
    requires i < |s|
    ensures Bytewise(part, s)[i] == OnByte(part, s[i])
  {
  }

  lemma BytewiseConcat(part: Part, a: seq<byte>, b: seq<byte>)
    ensures Bytewise(part, a + b) == Bytewise(part, a) + Bytewise(part, b)
  {
  }

  function Min(a: nat, b: nat): nat { if a < b then a else b }

  /** What has been reported after a prefix of a payload, and whether an error was among it. */
  datatype Reading = Reading(events: seq<Event>, failed: bool)

  predicate Padded(h: FrameHeader) { IsPaddable(h) && IsPadded(h) }

  function StartEvents(h: FrameHeader): seq<Event> {
    if h.frameType == DATA then [OnDataStart(h)]
    else if h.frameType == HEADERS then [OnHeadersStart(h)]
    else if h.frameType == SETTINGS then if IsAck(h) then [] else [OnSettingsStart(h)]
    else if h.frameType == CONTINUATION then [OnContinuationStart(h)]
    else if h.frameType > ALTSVC then [OnUnknownStart(h)]
    else []
  }

  function EndEvents(h: FrameHeader): seq<Event> {
    if h.frameType == DATA then [OnDataEnd]
    else if h.frameType == HEADERS then [OnHeadersEnd]
    else if h.frameType == SETTINGS then if IsAck(h) then [] else [OnSettingsEnd]
    else if h.frameType == PUSH_PROMISE then [OnPushPromiseEnd]
    else if h.frameType == GOAWAY then [OnGoAwayEnd]
    else if h.frameType == CONTINUATION then [OnContinuationEnd]
    else if h.frameType == ALTSVC then [OnAltSvcEnd]
    else if h.frameType > ALTSVC then [OnUnknownEnd]
    else []
  }

  /** The structure a payload of this type begins with, if any. */
  function LeadingKind(h: FrameHeader): Kind
    requires HasLeadingStructure(h)
  {
    if h.frameType == HEADERS || h.frameType == PRIORITY then PriorityKind
    else if h.frameType == RST_STREAM then RstStreamKind
    else if h.frameType == PUSH_PROMISE then PushPromiseKind
    else if h.frameType == PING then PingKind
    else if h.frameType == GOAWAY then GoAwayKind
    else if h.frameType == WINDOW_UPDATE then WindowUpdateKind
    else AltSvcKind
  }

  predicate HasLeadingStructure(h: FrameHeader) {
    (h.frameType == HEADERS && HasPriority(h)) || (PRIORITY <= h.frameType <= ALTSVC && h.frameType != SETTINGS && h.frameType != CONTINUATION)
  }

  /** Frame types whose payload is one structure and nothing else. */
  predicate IsFixedSize(h: FrameHeader) {
    h.frameType == PRIORITY || h.frameType == RST_STREAM || h.frameType == PING || h.frameType == WINDOW_UPDATE
  }

  /** The callback made once the leading structure is complete; n content bytes in all. */
  function LeadingEvent(h: FrameHeader, n: nat, pad: nat, x: Structure): Event
    requires HasLeadingStructure(h) && KindOf(x) == LeadingKind(h) && EncodedSize(LeadingKind(h)) <= n
    requires h.frameType == ALTSVC ==> x.originLength <= n - 2
  {
    if h.frameType == HEADERS then OnHeadersPriority(x)
    else if h.frameType == PRIORITY then OnPriorityFrame(h, x)
    else if h.frameType == RST_STREAM then OnRstStream(h, x)
    else if h.frameType == PUSH_PROMISE then OnPushPromiseStart(h, x, if IsPadded(h) then 1 + pad else 0)
    else if h.frameType == PING then if IsAck(h) then OnPingAck(h, x) else OnPing(h, x)
    else if h.frameType == GOAWAY then OnGoAwayStart(h, x)
    else if h.frameType == WINDOW_UPDATE then OnWindowUpdate(h, x)
    else OnAltSvcStart(h, x.originLength, n - 2 - x.originLength)
  }

  /** The bytes after the leading structure (or all of them, when there is none). */
  function TailEvents(h: FrameHeader, originLength: nat, s: seq<byte>): seq<Event> {
    if h.frameType == DATA then Bytewise(DataPayload, s)
    else if h.frameType == HEADERS || h.frameType == PUSH_PROMISE || h.frameType == CONTINUATION then Bytewise(HpackFragment, s)
    else if h.frameType == GOAWAY then Bytewise(GoAwayOpaqueData, s)
    else if h.frameType == ALTSVC then
      var k := Min(originLength, |s|);
      Bytewise(AltSvcOrigin, s[..k]) + Bytewise(AltSvcValue, s[k..])
    else Bytewise(UnknownPayload, s)
  }

  /** SETTINGS (section 6.5): a whole number of six-byte settings. */
  function SettingsReading(h: FrameHeader, n: nat, c: seq<byte>): Reading
    requires |c| <= n
  {
    if n == 0 then Reading([], false)
    else if n < 6 && |c| == n then Reading([OnFrameSizeError(h)], true)
    else if |c| < 6 then Reading([], false)
    else
      var rest := SettingsReading(h, n - 6, c[6..]);
      Reading([OnSetting(Decode(SettingKind, c[..6]))] + rest.events, rest.failed)
  }

  /** A prefix c of the n content bytes of a payload, its padding apart. */
  function ContentReading(h: FrameHeader, n: nat, pad: nat, c: seq<byte>): Reading
    requires |c| <= n
  {
    if h.frameType == SETTINGS then
      if !IsAck(h) then SettingsReading(h, n, c)
      else if n == 0 then Reading([OnSettingsAck(h)], false)
      else Reading([OnFrameSizeError(h)], true)
    else if !HasLeadingStructure(h) then Reading(TailEvents(h, 0, c), false)
    else
      var size := EncodedSize(LeadingKind(h));
      if n < size && |c| == n then Reading([OnFrameSizeError(h)], true)
      else if |c| < size then Reading([], false)
      else
        var x := Decode(LeadingKind(h), c[..size]);
        if IsFixedSize(h) then
          if n == size then Reading([LeadingEvent(h, n, pad, x)], false) else Reading([OnFrameSizeError(h)], true)
        else if h.frameType == ALTSVC && x.originLength > n - size then Reading([OnFrameSizeError(h)], true)
        else
          var originLength := if h.frameType == ALTSVC then x.originLength else 0;
          Reading([LeadingEvent(h, n, pad, x)] + TailEvents(h, originLength, c[size..]), false)
  }

  /** Content followed by padding, of which the bytes b have arrived. */
  function BodyReading(h: FrameHeader, n: nat, pad: nat, b: seq<byte>): Reading
    requires |b| <= n + pad
  {
    var k := Min(n, |b|);
    var r := ContentReading(h, n, pad, b[..k]);
    if r.failed then r else Reading(r.events + Bytewise(Padding, b[k..]), false)
  }

  /** A prefix p of the payload of an accepted frame; the end is announced once. */
  function PayloadReading(h: FrameHeader, p: seq<byte>): Reading
    requires |p| <= h.payloadLength
  {
    var r := OpenReading(h, p);
    if !r.failed && |p| == h.payloadLength then Reading(r.events + EndEvents(h), false) else r
  }

  /** As PayloadReading, the end apart (section 6.1 for the padding rules). */
  function OpenReading(h: FrameHeader, p: seq<byte>): Reading
    requires |p| <= h.payloadLength
  {
    var start := StartEvents(h);
    if !Padded(h) then
      var r := BodyReading(h, h.payloadLength, 0, p);
      Reading(start + r.events, r.failed)
    else if h.payloadLength == 0 then Reading(start + [OnPaddingTooLong(h, 1)], true)
    else if p == [] then Reading(start, false)
    else if p[0] as nat + 1 > h.payloadLength then
      Reading(start + [OnPaddingTooLong(h, p[0] as nat + 1 - h.payloadLength)], true)
    else
      var r := BodyReading(h, h.payloadLength - 1 - p[0], p[0], p[1..]);
      Reading(start + PadLengthEvents(h, p[0]) + r.events, r.failed)
  }

  function PadLengthEvents(h: FrameHeader, pad: nat): seq<Event> {
    if h.frameType == PUSH_PROMISE then [] else [OnPadLength(pad)]
  }

  /** How a listener and its decoder treat frames: which headers OnFrameHeader turns down,
      given everything reported so far, and the largest payload allowed. */
  datatype Policy = Policy(accept: (seq<Event>, FrameHeader) -> bool, maximumPayloadSize: nat)

  function FrameReading(policy: Policy, acc: seq<Event>, h: FrameHeader, p: seq<byte>): Reading
    requires |p| <= h.payloadLength
  {
    if !policy.accept(acc, h) then Reading([OnFrameHeader(h)], true)
    else if h.payloadLength > policy.maximumPayloadSize then Reading([OnFrameHeader(h), OnFrameSizeError(h)], true)
    else
      var r := PayloadReading(CleanHeader(h), p);
      Reading([OnFrameHeader(h)] + r.events, r.failed)
  }

  const HEADER_SIZE: nat := 9

  function HeaderOf(s: seq<byte>): FrameHeader
    requires HEADER_SIZE <= |s|
  {
    Decode(HeaderKind, s[..HEADER_SIZE]).header
  }

  function FrameSize(s: seq<byte>): nat
    requires HEADER_SIZE <= |s|
  {
    HEADER_SIZE + HeaderOf(s).payloadLength
  }

  predicate StartsWithWholeFrame(s: seq<byte>) {
    HEADER_SIZE <= |s| && FrameSize(s) <= |s|
  }

  /** Everything reported after the stream s, when acc had been reported before it. */
  function Trace(policy: Policy, acc: seq<Event>, s: seq<byte>): seq<Event>
    decreases |s|
  {
    if |s| < HEADER_SIZE then acc
    else
      var h := HeaderOf(s);
      if FrameSize(s) <= |s| then
        Trace(policy, acc + FrameReading(policy, acc, h, s[HEADER_SIZE..FrameSize(s)]).events, s[FrameSize(s)..])
      else
        acc + FrameReading(policy, acc, h, s[HEADER_SIZE..]).events
  }

  /** Is s a whole number of frames? */
  predicate AtBoundary(s: seq<byte>)
    decreases |s|
  {
    s == [] || (StartsWithWholeFrame(s) && AtBoundary(s[FrameSize(s)..]))
  }

  // ---- laws of the reference ----

  /** Once an error has been reported, nothing more of the frame is. */
  lemma FailureIsFinal(h: FrameHeader, p: seq<byte>, q: seq<byte>)
    requires |p + q| <= h.payloadLength && PayloadReading(h, p).failed
    ensures PayloadReading(h, p + q) == PayloadReading(h, p)
  {
    if !Padded(h) {
      BodyFailureIsFinal(h, h.payloadLength, 0, p, q);
    } else if p != [] && p[0] as nat + 1 <= h.payloadLength {
      assert (p + q)[1..] == p[1..] + q;
      BodyFailureIsFinal(h, h.payloadLength - 1 - p[0], p[0], p[1..], q);
    }
  }

  lemma BodyFailureIsFinal(h: FrameHeader, n: nat, pad: nat, b: seq<byte>, q: seq<byte>)
    requires |b + q| <= n + pad && BodyReading(h, n, pad, b).failed
    ensures BodyReading(h, n, pad, b + q) == BodyReading(h, n, pad, b)
  {
    var k, m := Min(n, |b|), Min(n, |b + q|);
    assert (b + q)[..m] == b[..k] + (b + q)[k..m];
    ContentFailureIsFinal(h, n, pad, b[..k], (b + q)[k..m]);
  }

  lemma ContentFailureIsFinal(h: FrameHeader, n: nat, pad: nat, c: seq<byte>, q: seq<byte>)
    requires |c + q| <= n && ContentReading(h, n, pad, c).failed
    ensures ContentReading(h, n, pad, c + q) == ContentReading(h, n, pad, c)
  {
    if h.frameType == SETTINGS && !IsAck(h) {
      SettingsFailureIsFinal(h, n, c, q);
    } else if HasLeadingStructure(h) {
      var size := EncodedSize(LeadingKind(h));
      if size <= |c| {
        assert (c + q)[..size] == c[..size];
      }
    }
  }

  lemma {:induction false} SettingsFailureIsFinal(h: FrameHeader, n: nat, c: seq<byte>, q: seq<byte>)
    requires |c + q| <= n && SettingsReading(h, n, c).failed
    ensures SettingsReading(h, n, c + q) == SettingsReading(h, n, c)
  {
    if 6 <= |c| {
      assert (c + q)[..6] == c[..6] && (c + q)[6..] == c[6..] + q;
      SettingsFailureIsFinal(h, n - 6, c[6..], q);
    }
  }

  lemma FrameFailureIsFinal(policy: Policy, acc: seq<Event>, h: FrameHeader, p: seq<byte>, q: seq<byte>)
    requires |p + q| <= h.payloadLength && FrameReading(policy, acc, h, p).failed
    ensures FrameReading(policy, acc, h, p + q) == FrameReading(policy, acc, h, p)
  {
    if policy.accept(acc, h) && h.payloadLength <= policy.maximumPayloadSize {
      FailureIsFinal(CleanHeader(h), p, q);
    }
  }

  /** A stream cut at a frame boundary is two streams. */
  lemma {:induction false} TraceSplit(policy: Policy, acc: seq<Event>, s: seq<byte>, t: seq<byte>)
    requires AtBoundary(s)
    ensures Trace(policy, acc, s + t) == Trace(policy, Trace(policy, acc, s), t)
    ensures AtBoundary(s + t) <==> AtBoundary(t)
    decreases |s|
  {
    if s == [] {
      assert s + t == t;
    } else {
      var n := FrameSize(s);
      assert (s + t)[..HEADER_SIZE] == s[..HEADER_SIZE];
      assert (s + t)[HEADER_SIZE..n] == s[HEADER_SIZE..n] && (s + t)[n..] == s[n..] + t;
      TraceSplit(policy, acc + FrameReading(policy, acc, HeaderOf(s), s[HEADER_SIZE..n]).events, s[n..], t);
    }
  }
}
