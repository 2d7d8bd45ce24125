/** What is reported of each type of frame, from the header as it was written, flag bit by flag bit. */
module Http2FrameTraces {
  import opened BigEndian
  import opened Http2Structures
  import opened Http2Reference
  import opened Http2Runs

  // ---- the flags that are kept ----

  lemma BitAndStep(a: nat, b: nat)
    ensures BitAnd(a, b) == (if b % 2 == 1 then a % 2 else 0) + 2 * BitAnd(a / 2, b / 2)
    ensures b == 0 ==> BitAnd(a, b) == 0
  {
    BitAndNone(a);
  }

  /** Flags are kept bit by bit. */
  lemma FlagBits(f: byte)
    ensures BitAnd(f, 0) == 0
    ensures BitAnd(f, 1) == f % 2
    ensures BitAnd(f, 4) == f / 4 % 2 * 4
    ensures BitAnd(f, 9) == f % 2 + f / 8 % 2 * 8
    ensures BitAnd(f, 12) == f / 4 % 2 * 4 + f / 8 % 2 * 8
    ensures BitAnd(f, 45) == f % 2 + f / 4 % 2 * 4 + f / 8 % 2 * 8 + f / 32 % 2 * 32
  {
    hide BitAnd;
    BitAndNone(f);
    Eighths(f);
    Flag1(f, f / 2);
    Flag1(f / 4, f / 8);
    Flag1(f / 8, f / 16);
    Flag1(f / 32, f / 64);
    BitAndStep(f, 4);
    BitAndStep(f / 2, 2);
    BitAndStep(f, 9);
    BitAndStep(f / 2, 4);
    BitAndStep(f / 4, 2);
    Flags12(f);
    Flags45(f);
  }

  lemma Eighths(f: nat)
    ensures f / 2 / 2 == f / 4 && f / 4 / 2 == f / 8 && f / 8 / 2 == f / 16 && f / 16 / 2 == f / 32 && f / 32 / 2 == f / 64
  {
  }

  lemma Flag1(a: nat, half: nat)
    requires half == a / 2
    ensures BitAnd(a, 1) == a % 2
  {
    hide BitAnd;
    BitAndStep(a, 1);
    BitAndNone(half);
  }

  lemma Flags12(f: nat)
    ensures BitAnd(f, 12) == f / 4 % 2 * 4 + f / 8 % 2 * 8
  {
    hide BitAnd;
    Eighths(f);
    BitAndStep(f, 12);
    BitAndStep(f / 2, 6);
    FourAndEight(f / 4, f / 8);
  }

  lemma Flags45(f: nat)
    ensures BitAnd(f, 45) == f % 2 + f / 4 % 2 * 4 + f / 8 % 2 * 8 + f / 32 % 2 * 32
  {
    hide BitAnd;
    Eighths(f);
    BitAndStep(f, 45);
    BitAndStep(f / 2, 22);
    BitAndStep(f / 4, 11);
    BitAndStep(f / 8, 5);
    BitAndStep(f / 16, 2);
    Flag1(f / 32, f / 64);
  }

  lemma FourAndEight(a: nat, half: nat)
    requires half == a / 2
    ensures BitAnd(a, 3) == a % 2 + half % 2 * 2
  {
    hide BitAnd;
    BitAndStep(a, 3);
    Flag1(half, half / 2);
  }

  // ---- a frame whose header the listener accepts ----

  predicate Accepted(policy: Policy, acc: seq<Event>, h: FrameHeader, p: seq<byte>) {
    policy.accept(acc, h) && h.payloadLength == |p| <= policy.maximumPayloadSize
  }

  lemma AcceptedReading(policy: Policy, acc: seq<Event>, h: FrameHeader, p: seq<byte>)
    requires Accepted(policy, acc, h, p)
    ensures var r := PayloadReading(CleanHeader(h), p);
      FrameReading(policy, acc, h, p) == Reading([OnFrameHeader(h)] + r.events, r.failed)
  {
  }

  /** The header is reported as it was written, and nothing else of a frame that is refused; one that is
      too long is a size error. */
  lemma NotAccepted(policy: Policy, acc: seq<Event>, h: FrameHeader, p: seq<byte>)
    requires |p| <= h.payloadLength
    ensures !policy.accept(acc, h) ==> FrameReading(policy, acc, h, p) == Reading([OnFrameHeader(h)], true)
    ensures policy.accept(acc, h) && h.payloadLength > policy.maximumPayloadSize ==>
      FrameReading(policy, acc, h, p) == Reading([OnFrameHeader(h), OnFrameSizeError(h)], true)
  {
  }

  /** What the decoder tells its listener of one frame alone is what the reference reads from it. */
  lemma FrameAlone(policy: Policy, f: Frame)
    requires WellFormed(f)
    ensures AllWellFormed([f]) && Trace(policy, [], Wire([f])) == FrameReading(policy, [], f.header, f.payload).events
  {
    hide FrameReading;
    WireTrace(policy, [], [f]);
  }

  lemma Unpadded(h: FrameHeader, p: seq<byte>)
    requires !Padded(h) && |p| == h.payloadLength
    ensures var r := ContentReading(h, |p|, 0, p);
      PayloadReading(h, p) == Reading(StartEvents(h) + r.events + if r.failed then [] else EndEvents(h), r.failed)
  {
    hide ContentReading, StartEvents, EndEvents;
    assert p[..|p|] == p && p[|p|..] == [] && Bytewise(Padding, []) == [];
    var r := ContentReading(h, |p|, 0, p);
    assert r.events + [] == r.events && StartEvents(h) + r.events + [] == StartEvents(h) + r.events;
    assert BodyReading(h, |p|, 0, p) == r;
  }

  lemma PaddedFits(h: FrameHeader, content: seq<byte>, padding: seq<byte>)
    requires Padded(h) && |padding| < 256 && 1 + |content| + |padding| == h.payloadLength
    requires !ContentReading(h, |content|, |padding|, content).failed
    ensures PayloadReading(h, [|padding|] + content + padding) ==
      Reading(StartEvents(h) + PadLengthEvents(h, |padding|) + ContentReading(h, |content|, |padding|, content).events + Bytewise(Padding, padding) + EndEvents(h), false)
  {
    hide ContentReading, StartEvents, EndEvents, PadLengthEvents, Bytewise;
    var p: seq<byte> := [|padding|] + content + padding;
    var b := p[1..];
    assert b == content + padding && b[..|content|] == content && b[|content|..] == padding;
    var r := ContentReading(h, |content|, |padding|, content);
    assert BodyReading(h, |content|, |padding|, b) == Reading(r.events + Bytewise(Padding, padding), false);
    var start := StartEvents(h) + PadLengthEvents(h, |padding|);
    assert start + (r.events + Bytewise(Padding, padding)) == start + r.events + Bytewise(Padding, padding);
  }

  // ---- DATA ----

  lemma DataFlags(h: FrameHeader)
    requires h.frameType == 0
    ensures CleanHeader(h) == h.(flags := h.flags % 2 + h.flags / 8 % 2 * 8)
    ensures Padded(CleanHeader(h)) <==> h.flags / 8 % 2 == 1
  {
    hide BitAnd;
    FlagBits(h.flags);
  }

  /** DATA: of the flags END_STREAM and PADDED are kept. */
  lemma DataFrame(policy: Policy, acc: seq<Event>, h: FrameHeader, data: seq<byte>)
    requires h.frameType == 0 && h.flags / 8 % 2 == 0 && Accepted(policy, acc, h, data)
    ensures FrameReading(policy, acc, h, data) ==
      Reading([OnFrameHeader(h), OnDataStart(h.(flags := h.flags % 2))] + Bytewise(DataPayload, data) + [OnDataEnd], false)
  {
    hide CleanHeader, Bytewise;
    DataFlags(h);
    AcceptedReading(policy, acc, h, data);
    Unpadded(CleanHeader(h), data);
  }

  lemma PaddedDataFrame(policy: Policy, acc: seq<Event>, h: FrameHeader, data: seq<byte>, padding: seq<byte>)
    requires h.frameType == 0 && h.flags / 8 % 2 == 1 && |padding| < 256
    requires Accepted(policy, acc, h, [|padding|] + data + padding)
    ensures FrameReading(policy, acc, h, [|padding|] + data + padding) ==
      Reading([OnFrameHeader(h), OnDataStart(h.(flags := h.flags % 2 + 8)), OnPadLength(|padding|)]
        + Bytewise(DataPayload, data) + Bytewise(Padding, padding) + [OnDataEnd], false)
  {
    hide CleanHeader, Bytewise, PayloadReading;
    DataFlags(h);
    AcceptedReading(policy, acc, h, [|padding|] + data + padding);
    PaddedFits(CleanHeader(h), data, padding);
  }

  // ---- HEADERS ----

  lemma HeadersFlags(h: FrameHeader)
    requires h.frameType == 1
    ensures CleanHeader(h) == h.(flags := h.flags % 2 + h.flags / 4 % 2 * 4 + h.flags / 8 % 2 * 8 + h.flags / 32 % 2 * 32)
    ensures Padded(CleanHeader(h)) <==> h.flags / 8 % 2 == 1
    ensures HasPriority(CleanHeader(h)) <==> h.flags / 32 % 2 == 1
  {
    hide BitAnd;
    FlagBits(h.flags);
  }

  lemma HeadersContent(h: FrameHeader, pad: nat, fragment: seq<byte>, d: nat, w: nat, e: bool)
    requires h.frameType == 1 && d < 0x8000_0000 && 1 <= w <= 256
    ensures !HasPriority(h) ==> ContentReading(h, |fragment|, pad, fragment) == Reading(Bytewise(HpackFragment, fragment), false)
    ensures HasPriority(h) ==> var c := Encode(Priority(d, w, e)) + fragment;
      ContentReading(h, |c|, pad, c) == Reading([OnHeadersPriority(Priority(d, w, e))] + Bytewise(HpackFragment, fragment), false)
  {
    hide Encode, Decode, Bytewise, HasFlag;
    DecodeEncode(Priority(d, w, e));
    var c := Encode(Priority(d, w, e)) + fragment;
    assert c[..5] == Encode(Priority(d, w, e)) && c[5..] == fragment;
  }

  /** HEADERS with neither padding nor priority fields: END_STREAM and END_HEADERS are kept. */
  lemma HeadersFrame(policy: Policy, acc: seq<Event>, h: FrameHeader, fragment: seq<byte>)
    requires h.frameType == 1 && h.flags / 8 % 2 == 0 && h.flags / 32 % 2 == 0 && Accepted(policy, acc, h, fragment)
    ensures FrameReading(policy, acc, h, fragment) ==
      Reading([OnFrameHeader(h), OnHeadersStart(h.(flags := h.flags % 2 + h.flags / 4 % 2 * 4))] + Bytewise(HpackFragment, fragment) + [OnHeadersEnd], false)
  {
    hide CleanHeader, Bytewise, PayloadReading, ContentReading;
    HeadersFlags(h);
    AcceptedReading(policy, acc, h, fragment);
    Unpadded(CleanHeader(h), fragment);
    HeadersContent(CleanHeader(h), 0, fragment, 0, 1, false);
  }

  lemma PriorityHeadersFrame(policy: Policy, acc: seq<Event>, h: FrameHeader, d: nat, w: nat, e: bool, fragment: seq<byte>)
    requires h.frameType == 1 && h.flags / 8 % 2 == 0 && h.flags / 32 % 2 == 1 && d < 0x8000_0000 && 1 <= w <= 256
    requires Accepted(policy, acc, h, Encode(Priority(d, w, e)) + fragment)
    ensures FrameReading(policy, acc, h, Encode(Priority(d, w, e)) + fragment) ==
      Reading([OnFrameHeader(h), OnHeadersStart(h.(flags := h.flags % 2 + h.flags / 4 % 2 * 4 + 32)), OnHeadersPriority(Priority(d, w, e))]
        + Bytewise(HpackFragment, fragment) + [OnHeadersEnd], false)
  {
    hide CleanHeader, Bytewise, PayloadReading, ContentReading, Encode;
    HeadersFlags(h);
    AcceptedReading(policy, acc, h, Encode(Priority(d, w, e)) + fragment);
    Unpadded(CleanHeader(h), Encode(Priority(d, w, e)) + fragment);
    HeadersContent(CleanHeader(h), 0, fragment, d, w, e);
  }

  lemma PaddedHeadersFrame(policy: Policy, acc: seq<Event>, h: FrameHeader, fragment: seq<byte>, padding: seq<byte>)
    requires h.frameType == 1 && h.flags / 8 % 2 == 1 && h.flags / 32 % 2 == 0 && |padding| < 256
    requires Accepted(policy, acc, h, [|padding|] + fragment + padding)
    ensures FrameReading(policy, acc, h, [|padding|] + fragment + padding) ==
      Reading([OnFrameHeader(h), OnHeadersStart(h.(flags := h.flags % 2 + h.flags / 4 % 2 * 4 + 8)), OnPadLength(|padding|)]
        + Bytewise(HpackFragment, fragment) + Bytewise(Padding, padding) + [OnHeadersEnd], false)
  {
    hide CleanHeader, Bytewise, PayloadReading, ContentReading;
    HeadersFlags(h);
    AcceptedReading(policy, acc, h, [|padding|] + fragment + padding);
    HeadersContent(CleanHeader(h), |padding|, fragment, 0, 1, false);
    PaddedFits(CleanHeader(h), fragment, padding);
  }

  lemma PaddedPriorityHeadersFrame(policy: Policy, acc: seq<Event>, h: FrameHeader, d: nat, w: nat, e: bool, fragment: seq<byte>, padding: seq<byte>)
    requires h.frameType == 1 && h.flags / 8 % 2 == 1 && h.flags / 32 % 2 == 1 && |padding| < 256 && d < 0x8000_0000 && 1 <= w <= 256
    requires Accepted(policy, acc, h, [|padding|] + (Encode(Priority(d, w, e)) + fragment) + padding)
    ensures FrameReading(policy, acc, h, [|padding|] + (Encode(Priority(d, w, e)) + fragment) + padding) ==
      Reading([OnFrameHeader(h), OnHeadersStart(h.(flags := h.flags % 2 + h.flags / 4 % 2 * 4 + 40)), OnPadLength(|padding|), OnHeadersPriority(Priority(d, w, e))]
        + Bytewise(HpackFragment, fragment) + Bytewise(Padding, padding) + [OnHeadersEnd], false)
  {
    hide CleanHeader, Bytewise, PayloadReading, ContentReading, Encode;
    HeadersFlags(h);
    AcceptedReading(policy, acc, h, [|padding|] + (Encode(Priority(d, w, e)) + fragment) + padding);
    HeadersContent(CleanHeader(h), |padding|, fragment, d, w, e);
    PaddedFits(CleanHeader(h), Encode(Priority(d, w, e)) + fragment, padding);
  }

  // ---- PUSH_PROMISE ----

  lemma PushPromiseFlags(h: FrameHeader)
    requires h.frameType == 5
    ensures CleanHeader(h) == h.(flags := h.flags / 4 % 2 * 4 + h.flags / 8 % 2 * 8)
    ensures IsPadded(CleanHeader(h)) <==> h.flags / 8 % 2 == 1
  {
    hide BitAnd;
    FlagBits(h.flags);
  }

  lemma PushPromiseContent(h: FrameHeader, pad: nat, id: nat, fragment: seq<byte>)
    requires h.frameType == 5 && id < 0x8000_0000
    ensures var c := Encode(PushPromise(id)) + fragment;
      ContentReading(h, |c|, pad, c) ==
        Reading([OnPushPromiseStart(h, PushPromise(id), if IsPadded(h) then 1 + pad else 0)] + Bytewise(HpackFragment, fragment), false)
  {
    hide Encode, Decode, Bytewise, HasFlag;
    DecodeEncode(PushPromise(id));
    var c := Encode(PushPromise(id)) + fragment;
    assert c[..4] == Encode(PushPromise(id)) && c[4..] == fragment;
  }

  /** PUSH_PROMISE: END_HEADERS and PADDED are kept, and the padding is announced together with the
      promised stream. */
  lemma PushPromiseFrame(policy: Policy, acc: seq<Event>, h: FrameHeader, id: nat, fragment: seq<byte>)
    requires h.frameType == 5 && h.flags / 8 % 2 == 0 && id < 0x8000_0000
    requires Accepted(policy, acc, h, Encode(PushPromise(id)) + fragment)
    ensures FrameReading(policy, acc, h, Encode(PushPromise(id)) + fragment) ==
      Reading([OnFrameHeader(h), OnPushPromiseStart(h.(flags := h.flags / 4 % 2 * 4), PushPromise(id), 0)]
        + Bytewise(HpackFragment, fragment) + [OnPushPromiseEnd], false)
  {
    hide CleanHeader, Bytewise, PayloadReading, ContentReading, Encode;
    PushPromiseFlags(h);
    AcceptedReading(policy, acc, h, Encode(PushPromise(id)) + fragment);
    Unpadded(CleanHeader(h), Encode(PushPromise(id)) + fragment);
    PushPromiseContent(CleanHeader(h), 0, id, fragment);
  }

  lemma PaddedPushPromiseFrame(policy: Policy, acc: seq<Event>, h: FrameHeader, id: nat, fragment: seq<byte>, padding: seq<byte>)
    requires h.frameType == 5 && h.flags / 8 % 2 == 1 && id < 0x8000_0000 && |padding| < 256
    requires Accepted(policy, acc, h, [|padding|] + (Encode(PushPromise(id)) + fragment) + padding)
    ensures FrameReading(policy, acc, h, [|padding|] + (Encode(PushPromise(id)) + fragment) + padding) ==
      Reading([OnFrameHeader(h), OnPushPromiseStart(h.(flags := h.flags / 4 % 2 * 4 + 8), PushPromise(id), 1 + |padding|)]
        + Bytewise(HpackFragment, fragment) + Bytewise(Padding, padding) + [OnPushPromiseEnd], false)
  {
    hide CleanHeader, Bytewise, PayloadReading, ContentReading, Encode;
    PushPromiseFlags(h);
    AcceptedReading(policy, acc, h, [|padding|] + (Encode(PushPromise(id)) + fragment) + padding);
    PushPromiseContent(CleanHeader(h), |padding|, id, fragment);
    PaddedFits(CleanHeader(h), Encode(PushPromise(id)) + fragment, padding);
  }

  /** A Pad Length that leaves no room is reported with what is missing, and nothing of the payload after
      it; an empty payload lacks the Pad Length itself. */
  lemma PaddingTooLongFrame(policy: Policy, acc: seq<Event>, h: FrameHeader, p: seq<byte>)
    requires (h.frameType == 0 || h.frameType == 1 || h.frameType == 5) && h.flags / 8 % 2 == 1
    requires Accepted(policy, acc, h, p) && (p == [] || p[0] as nat >= |p|)
    ensures var missing: nat, r := if p == [] then 1 else p[0] as nat + 1 - |p|, FrameReading(policy, acc, h, p);
      if h.frameType == 0 then
        var clean := h.(flags := h.flags % 2 + 8);
        r == Reading([OnFrameHeader(h), OnDataStart(clean), OnPaddingTooLong(clean, missing)], true)
      else if h.frameType == 1 then
        var clean := h.(flags := h.flags % 2 + h.flags / 4 % 2 * 4 + 8 + h.flags / 32 % 2 * 32);
        r == Reading([OnFrameHeader(h), OnHeadersStart(clean), OnPaddingTooLong(clean, missing)], true)
      else
        r == Reading([OnFrameHeader(h), OnPaddingTooLong(h.(flags := h.flags / 4 % 2 * 4 + 8), missing)], true)
  {
    hide CleanHeader, BodyReading, HasFlag;
    if h.frameType == 0 {
      DataFlags(h);
    } else if h.frameType == 1 {
      HeadersFlags(h);
    } else {
      PushPromiseFlags(h);
    }
  }

  // ---- SETTINGS and PING, which may be acknowledgements ----

  lemma AckFlag(h: FrameHeader)
    requires h.frameType == 4 || h.frameType == 6
    ensures CleanHeader(h) == h.(flags := h.flags % 2) && (IsAck(CleanHeader(h)) <==> h.flags % 2 == 1) && !Padded(CleanHeader(h))
  {
    hide BitAnd;
    FlagBits(h.flags);
  }

  /** SETTINGS: any list of settings, in order. */
  lemma SettingsFrame(policy: Policy, acc: seq<Event>, h: FrameHeader, settings: seq<Structure>)
    requires h.frameType == 4 && h.flags % 2 == 0 && forall x <- settings :: x.Setting? && Encodable(x)
    requires Accepted(policy, acc, h, SettingsWire(settings))
    ensures FrameReading(policy, acc, h, SettingsWire(settings)) ==
      Reading([OnFrameHeader(h), OnSettingsStart(h.(flags := 0))] + seq(|settings|, i requires 0 <= i < |settings| => OnSetting(settings[i])) + [OnSettingsEnd], false)
  {
    hide CleanHeader, PayloadReading, HasFlag, SettingsWire, Encode;
    AckFlag(h);
    AcceptedReading(policy, acc, h, SettingsWire(settings));
    SettingsRoundTrip(CleanHeader(h), settings);
    SettingEventsEach(settings);
  }

  lemma {:induction false} SettingEventsEach(settings: seq<Structure>)
    ensures SettingEvents(settings) == seq(|settings|, i requires 0 <= i < |settings| => OnSetting(settings[i]))
  {
    if settings != [] {
      SettingEventsEach(settings[1..]);
    }
  }

  /** An acknowledgement of settings, which has to be empty. */
  lemma SettingsAckFrame(policy: Policy, acc: seq<Event>, h: FrameHeader, p: seq<byte>)
    requires h.frameType == 4 && h.flags % 2 == 1 && Accepted(policy, acc, h, p)
    ensures FrameReading(policy, acc, h, p) ==
      if p == [] then Reading([OnFrameHeader(h), OnSettingsAck(h.(flags := 1))], false)
      else Reading([OnFrameHeader(h), OnFrameSizeError(h.(flags := 1))], true)
  {
    hide CleanHeader, PayloadReading, HasFlag;
    AckFlag(h);
    AcceptedReading(policy, acc, h, p);
    Unpadded(CleanHeader(h), p);
  }

  /** Settings that do not fill the payload: those that are whole are reported before the error. */
  lemma SettingsSizeFrame(policy: Policy, acc: seq<Event>, h: FrameHeader, settings: seq<Structure>, rest: seq<byte>)
    requires h.frameType == 4 && h.flags % 2 == 0 && (forall x <- settings :: x.Setting? && Encodable(x)) && 0 < |rest| < 6
    requires Accepted(policy, acc, h, SettingsWire(settings) + rest)
    ensures FrameReading(policy, acc, h, SettingsWire(settings) + rest) ==
      Reading([OnFrameHeader(h), OnSettingsStart(h.(flags := 0))] + seq(|settings|, i requires 0 <= i < |settings| => OnSetting(settings[i]))
        + [OnFrameSizeError(h.(flags := 0))], true)
  {
    hide CleanHeader, PayloadReading, HasFlag, SettingsWire, Encode, SettingsReading;
    var p := SettingsWire(settings) + rest;
    AckFlag(h);
    AcceptedReading(policy, acc, h, p);
    Unpadded(CleanHeader(h), p);
    SettingsThenRest(CleanHeader(h), settings, rest);
    SettingEventsEach(settings);
    assert ContentReading(CleanHeader(h), |p|, 0, p) == SettingsReading(CleanHeader(h), |p|, p);
  }

  lemma {:induction false} SettingsThenRest(h: FrameHeader, settings: seq<Structure>, rest: seq<byte>)
    requires (forall x <- settings :: x.Setting? && Encodable(x)) && 0 < |rest| < 6
    ensures var p := SettingsWire(settings) + rest; SettingsReading(h, |p|, p) == Reading(SettingEvents(settings) + [OnFrameSizeError(h)], true)
    decreases |settings|
  {
    hide Encode, Decode;
    if settings == [] {
      assert SettingsWire(settings) + rest == rest;
    } else {
      var p := SettingsWire(settings) + rest;
      assert p[..6] == Encode(settings[0]) && p[6..] == SettingsWire(settings[1..]) + rest;
      DecodeEncode(settings[0]);
      SettingsThenRest(h, settings[1..], rest);
    }
  }

  /** PING: eight bytes, sent back in an acknowledgement. */
  lemma PingFrame(policy: Policy, acc: seq<Event>, h: FrameHeader, p: seq<byte>)
    requires h.frameType == 6 && Accepted(policy, acc, h, p)
    ensures FrameReading(policy, acc, h, p) ==
      if |p| != 8 then Reading([OnFrameHeader(h), OnFrameSizeError(h.(flags := h.flags % 2))], true)
      else if h.flags % 2 == 1 then Reading([OnFrameHeader(h), OnPingAck(h.(flags := 1), Ping(p))], false)
      else Reading([OnFrameHeader(h), OnPing(h.(flags := 0), Ping(p))], false)
  {
    hide CleanHeader, PayloadReading, HasFlag;
    AckFlag(h);
    AcceptedReading(policy, acc, h, p);
    Unpadded(CleanHeader(h), p);
    if |p| == 8 {
      assert p[..8] == p;
    }
  }

  // ---- types that define no flags ----

  lemma NoFlags(h: FrameHeader)
    requires h.frameType == 2 || h.frameType == 3 || h.frameType == 7 || h.frameType == 8 || h.frameType == 10
    ensures CleanHeader(h) == h.(flags := 0) && !Padded(CleanHeader(h))
  {
    hide BitAnd;
    FlagBits(h.flags);
  }

  lemma PriorityFrame(policy: Policy, acc: seq<Event>, h: FrameHeader, d: nat, w: nat, e: bool)
    requires h.frameType == 2 && d < 0x8000_0000 && 1 <= w <= 256 && Accepted(policy, acc, h, Encode(Priority(d, w, e)))
    ensures FrameReading(policy, acc, h, Encode(Priority(d, w, e))) ==
      Reading([OnFrameHeader(h), OnPriorityFrame(h.(flags := 0), Priority(d, w, e))], false)
  {
    hide CleanHeader, PayloadReading, HasFlag, Encode, Decode;
    var p := Encode(Priority(d, w, e));
    NoFlags(h);
    AcceptedReading(policy, acc, h, p);
    Unpadded(CleanHeader(h), p);
    DecodeEncode(Priority(d, w, e));
    assert p[..5] == p;
  }

  lemma RstStreamFrame(policy: Policy, acc: seq<Event>, h: FrameHeader, code: nat)
    requires h.frameType == 3 && code < 0x1_0000_0000 && Accepted(policy, acc, h, Encode(RstStream(code)))
    ensures FrameReading(policy, acc, h, Encode(RstStream(code))) ==
      Reading([OnFrameHeader(h), OnRstStream(h.(flags := 0), RstStream(code))], false)
  {
    hide CleanHeader, PayloadReading, HasFlag, Encode, Decode;
    var p := Encode(RstStream(code));
    NoFlags(h);
    AcceptedReading(policy, acc, h, p);
    Unpadded(CleanHeader(h), p);
    DecodeEncode(RstStream(code));
    assert p[..4] == p;
  }

  lemma WindowUpdateFrame(policy: Policy, acc: seq<Event>, h: FrameHeader, increment: nat)
    requires h.frameType == 8 && increment < 0x8000_0000 && Accepted(policy, acc, h, Encode(WindowUpdate(increment)))
    ensures FrameReading(policy, acc, h, Encode(WindowUpdate(increment))) ==
      Reading([OnFrameHeader(h), OnWindowUpdate(h.(flags := 0), WindowUpdate(increment))], false)
  {
    hide CleanHeader, PayloadReading, HasFlag, Encode, Decode;
    var p := Encode(WindowUpdate(increment));
    NoFlags(h);
    AcceptedReading(policy, acc, h, p);
    Unpadded(CleanHeader(h), p);
    DecodeEncode(WindowUpdate(increment));
    assert p[..4] == p;
  }

  /** PRIORITY, RST_STREAM and WINDOW_UPDATE of any other length, and a GOAWAY or ALTSVC too short for its
      fixed fields, are size errors and nothing else. */
  lemma WrongSizeFrame(policy: Policy, acc: seq<Event>, h: FrameHeader, p: seq<byte>)
    requires Accepted(policy, acc, h, p)
    requires (h.frameType == 2 && |p| != 5) || ((h.frameType == 3 || h.frameType == 8) && |p| != 4) || (h.frameType == 7 && |p| < 8) || (h.frameType == 10 && |p| < 2)
    ensures FrameReading(policy, acc, h, p) == Reading([OnFrameHeader(h), OnFrameSizeError(h.(flags := 0))], true)
  {
    hide CleanHeader, PayloadReading, HasFlag, Decode;
    NoFlags(h);
    AcceptedReading(policy, acc, h, p);
    Unpadded(CleanHeader(h), p);
  }

  lemma GoAwayFrame(policy: Policy, acc: seq<Event>, h: FrameHeader, id: nat, code: nat, data: seq<byte>)
    requires h.frameType == 7 && id < 0x8000_0000 && code < 0x1_0000_0000 && Accepted(policy, acc, h, Encode(GoAway(id, code)) + data)
    ensures FrameReading(policy, acc, h, Encode(GoAway(id, code)) + data) ==
      Reading([OnFrameHeader(h), OnGoAwayStart(h.(flags := 0), GoAway(id, code))] + Bytewise(GoAwayOpaqueData, data) + [OnGoAwayEnd], false)
  {
    hide CleanHeader, PayloadReading, HasFlag, Encode, Decode, Bytewise;
    var p := Encode(GoAway(id, code)) + data;
    NoFlags(h);
    AcceptedReading(policy, acc, h, p);
    Unpadded(CleanHeader(h), p);
    DecodeEncode(GoAway(id, code));
    assert p[..8] == Encode(GoAway(id, code)) && p[8..] == data;
  }

  /** ALTSVC: the origin in its announced length, and the value in what is left. */
  lemma AltSvcFrame(policy: Policy, acc: seq<Event>, h: FrameHeader, origin: seq<byte>, value: seq<byte>)
    requires h.frameType == 10 && |origin| < 0x1_0000 && Accepted(policy, acc, h, Encode(AltSvc(|origin|)) + (origin + value))
    ensures FrameReading(policy, acc, h, Encode(AltSvc(|origin|)) + (origin + value)) ==
      Reading([OnFrameHeader(h), OnAltSvcStart(h.(flags := 0), |origin|, |value|)] + Bytewise(AltSvcOrigin, origin) + Bytewise(AltSvcValue, value) + [OnAltSvcEnd], false)
  {
    hide CleanHeader, PayloadReading, HasFlag, Encode, Decode, Bytewise;
    var p := Encode(AltSvc(|origin|)) + (origin + value);
    NoFlags(h);
    AcceptedReading(policy, acc, h, p);
    Unpadded(CleanHeader(h), p);
    DecodeEncode(AltSvc(|origin|));
    assert p[..2] == Encode(AltSvc(|origin|)) && p[2..] == origin + value;
    assert (origin + value)[..|origin|] == origin && (origin + value)[|origin|..] == value;
  }

  lemma AltSvcOriginTooLong(policy: Policy, acc: seq<Event>, h: FrameHeader, n: nat, rest: seq<byte>)
    requires h.frameType == 10 && |rest| < n < 0x1_0000 && Accepted(policy, acc, h, Encode(AltSvc(n)) + rest)
    ensures FrameReading(policy, acc, h, Encode(AltSvc(n)) + rest) == Reading([OnFrameHeader(h), OnFrameSizeError(h.(flags := 0))], true)
  {
    hide CleanHeader, PayloadReading, HasFlag, Encode, Decode;
    var p := Encode(AltSvc(n)) + rest;
    NoFlags(h);
    AcceptedReading(policy, acc, h, p);
    Unpadded(CleanHeader(h), p);
    DecodeEncode(AltSvc(n));
    assert p[..2] == Encode(AltSvc(n));
  }

  /** CONTINUATION: END_HEADERS is kept. */
  lemma ContinuationFrame(policy: Policy, acc: seq<Event>, h: FrameHeader, fragment: seq<byte>)
    requires h.frameType == 9 && Accepted(policy, acc, h, fragment)
    ensures FrameReading(policy, acc, h, fragment) ==
      Reading([OnFrameHeader(h), OnContinuationStart(h.(flags := h.flags / 4 % 2 * 4))] + Bytewise(HpackFragment, fragment) + [OnContinuationEnd], false)
  {
    hide PayloadReading, HasFlag, Bytewise, BitAnd;
    FlagBits(h.flags);
    AcceptedReading(policy, acc, h, fragment);
    Unpadded(CleanHeader(h), fragment);
  }

  /** A frame of an unknown type: its flags are not touched. */
  lemma UnknownFrame(policy: Policy, acc: seq<Event>, h: FrameHeader, p: seq<byte>)
    requires h.frameType > 10 && Accepted(policy, acc, h, p)
    ensures FrameReading(policy, acc, h, p) ==
      Reading([OnFrameHeader(h), OnUnknownStart(h)] + Bytewise(UnknownPayload, p) + [OnUnknownEnd], false)
  {
    hide PayloadReading, HasFlag, Bytewise, BitAnd;
    BitAndAll(h.flags, 8);
    assert CleanHeader(h) == h;
    AcceptedReading(policy, acc, h, p);
    Unpadded(CleanHeader(h), p);
  }
}
