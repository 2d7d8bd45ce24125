/** Whole runs: any bytes, cut into buffers in any way. */
module Http2Runs {
  import opened Wrappers
  import opened BigEndian
  import opened Http2Structures
  import opened Http2Reference
  import opened Http2DecodeBuffer
  import opened Http2StructureDecoding
  import opened Http2FrameDecoderState
  import opened Http2FrameDecoding

  function Flatten(chunks: seq<seq<byte>>): seq<byte> {
    if chunks == [] then [] else Flatten(chunks[..|chunks| - 1]) + chunks[|chunks| - 1]
  }

  /** Decodes one buffer to its end, a frame at a time. */
  method DecodeBuffered(decoder: Http2FrameDecoder, chunk: seq<byte>)
    requires decoder.Valid()
    modifies decoder`phase, decoder`finished, decoder`acc, decoder`frame
    modifies decoder.decoders.dataDecoder, decoder.decoders.headersDecoder, decoder.decoders.pushPromiseDecoder, decoder.decoders.goAwayDecoder, decoder.decoders.altSvcDecoder
    modifies decoder.state, decoder.state.structureDecoder`offset, decoder.state.structureDecoder.buffer, decoder.listener`trace
    ensures decoder.Valid() && decoder.Stream() == old(decoder.Stream()) + chunk
  {
    hide Http2FrameDecoder.Valid, Http2FrameDecoder.FrameStep, Http2FrameDecoder.Stream;
    var db := new DecodeBuffer(chunk);
    while db.HasData()
      invariant decoder.Valid() && db.Valid()
      invariant decoder.Stream() == old(decoder.Stream()) + chunk[..db.cursor]
      decreases db.Remaining(), if decoder.phase == DiscardPayload then 1 else 0
    {
      ghost var c, before := db.cursor, decoder.Stream();
      var status := decoder.DecodeFrame(db);
      assert decoder.Stream() == before + db.data[c..db.cursor];
      assert chunk[..c] + chunk[c..db.cursor] == chunk[..db.cursor];
    }
    assert chunk[..db.cursor] == chunk;
  }

  /** The listener is told the same, whatever the buffers: what the reference says about all
      the bytes put together. */
  method DecodeAll(decoder: Http2FrameDecoder, chunks: seq<seq<byte>>)
    requires decoder.Valid()
    modifies decoder`phase, decoder`finished, decoder`acc, decoder`frame
    modifies decoder.decoders.dataDecoder, decoder.decoders.headersDecoder, decoder.decoders.pushPromiseDecoder, decoder.decoders.goAwayDecoder, decoder.decoders.altSvcDecoder
    modifies decoder.state, decoder.state.structureDecoder`offset, decoder.state.structureDecoder.buffer, decoder.listener`trace
    ensures decoder.Valid() && decoder.Stream() == old(decoder.Stream()) + Flatten(chunks)
    ensures decoder.listener.trace == Trace(decoder.listener.policy, [], old(decoder.Stream()) + Flatten(chunks))
    ensures decoder.Boundary() <==> AtBoundary(old(decoder.Stream()) + Flatten(chunks))
  {
    hide Http2FrameDecoder.Valid, Http2FrameDecoder.Stream, Http2FrameDecoder.Boundary, Trace, AtBoundary;
    assert decoder.Stream() + Flatten(chunks[..0]) == decoder.Stream();
    for i := 0 to |chunks|
      invariant decoder.Valid() && decoder.Stream() == old(decoder.Stream()) + Flatten(chunks[..i])
    {
      DecodeBuffered(decoder, chunks[i]);
      assert chunks[..i + 1][..i] == chunks[..i];
      assert old(decoder.Stream()) + Flatten(chunks[..i]) + chunks[i] == old(decoder.Stream()) + Flatten(chunks[..i + 1]);
    }
    assert chunks[..|chunks|] == chunks;
    decoder.Reported();
  }

  /** A structure in a payload of which r bytes are left, in as many pieces as it takes: it is
      decoded to what one look at all the bytes gives exactly when the payload has room for
      it, and is a frame size error otherwise; the smaller of the two sizes is consumed. */
  method DecodeStructureInPieces(state: FrameDecoderState, kind: Kind, first: seq<byte>, chunks: seq<seq<byte>>)
    returns (status: DecodeStatus, out: Option<Structure>)
    requires state.Valid()
    modifies state`remainingPayload, state.structureDecoder`offset, state.structureDecoder.buffer, state.listener`trace
    ensures var all, r, size := first + Flatten(chunks), old(state.remainingPayload), EncodedSize(kind);
      && state.remainingPayload == r - Min(|all|, Min(size, r))
      && (status.DecodeDone? <==> size <= r && size <= |all|)
      && (status.DecodeDone? ==> out == Some(Decode(kind, all[..size])))
      && (status.DecodeError? <==> r < size && r <= |all|)
      && state.listener.trace == old(state.listener.trace) + if status.DecodeError? then [OnFrameSizeError(state.frameHeader)] else []
  {
    hide Decode, Flatten, EncodedSize;
    assert Flatten(chunks[..0]) == [] by { FlattenNone(chunks); }
    ghost var r, size := state.remainingPayload, EncodedSize(kind);
    var db := new DecodeBuffer(first);
    status, out := state.StartDecodingStructureInPayload(kind, db);
    ghost var all := first;
    ghost var t := db.data[0..db.cursor];
    assert [] + t == t == first[..|t|];
    var i := 0;
    while i < |chunks| && status == DecodeInProgress
      invariant 0 <= i <= |chunks| && state.Valid()
      invariant all == first + Flatten(chunks[..i])
      invariant |t| <= |all| && t == all[..|t|] && |t| <= size && |t| + state.remainingPayload == r
      invariant status.DecodeInProgress? ==> |t| < size && state.remainingPayload > 0 && t == all && state.structureDecoder.Buffered() == t
      invariant status.DecodeDone? ==> |t| == size && out == Some(Decode(kind, t))
      invariant status.DecodeError? ==> |t| < size && state.remainingPayload == 0
      invariant state.listener.trace == old(state.listener.trace) + if status.DecodeError? then [OnFrameSizeError(state.frameHeader)] else []
    {
      db := new DecodeBuffer(chunks[i]);
      status, out := state.ResumeDecodingStructureInPayload(kind, db);
      ghost var q := db.data[0..db.cursor];
      assert t + q == (all + chunks[i])[..|t + q|];
      FlattenSnoc(first, chunks, i);
      t, all := t + q, all + chunks[i];
      i := i + 1;
    }
    PrefixOfAll(first, chunks, i, t);
    assert (first + Flatten(chunks))[..|t|] == t;
  }

  lemma FlattenNone(chunks: seq<seq<byte>>)
    ensures Flatten(chunks[..0]) == []
  {
  }

  lemma FlattenSnoc(first: seq<byte>, chunks: seq<seq<byte>>, i: nat)
    requires i < |chunks|
    ensures first + Flatten(chunks[..i]) + chunks[i] == first + Flatten(chunks[..i + 1])
  {
    assert chunks[..i + 1][..i] == chunks[..i];
  }

  lemma PrefixOfAll(first: seq<byte>, chunks: seq<seq<byte>>, i: nat, t: seq<byte>)
    requires i <= |chunks| && t <= first + Flatten(chunks[..i])
    ensures t <= first + Flatten(chunks) && |Flatten(chunks[..i])| <= |Flatten(chunks)|
    ensures i == |chunks| ==> Flatten(chunks[..i]) == Flatten(chunks)
  {
    FlattenPrefix(chunks, i);
    assert i == |chunks| ==> chunks[..i] == chunks;
  }

  lemma {:induction false} FlattenPrefix(chunks: seq<seq<byte>>, i: nat)
    requires i <= |chunks|
    ensures Flatten(chunks[..i]) <= Flatten(chunks)
    decreases |chunks|
  {
    if i == |chunks| {
      assert chunks[..i] == chunks;
    } else {
      var init := chunks[..|chunks| - 1];
      assert init[..i] == chunks[..i];
      FlattenPrefix(init, i);
    }
  }

  // ---- streams of frames ----

  datatype Frame = Frame(header: FrameHeader, payload: seq<byte>)

  predicate WellFormed(f: Frame) {
    Encodable(Header(f.header)) && f.header.payloadLength == |f.payload|
  }

  ghost predicate AllWellFormed(frames: seq<Frame>) {
    forall i :: 0 <= i < |frames| ==> WellFormed(frames[i])
  }

  ghost function Wire(frames: seq<Frame>): seq<byte>
    requires AllWellFormed(frames)
  {
    if frames == [] then [] else Encode(Header(frames[0].header)) + frames[0].payload + Wire(frames[1..])
  }

  /** What is reported about the frames one after the other. */
  ghost function FramesTrace(policy: Policy, acc: seq<Event>, frames: seq<Frame>): seq<Event>
    requires AllWellFormed(frames)
    decreases |frames|
  {
    if frames == [] then acc
    else FramesTrace(policy, acc + FrameReading(policy, acc, frames[0].header, frames[0].payload).events, frames[1..])
  }

  /** The reference finds every frame where it was put, whatever is in the frames before it:
      after an accepted, a rejected, an oversize or a malformed frame, decoding goes on at
      exactly the next header. */
  lemma {:induction false} WireTrace(policy: Policy, acc: seq<Event>, frames: seq<Frame>)
    requires AllWellFormed(frames)
    ensures Trace(policy, acc, Wire(frames)) == FramesTrace(policy, acc, frames)
    ensures AtBoundary(Wire(frames))
    decreases |frames|
  {
    if frames != [] {
      hide FrameReading, Encode, Decode;
      var h, p, rest := frames[0].header, frames[0].payload, Wire(frames[1..]);
      var e := Encode(Header(h));
      var s := Wire(frames);
      assert s == e + p + rest;
      DecodeEncode(Header(h));
      assert s[..HEADER_SIZE] == e;
      assert s[HEADER_SIZE..FrameSize(s)] == p && s[FrameSize(s)..] == rest;
      WireTrace(policy, acc + FrameReading(policy, acc, h, p).events, frames[1..]);
    }
  }

  function HeadersIn(events: seq<Event>): seq<FrameHeader> {
    if events == [] then []
    else HeadersIn(events[..|events| - 1]) + if events[|events| - 1].OnFrameHeader? then [events[|events| - 1].header] else []
  }

  lemma {:induction false} HeadersInConcat(a: seq<Event>, b: seq<Event>)
    ensures HeadersIn(a + b) == HeadersIn(a) + HeadersIn(b)
  {
    if b == [] {
      assert a + b == a;
    } else {
      assert (a + b)[..|a + b| - 1] == a + b[..|b| - 1];
      HeadersInConcat(a, b[..|b| - 1]);
    }
  }

  ghost predicate NoHeader(events: seq<Event>) {
    forall e <- events :: !e.OnFrameHeader?
  }

  lemma {:induction false} NoHeaderIn(events: seq<Event>)
    requires NoHeader(events)
    ensures HeadersIn(events) == []
  {
    if events != [] {
      NoHeaderIn(events[..|events| - 1]);
    }
  }

  lemma {:induction false} SettingsNoHeader(h: FrameHeader, n: nat, c: seq<byte>)
    requires |c| <= n
    ensures NoHeader(SettingsReading(h, n, c).events)
  {
    if 6 <= |c| {
      SettingsNoHeader(h, n - 6, c[6..]);
    }
  }

  lemma ContentNoHeader(h: FrameHeader, n: nat, pad: nat, c: seq<byte>)
    requires |c| <= n
    ensures NoHeader(ContentReading(h, n, pad, c).events)
  {
    if h.frameType == SETTINGS && !IsAck(h) {
      SettingsNoHeader(h, n, c);
    }
  }

  lemma BodyNoHeader(h: FrameHeader, n: nat, pad: nat, b: seq<byte>)
    requires |b| <= n + pad
    ensures NoHeader(BodyReading(h, n, pad, b).events)
  {
    hide ContentReading;
    ContentNoHeader(h, n, pad, b[..Min(n, |b|)]);
  }

  lemma PayloadNoHeader(h: FrameHeader, p: seq<byte>)
    requires |p| <= h.payloadLength
    ensures NoHeader(PayloadReading(h, p).events)
  {
    hide BodyReading;
    if !Padded(h) {
      BodyNoHeader(h, h.payloadLength, 0, p);
    } else if p != [] && p[0] as nat + 1 <= h.payloadLength {
      BodyNoHeader(h, h.payloadLength - 1 - p[0], p[0], p[1..]);
    }
  }

  lemma FrameOneHeader(policy: Policy, acc: seq<Event>, h: FrameHeader, p: seq<byte>)
    requires |p| <= h.payloadLength
    ensures HeadersIn(FrameReading(policy, acc, h, p).events) == [h]
  {
    hide PayloadReading;
    var rest :=
      if !policy.accept(acc, h) then []
      else if h.payloadLength > policy.maximumPayloadSize then [OnFrameSizeError(h)]
      else PayloadReading(CleanHeader(h), p).events;
    PayloadNoHeader(CleanHeader(h), p);
    NoHeaderIn(rest);
    assert HeadersIn([OnFrameHeader(h)]) == [h];
    HeadersInConcat([OnFrameHeader(h)], rest);
    assert FrameReading(policy, acc, h, p).events == [OnFrameHeader(h)] + rest;
  }

  function HeadersOf(frames: seq<Frame>): seq<FrameHeader> {
    seq(|frames|, i requires 0 <= i < |frames| => frames[i].header)
  }

  /** The OnFrameHeader calls are exactly the headers written, in order. */
  lemma {:induction false} HeadersReported(policy: Policy, acc: seq<Event>, frames: seq<Frame>)
    requires AllWellFormed(frames)
    ensures HeadersIn(Trace(policy, acc, Wire(frames))) == HeadersIn(acc) + HeadersOf(frames)
    decreases |frames|
  {
    hide FrameReading, Trace, Wire;
    WireTrace(policy, acc, frames);
    if frames != [] {
      var h, p := frames[0].header, frames[0].payload;
      var acc' := acc + FrameReading(policy, acc, h, p).events;
      FrameOneHeader(policy, acc, h, p);
      HeadersInConcat(acc, FrameReading(policy, acc, h, p).events);
      HeadersReported(policy, acc', frames[1..]);
      WireTrace(policy, acc', frames[1..]);
      var rest := HeadersOf(frames[1..]);
      assert HeadersOf(frames) == [h] + rest;
      assert HeadersIn(acc) + ([h] + rest) == HeadersIn(acc) + [h] + rest;
    } else {
      assert HeadersIn(acc) + HeadersOf(frames) == HeadersIn(acc);
    }
  }

  /** Frames written one after the other, cut into buffers in any way, whatever the listener refuses:
      it is told of exactly the headers written, in order, and the decoder has taken every frame whole. */
  method DecodeFrames(listener: Listener, frames: seq<Frame>, chunks: seq<seq<byte>>) returns (decoder: Http2FrameDecoder)
    requires listener.trace == [] && AllWellFormed(frames) && Flatten(chunks) == Wire(frames)
    modifies listener`trace
    ensures HeadersIn(listener.trace) == HeadersOf(frames)
    ensures listener.trace == FramesTrace(listener.policy, [], frames)
    ensures decoder.Valid() && decoder.listener == listener && decoder.Stream() == Wire(frames) && decoder.Boundary()
  {
    hide Http2FrameDecoder.Valid, Http2FrameDecoder.Stream, Http2FrameDecoder.Boundary, Trace, AtBoundary, FramesTrace, Wire, Flatten, HeadersOf;
    decoder := new Http2FrameDecoder(listener);
    assert decoder.Stream() + Flatten(chunks) == Flatten(chunks);
    DecodeAll(decoder, chunks);
    WireTrace(listener.policy, [], frames);
    HeadersReported(listener.policy, [], frames);
    assert HeadersIn([]) + HeadersOf(frames) == HeadersOf(frames);
  }

  // ---- what the reference says about particular frames ----

  function CountPart(part: Part, events: seq<Event>): nat {
    if events == [] then 0
    else CountPart(part, events[..|events| - 1]) + if events[|events| - 1].OnByte? && events[|events| - 1].part == part then 1 else 0
  }

  lemma {:induction false} CountConcat(part: Part, a: seq<Event>, b: seq<Event>)
    ensures CountPart(part, a + b) == CountPart(part, a) + CountPart(part, b)
  {
    if b == [] {
      assert a + b == a;
    } else {
      assert (a + b)[..|a + b| - 1] == a + b[..|b| - 1];
      CountConcat(part, a, b[..|b| - 1]);
    }
  }

  lemma {:induction false} CountBytewise(part: Part, s: seq<byte>)
    ensures CountPart(part, Bytewise(part, s)) == |s|
  {
    if s != [] {
      assert Bytewise(part, s)[..|s| - 1] == Bytewise(part, s[..|s| - 1]);
      CountBytewise(part, s[..|s| - 1]);
    }
  }

  lemma {:induction false} CountNone(part: Part, events: seq<Event>)
    requires forall e <- events :: !(e.OnByte? && e.part == part)
    ensures CountPart(part, events) == 0
  {
    if events != [] {
      CountNone(part, events[..|events| - 1]);
    }
  }

  lemma ContentNoPadding(h: FrameHeader, n: nat, pad: nat, c: seq<byte>)
    requires |c| <= n && h.frameType != SETTINGS
    ensures forall e <- ContentReading(h, n, pad, c).events :: !(e.OnByte? && e.part == Padding) && !e.OnPaddingTooLong?
  {
  }

  /** The padding rules of section 6.1: a padded payload is turned down as too long in padding
      exactly when its Pad Length is not less than its length, or it has no room for the field
      at all; otherwise, if its content is sound, exactly Pad Length bytes are skipped. */
  lemma PaddingVerdict(h: FrameHeader, p: seq<byte>)
    requires Padded(h) && |p| == h.payloadLength
    ensures (exists e <- PayloadReading(h, p).events :: e.OnPaddingTooLong?) <==> p == [] || p[0] as nat >= |p|
    ensures !PayloadReading(h, p).failed ==> p != [] && CountPart(Padding, PayloadReading(h, p).events) == p[0]
  {
    hide PayloadReading, BodyReading, StartEvents, EndEvents, PadLengthEvents, CountPart;
    if p == [] || p[0] as nat >= |p| {
      PaddingRefused(h, p);
    } else {
      var start, end := StartEvents(h) + PadLengthEvents(h, p[0]), EndEvents(h);
      var r := BodyReading(h, |p| - 1 - p[0], p[0], p[1..]);
      PaddingInBody(h, p[0], p[1..]);
      PaddingAccepted(h, p);
      CountNone(Padding, start);
      CountNone(Padding, end);
      CountConcat(Padding, start, r.events);
      CountConcat(Padding, start + r.events, end);
    }
  }

  lemma PaddingRefused(h: FrameHeader, p: seq<byte>)
    requires Padded(h) && |p| == h.payloadLength && (p == [] || p[0] as nat >= |p|)
    ensures PayloadReading(h, p).failed && exists e <- PayloadReading(h, p).events :: e.OnPaddingTooLong?
  {
    var events := PayloadReading(h, p).events;
    assert events[|events| - 1].OnPaddingTooLong?;
  }

  lemma PaddingAccepted(h: FrameHeader, p: seq<byte>)
    requires Padded(h) && |p| == h.payloadLength && p != [] && (p[0] as nat) < |p|
    ensures var start, end := StartEvents(h) + PadLengthEvents(h, p[0]), EndEvents(h);
      var r := BodyReading(h, |p| - 1 - p[0], p[0], p[1..]);
      && PayloadReading(h, p) == Reading(start + r.events + (if r.failed then [] else end), r.failed)
      && (forall e <- start + end :: !(e.OnByte? && e.part == Padding) && !e.OnPaddingTooLong?)
  {
    hide BodyReading;
    var start := StartEvents(h) + PadLengthEvents(h, p[0]);
    var r := BodyReading(h, |p| - 1 - p[0], p[0], p[1..]);
    assert start + r.events + [] == start + r.events;
  }

  lemma PaddingInBody(h: FrameHeader, pad: nat, b: seq<byte>)
    requires h.frameType != SETTINGS && pad <= |b|
    ensures var r := BodyReading(h, |b| - pad, pad, b);
      && (forall e <- r.events :: !e.OnPaddingTooLong?)
      && (!r.failed ==> CountPart(Padding, r.events) == pad)
  {
    hide ContentReading;
    var n := |b| - pad;
    var c := ContentReading(h, n, pad, b[..n]);
    ContentNoPadding(h, n, pad, b[..n]);
    CountNone(Padding, c.events);
    CountBytewise(Padding, b[n..]);
    CountConcat(Padding, c.events, Bytewise(Padding, b[n..]));
  }

  /** A DATA payload put together with padding comes out as its data. */
  lemma DataRoundTrip(h: FrameHeader, data: seq<byte>, padding: seq<byte>)
    requires h.frameType == DATA && |padding| < 256
    requires h.payloadLength == if IsPadded(h) then 1 + |data| + |padding| else |data|
    ensures IsPadded(h) ==>
      PayloadReading(h, [|padding|] + data + padding) ==
        Reading([OnDataStart(h), OnPadLength(|padding|)] + Bytewise(DataPayload, data) + Bytewise(Padding, padding) + [OnDataEnd], false)
    ensures !IsPadded(h) ==>
      PayloadReading(h, data) == Reading([OnDataStart(h)] + Bytewise(DataPayload, data) + [OnDataEnd], false)
  {
    hide Bytewise;
    if IsPadded(h) {
      var p: seq<byte> := [|padding|] + data + padding;
      var b := p[1..];
      assert b == data + padding && b[..|data|] == data && b[|data|..] == padding;
      assert BodyReading(h, |data|, |padding|, b) == Reading(Bytewise(DataPayload, data) + Bytewise(Padding, padding), false);
    } else {
      assert data[..|data|] == data && data[|data|..] == [];
      assert BodyReading(h, |data|, 0, data) == Reading(Bytewise(DataPayload, data) + Bytewise(Padding, []), false);
      assert Bytewise(Padding, []) == [];
    }
  }

  function SettingsWire(settings: seq<Structure>): seq<byte>
    requires forall x <- settings :: x.Setting? && Encodable(x)
  {
    if settings == [] then [] else Encode(settings[0]) + SettingsWire(settings[1..])
  }

  function SettingEvents(settings: seq<Structure>): seq<Event> {
    if settings == [] then [] else [OnSetting(settings[0])] + SettingEvents(settings[1..])
  }

  lemma {:induction false} SettingsWireReading(h: FrameHeader, settings: seq<Structure>)
    requires forall x <- settings :: x.Setting? && Encodable(x)
    ensures var w := SettingsWire(settings); SettingsReading(h, |w|, w) == Reading(SettingEvents(settings), false)
    decreases |settings|
  {
    if settings != [] {
      hide Encode, Decode;
      var w := SettingsWire(settings);
      var first := Encode(settings[0]);
      assert w[..6] == first && w[6..] == SettingsWire(settings[1..]);
      DecodeEncode(settings[0]);
      SettingsWireReading(h, settings[1..]);
    }
  }

  /** Any list of settings written one after the other is reported as that list. */
  lemma SettingsRoundTrip(h: FrameHeader, settings: seq<Structure>)
    requires h.frameType == SETTINGS && !IsAck(h)
    requires forall x <- settings :: x.Setting? && Encodable(x)
    requires h.payloadLength == |SettingsWire(settings)|
    ensures PayloadReading(h, SettingsWire(settings)) == Reading([OnSettingsStart(h)] + SettingEvents(settings) + [OnSettingsEnd], false)
  {
    var w := SettingsWire(settings);
    SettingsWireReading(h, settings);
    assert w[..|w|] == w && w[|w|..] == [];
  }
}
