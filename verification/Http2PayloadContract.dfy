/** What the payload decoders have in common: where the accounts of a frame stand after a
    prefix of its payload, and what a decoder promises for the bytes it takes. */
module Http2PayloadContract {
  import opened BigEndian
  import opened Http2Structures
  import opened Http2Reference
  import opened Http2DecodeBuffer
  import opened Http2StructureDecoding
  import opened Http2FrameDecoderState

  /** Unpadded payload bytes still to come after the prefix p. */
  ghost function PayloadLeft(h: FrameHeader, p: seq<byte>): nat
    requires |p| <= h.payloadLength
  {
    if !Padded(h) || p == [] || p[0] as nat >= h.payloadLength then h.payloadLength - |p|
    else
      var n := h.payloadLength - 1 - p[0];
      if |p| - 1 <= n then n - (|p| - 1) else 0
  }

  /** The accounts balance: taken + remaining payload + remaining padding == payload length. */
  ghost predicate Accounts(state: FrameDecoderState, p: seq<byte>)
    requires |p| <= state.frameHeader.payloadLength
    reads state
  {
    && state.remainingPayload == PayloadLeft(state.frameHeader, p)
    && |p| + state.remainingPayload + state.remainingPadding == state.frameHeader.payloadLength
  }

  /** Reported before the next byte of an unfinished payload is looked at. */
  ghost function Before(h: FrameHeader, p: seq<byte>): seq<Event>
    requires |p| <= h.payloadLength
  {
    if p == [] then StartEvents(h) else OpenReading(h, p).events
  }

  /** A decoder that has now taken t of the payload has reported exactly what the reference
      reports for t; it stops at the end of the payload, on an error, or when the input is
      used up, and in the last two cases leaves the accounts right. */
  ghost predicate Outcome(state: FrameDecoderState, db: DecodeBuffer, base: seq<Event>, t: seq<byte>, status: DecodeStatus)
    reads state, state.listener, db
  {
    var h := state.frameHeader;
    && |t| <= h.payloadLength
    && state.listener.trace == base + PayloadReading(h, t).events
    && (status.DecodeError? <==> PayloadReading(h, t).failed)
    && (status.DecodeDone? ==> |t| == h.payloadLength)
    && (status.DecodeInProgress? ==> |t| < h.payloadLength && !db.HasData())
    && (!status.DecodeDone? ==> Accounts(state, t))
  }

  ghost predicate Ready(state: FrameDecoderState, db: DecodeBuffer, base: seq<Event>, p: seq<byte>)
    reads state, state.structureDecoder, state.listener, db
  {
    var h := state.frameHeader;
    && state.Valid() && db.Valid()
    && |p| + db.Remaining() <= h.payloadLength
    && (p == [] || |p| < h.payloadLength)
    && Accounts(state, p)
    && state.listener.trace == base + Before(h, p)
  }

  ghost predicate ReadyToStart(state: FrameDecoderState, db: DecodeBuffer, base: seq<Event>)
    reads state, state.structureDecoder, state.listener, db
  {
    && state.Valid() && db.Valid()
    && db.Remaining() <= state.frameHeader.payloadLength
    && state.listener.trace == base
  }
}


/** How the reference advances, one kind of step at a time. */
module Http2PayloadSteps {
  import opened BigEndian
  import opened Http2Structures
  import opened Http2Reference
  import opened Http2PayloadContract

  /** The content length is known: there is no padding, or its length has been read and fits. */
  ghost predicate PadKnown(h: FrameHeader, p: seq<byte>) {
    Padded(h) ==> p != [] && p[0] as nat < h.payloadLength
  }

  ghost function PadByte(h: FrameHeader): nat {
    if Padded(h) then 1 else 0
  }

  ghost function PadLength(h: FrameHeader, p: seq<byte>): nat
    requires PadKnown(h, p)
  {
    if Padded(h) then p[0] else 0
  }

  ghost function ContentLength(h: FrameHeader, p: seq<byte>): nat
    requires PadKnown(h, p)
  {
    h.payloadLength - PadByte(h) - PadLength(h, p)
  }

  /** Reported before the content. */
  ghost function Intro(h: FrameHeader, p: seq<byte>): seq<Event>
    requires PadKnown(h, p)
  {
    StartEvents(h) + if Padded(h) then PadLengthEvents(h, p[0]) else []
  }

  ghost function LeadingSize(h: FrameHeader): nat {
    if HasLeadingStructure(h) then EncodedSize(LeadingKind(h)) else 0
  }

  /** Frame types whose content, after any leading structure, is one run of bytes. */
  ghost predicate HasSimpleTail(h: FrameHeader) {
    h.frameType != SETTINGS && !IsFixedSize(h) && h.frameType != ALTSVC
  }

  function TailPart(h: FrameHeader): Part {
    if h.frameType == DATA then DataPayload
    else if h.frameType == HEADERS || h.frameType == PUSH_PROMISE || h.frameType == CONTINUATION then HpackFragment
    else if h.frameType == GOAWAY then GoAwayOpaqueData
    else UnknownPayload
  }

  /** The leading structure, if any, is complete. */
  ghost predicate InTail(h: FrameHeader, p: seq<byte>) {
    && |p| <= h.payloadLength && PadKnown(h, p)
    && PadByte(h) + LeadingSize(h) <= |p| && LeadingSize(h) <= ContentLength(h, p)
  }

  lemma OpenIs(h: FrameHeader, p: seq<byte>)
    requires PadKnown(h, p) && |p| <= h.payloadLength
    ensures var r := BodyReading(h, ContentLength(h, p), PadLength(h, p), p[PadByte(h)..]);
            OpenReading(h, p) == Reading(Intro(h, p) + r.events, r.failed)
  {
    if Padded(h) {
      assert StartEvents(h) + PadLengthEvents(h, p[0]) == Intro(h, p);
    } else {
      assert StartEvents(h) == Intro(h, p) && p[0..] == p;
    }
  }

  /** After the pad length and before any content. */
  lemma IntroStep(h: FrameHeader, p: seq<byte>)
    requires PadKnown(h, p) && |p| == PadByte(h) <= h.payloadLength
    requires LeadingSize(h) == 0 && HasSimpleTail(h)
    ensures OpenReading(h, p) == Reading(Intro(h, p), false) && InTail(h, p)
  {
    OpenIs(h, p);
  }

  lemma IntroIsStart(h: FrameHeader)
    requires !Padded(h)
    ensures Intro(h, []) == StartEvents(h)
  {
  }

  lemma PadMissing(h: FrameHeader)
    requires Padded(h)
    ensures h.payloadLength == 0 ==> OpenReading(h, []) == Reading(StartEvents(h) + [OnPaddingTooLong(h, 1)], true)
    ensures h.payloadLength > 0 ==> OpenReading(h, []) == Reading(StartEvents(h), false)
  {
  }

  lemma PadTooLong(h: FrameHeader, p: seq<byte>)
    requires Padded(h) && |p| == 1 <= h.payloadLength && !PadKnown(h, p)
    ensures OpenReading(h, p) == Reading(StartEvents(h) + [OnPaddingTooLong(h, p[0] as nat + 1 - h.payloadLength)], true)
  {
  }

  /** Part or all of the leading structure. */
  lemma LeadingStep(h: FrameHeader, p: seq<byte>, a: seq<byte>)
    requires HasLeadingStructure(h)
    requires PadKnown(h, p) && |p| == PadByte(h) && |p + a| <= h.payloadLength
    requires |a| <= LeadingSize(h) && |a| <= ContentLength(h, p)
    ensures PadKnown(h, p + a) && Intro(h, p + a) == Intro(h, p) && ContentLength(h, p + a) == ContentLength(h, p)
    ensures |a| < LeadingSize(h) && |a| == ContentLength(h, p) ==>
      OpenReading(h, p + a) == Reading(Intro(h, p) + [OnFrameSizeError(h)], true)
    ensures |a| < LeadingSize(h) && |a| < ContentLength(h, p) ==>
      OpenReading(h, p + a) == Reading(Intro(h, p), false)
    ensures |a| == LeadingSize(h) && HasSimpleTail(h) ==>
      && InTail(h, p + a)
      && OpenReading(h, p + a) == Reading(Intro(h, p) + [LeadingEvent(h, ContentLength(h, p), PadLength(h, p), Decode(LeadingKind(h), a))], false)
    ensures |a| == LeadingSize(h) && IsFixedSize(h) ==>
      OpenReading(h, p + a) == Reading(Intro(h, p) + [
        if ContentLength(h, p) == |a| then LeadingEvent(h, ContentLength(h, p), PadLength(h, p), Decode(LeadingKind(h), a)) else OnFrameSizeError(h)],
        ContentLength(h, p) != |a|)
    ensures PayloadLeft(h, p + a) == ContentLength(h, p) - |a|
  {
    OpenIs(h, p + a);
    assert (p + a)[PadByte(h)..] == a && a[..|a|] == a && a[|a|..] == [];
  }

  /** The leading structure is complete after t. */
  lemma LeadingDone(h: FrameHeader, t: seq<byte>)
    requires HasLeadingStructure(h) && HasSimpleTail(h)
    requires |t| == PadByte(h) + LeadingSize(h) <= h.payloadLength && PadKnown(h, t) && LeadingSize(h) <= ContentLength(h, t)
    ensures InTail(h, t)
    ensures OpenReading(h, t) == Reading(Intro(h, t) + [LeadingEvent(h, ContentLength(h, t), PadLength(h, t), Decode(LeadingKind(h), t[PadByte(h)..]))], false)
  {
    hide OpenReading, LeadingEvent, Decode, EncodedSize, LeadingKind;
    var p, a := t[..PadByte(h)], t[PadByte(h)..];
    assert t == p + a;
    LeadingStep(h, p, a);
  }

  lemma TailEventsConcat(h: FrameHeader, c: seq<byte>, d: seq<byte>)
    requires HasSimpleTail(h)
    ensures TailEvents(h, 0, c + d) == TailEvents(h, 0, c) + Bytewise(TailPart(h), d)
  {
    BytewiseConcat(TailPart(h), c, d);
  }

  /** The content of a complete leading structure and a run of bytes. */
  lemma ContentIs(h: FrameHeader, n: nat, pad: nat, c: seq<byte>)
    requires HasSimpleTail(h) && LeadingSize(h) <= |c| <= n
    ensures ContentReading(h, n, pad, c) == Reading(LeadingEvents(h, n, pad, c) + TailEvents(h, 0, c[LeadingSize(h)..]), false)
  {
    if !HasLeadingStructure(h) {
      assert c[0..] == c;
      assert [] + TailEvents(h, 0, c) == TailEvents(h, 0, c);
    }
  }

  ghost function LeadingEvents(h: FrameHeader, n: nat, pad: nat, c: seq<byte>): seq<Event>
    requires HasSimpleTail(h) && LeadingSize(h) <= |c| <= n
  {
    if HasLeadingStructure(h) then [LeadingEvent(h, n, pad, Decode(LeadingKind(h), c[..LeadingSize(h)]))] else []
  }

  lemma ContentStep(h: FrameHeader, n: nat, pad: nat, c: seq<byte>, d: seq<byte>)
    requires HasSimpleTail(h) && LeadingSize(h) <= |c| && |c + d| <= n
    ensures !ContentReading(h, n, pad, c).failed
    ensures ContentReading(h, n, pad, c + d) == Reading(ContentReading(h, n, pad, c).events + Bytewise(TailPart(h), d), false)
  {
    hide *;
    var k := LeadingSize(h);
    ContentIs(h, n, pad, c);
    ContentIs(h, n, pad, c + d);
    assert (c + d)[k..] == c[k..] + d && (c + d)[..k] == c[..k];
    TailEventsConcat(h, c[k..], d);
    SameLeading(h, n, pad, c, d);
    var lead, t, u := LeadingEvents(h, n, pad, c), TailEvents(h, 0, c[k..]), Bytewise(TailPart(h), d);
    assert lead + (t + u) == lead + t + u;
  }

  lemma SameLeading(h: FrameHeader, n: nat, pad: nat, c: seq<byte>, d: seq<byte>)
    requires HasSimpleTail(h) && LeadingSize(h) <= |c| && |c + d| <= n
    ensures LeadingEvents(h, n, pad, c + d) == LeadingEvents(h, n, pad, c)
  {
    var k := LeadingSize(h);
    assert (c + d)[..k] == c[..k];
  }

  lemma BodyInContent(h: FrameHeader, n: nat, pad: nat, b: seq<byte>)
    requires |b| <= n
    ensures BodyReading(h, n, pad, b) == ContentReading(h, n, pad, b)
  {
    assert b[..|b|] == b && b[|b|..] == [];
    var r := ContentReading(h, n, pad, b);
    assert r.events + Bytewise(Padding, []) == r.events;
  }

  lemma BodyInPadding(h: FrameHeader, n: nat, pad: nat, b: seq<byte>, d: seq<byte>)
    requires n <= |b| && |b + d| <= n + pad && !BodyReading(h, n, pad, b).failed
    ensures BodyReading(h, n, pad, b + d) == Reading(BodyReading(h, n, pad, b).events + Bytewise(Padding, d), false)
  {
    assert (b + d)[..n] == b[..n] && (b + d)[n..] == b[n..] + d;
    BytewiseConcat(Padding, b[n..], d);
    var r := ContentReading(h, n, pad, b[..n]);
    assert r.events + (Bytewise(Padding, b[n..]) + Bytewise(Padding, d)) == r.events + Bytewise(Padding, b[n..]) + Bytewise(Padding, d);
  }

  lemma BodyNotFailed(h: FrameHeader, n: nat, pad: nat, b: seq<byte>)
    requires HasSimpleTail(h) && LeadingSize(h) <= |b| <= n + pad && LeadingSize(h) <= n
    ensures !BodyReading(h, n, pad, b).failed
  {
    ContentIs(h, n, pad, b[..Min(n, |b|)]);
  }

  /** Cutting a prefix does not change what its first byte says about the layout. */
  lemma SameLayout(h: FrameHeader, p: seq<byte>, d: seq<byte>)
    requires |p + d| <= h.payloadLength && PadKnown(h, p)
    ensures PadKnown(h, p + d) && PadLength(h, p + d) == PadLength(h, p) && ContentLength(h, p + d) == ContentLength(h, p)
    ensures Intro(h, p + d) == Intro(h, p)
    ensures PadByte(h) <= |p| ==> (p + d)[PadByte(h)..] == p[PadByte(h)..] + d
    ensures PayloadLeft(h, p) == if |p| - PadByte(h) <= ContentLength(h, p) then ContentLength(h, p) - (|p| - PadByte(h)) else 0
  {
  }

  /** More of the run of bytes after the leading structure. */
  lemma TailStep(h: FrameHeader, p: seq<byte>, d: seq<byte>)
    requires HasSimpleTail(h) && InTail(h, p) && |d| <= PayloadLeft(h, p)
    ensures |p + d| <= h.payloadLength && InTail(h, p + d)
    ensures PayloadLeft(h, p + d) == PayloadLeft(h, p) - |d|
    ensures !OpenReading(h, p).failed
    ensures OpenReading(h, p + d) == Reading(OpenReading(h, p).events + Bytewise(TailPart(h), d), false)
  {
    hide OpenReading, BodyReading, ContentReading, Intro, TailPart, HasLeadingStructure, LeadingSize, HasSimpleTail;
    SameLayout(h, p, []);
    SameLayout(h, p, d);
    SameLayout(h, p + d, []);
    OpenIs(h, p);
    OpenIs(h, p + d);
    var n, pad, b := ContentLength(h, p), PadLength(h, p), p[PadByte(h)..];
    BodyNotFailed(h, n, pad, b);
    if d == [] {
      assert p + d == p && OpenReading(h, p).events + Bytewise(TailPart(h), d) == OpenReading(h, p).events;
    } else {
      BodyInContent(h, n, pad, b);
      BodyInContent(h, n, pad, b + d);
      ContentStep(h, n, pad, b, d);
      var i, e, f := Intro(h, p), BodyReading(h, n, pad, b).events, Bytewise(TailPart(h), d);
      assert i + (e + f) == i + e + f;
    }
  }

  /** Padding, once the content is complete. */
  lemma PaddingStep(h: FrameHeader, p: seq<byte>, d: seq<byte>)
    requires HasSimpleTail(h) && InTail(h, p) && PayloadLeft(h, p) == 0 && |p + d| <= h.payloadLength
    ensures InTail(h, p + d) && PayloadLeft(h, p + d) == 0
    ensures OpenReading(h, p + d) == Reading(OpenReading(h, p).events + Bytewise(Padding, d), false)
  {
    hide OpenReading, BodyReading, ContentReading, Intro, TailPart, HasLeadingStructure, LeadingSize, HasSimpleTail;
    SameLayout(h, p, d);
    SameLayout(h, p + d, []);
    OpenIs(h, p);
    OpenIs(h, p + d);
    var n, pad, b := ContentLength(h, p), PadLength(h, p), p[PadByte(h)..];
    BodyNotFailed(h, n, pad, b);
    BodyInPadding(h, n, pad, b, d);
    var i, e, f := Intro(h, p), BodyReading(h, n, pad, b).events, Bytewise(Padding, d);
    assert i + (e + f) == i + e + f;
  }

  /** A payload of which nothing has arrived has reported its start, unless it is wrong already. */
  lemma NothingYet(h: FrameHeader)
    requires h.payloadLength > 0 && !OpenReading(h, []).failed
    ensures OpenReading(h, []).events == StartEvents(h)
  {
    if Padded(h) {
      PadMissing(h);
    } else {
      IntroIsStart(h);
      if HasLeadingStructure(h) {
        LeadingStep(h, [], []);
      } else if h.frameType != SETTINGS {
        IntroStep(h, []);
      } else {
        assert StartEvents(h) + [] == StartEvents(h);
      }
    }
  }

  lemma BeforeIsReading(h: FrameHeader, p: seq<byte>)
    requires |p| < h.payloadLength && !PayloadReading(h, p).failed
    ensures Before(h, p) == PayloadReading(h, p).events
  {
    hide OpenReading;
    if p == [] {
      NothingYet(h);
    }
  }
}
