/** The moves payload decoders are made of, with what each adds to the reference. */
module Http2PayloadMoves {
  import opened Wrappers
  import opened BigEndian
  import opened Http2Structures
  import opened Http2Reference
  import opened Http2DecodeBuffer
  import opened Http2StructureDecoding
  import opened Http2FrameDecoderState
  import opened Http2PayloadContract
  import opened Http2PayloadSteps

  /** What the reference has reported after the prefix t, the end apart, has been reported. */
  ghost predicate Reported(state: FrameDecoderState, db: DecodeBuffer, base: seq<Event>, t: seq<byte>)
    reads state, state.structureDecoder, state.listener, db
  {
    var h := state.frameHeader;
    && state.Valid() && db.Valid()
    && |t| + db.Remaining() <= h.payloadLength
    && Accounts(state, t)
    && !OpenReading(h, t).failed
    && state.listener.trace == base + OpenReading(h, t).events
  }

  lemma Extend(data: seq<byte>, p: seq<byte>, i: nat, j: nat, k: nat)
    requires i <= j <= k <= |data|
    ensures p + data[i..j] + data[j..k] == p + data[i..k]
  {
    assert data[i..j] + data[j..k] == data[i..k];
  }

  method ReadTail(state: FrameDecoderState, db: DecodeBuffer, ghost base: seq<Event>, ghost t: seq<byte>)
    requires Reported(state, db, base, t) && HasSimpleTail(state.frameHeader) && InTail(state.frameHeader, t)
    modifies state`remainingPayload, state.listener`trace, db
    ensures db.Valid() && old(db.cursor) <= db.cursor
    ensures var t' := t + db.data[old(db.cursor)..db.cursor];
      && |t'| <= state.frameHeader.payloadLength && InTail(state.frameHeader, t')
      && Reported(state, db, base, t')
    ensures state.remainingPayload > 0 ==> !db.HasData()
  {
    hide OpenReading, Bytewise, TailPart;
    ghost var h := state.frameHeader;
    ghost var n := db.MinLengthRemaining(state.remainingPayload);
    ghost var d := db.Next(n);
    TailStep(h, t, d);
    ghost var e := OpenReading(h, t).events;
    var avail := state.AvailablePayload(db);
    if avail > 0 {
      NotifyTail(state, db, avail);
      db.AdvanceCursor(avail);
      state.ConsumePayload(avail);
    } else {
      BytewiseNone(TailPart(h));
    }
    assert base + (e + Bytewise(TailPart(h), d)) == base + e + Bytewise(TailPart(h), d);
  }

  lemma BytewiseNone(part: Part)
    ensures Bytewise(part, []) == []
  {
  }

  /** OnDataPayload, OnHpackFragment, OnGoAwayOpaqueData or OnUnknownPayload. */
  method NotifyTail(state: FrameDecoderState, db: DecodeBuffer, avail: nat)
    requires db.Valid() && avail <= db.Remaining() && HasSimpleTail(state.frameHeader)
    modifies state.listener`trace
    ensures state.listener.trace == old(state.listener.trace) + Bytewise(TailPart(state.frameHeader), db.Next(avail))
  {
    state.listener.NotifyFragment(TailPart(state.frameHeader), db.Next(avail));
  }

  method SkipPadding(state: FrameDecoderState, db: DecodeBuffer, ghost base: seq<Event>, ghost t: seq<byte>) returns (done: bool)
    requires Reported(state, db, base, t) && HasSimpleTail(state.frameHeader) && InTail(state.frameHeader, t)
    requires state.remainingPayload == 0
    modifies state`remainingPadding, state.listener`trace, db
    ensures db.Valid() && old(db.cursor) <= db.cursor
    ensures var t' := t + db.data[old(db.cursor)..db.cursor];
      && |t'| <= state.frameHeader.payloadLength && InTail(state.frameHeader, t') && PayloadLeft(state.frameHeader, t') == 0
      && Reported(state, db, base, t')
      && (done <==> |t'| == state.frameHeader.payloadLength)
    ensures !done ==> !db.HasData()
  {
    hide OpenReading, Bytewise;
    ghost var h := state.frameHeader;
    ghost var d := db.Next(db.MinLengthRemaining(state.remainingPadding));
    PaddingStep(h, t, d);
    ghost var e := OpenReading(h, t).events;
    done := state.SkipPadding(db);
    assert base + (e + Bytewise(Padding, d)) == base + e + Bytewise(Padding, d);
  }

  /** Passes on everything there is; the frame has no padding. */
  method ReadRest(state: FrameDecoderState, db: DecodeBuffer, ghost base: seq<Event>, ghost t: seq<byte>)
    requires Reported(state, db, base, t) && HasSimpleTail(state.frameHeader) && InTail(state.frameHeader, t) && !Padded(state.frameHeader)
    modifies state`remainingPayload, state.listener`trace, db
    ensures db.Valid() && old(db.cursor) <= db.cursor && !db.HasData()
    ensures var t' := t + db.data[old(db.cursor)..db.cursor];
      && |t'| <= state.frameHeader.payloadLength && InTail(state.frameHeader, t')
      && Reported(state, db, base, t')
      && (|t'| == state.frameHeader.payloadLength <==> state.remainingPayload == 0)
  {
    hide OpenReading, Bytewise, TailPart;
    ghost var h := state.frameHeader;
    var avail := db.Remaining();
    ghost var d := db.Next(avail);
    TailStep(h, t, d);
    ghost var e := OpenReading(h, t).events;
    if avail > 0 {
      NotifyTail(state, db, avail);
      db.AdvanceCursor(avail);
      state.ConsumePayload(avail);
    } else {
      BytewiseNone(TailPart(h));
    }
    assert base + (e + Bytewise(TailPart(h), d)) == base + e + Bytewise(TailPart(h), d);
  }

  /** Where reading the tail and skipping the padding has got to. */
  datatype TailPosition = InContent | InPadding | AtEnd

  /** The states kReadPayload, unless the content is known to be complete, and kSkipPadding. */
  method ReadTailAndPadding(state: FrameDecoderState, db: DecodeBuffer, contentDone: bool, ghost base: seq<Event>, ghost t: seq<byte>)
    returns (position: TailPosition)
    requires Reported(state, db, base, t) && HasSimpleTail(state.frameHeader) && InTail(state.frameHeader, t)
    requires contentDone ==> PayloadLeft(state.frameHeader, t) == 0
    modifies state`remainingPayload, state`remainingPadding, state.listener`trace, db
    ensures db.Valid() && old(db.cursor) <= db.cursor
    ensures var h, t' := state.frameHeader, t + db.data[old(db.cursor)..db.cursor];
      && |t'| <= h.payloadLength && InTail(h, t') && Reported(state, db, base, t')
      && (position == AtEnd <==> |t'| == h.payloadLength)
      && (position == InPadding ==> PayloadLeft(h, t') == 0)
      && (position != AtEnd ==> Outcome(state, db, base, t', DecodeInProgress))
  {
    hide OpenReading, Bytewise, Intro, PadLength, ContentLength;
    ghost var c := db.cursor;
    assert t + db.data[c..c] == t;
    if !contentDone {
      ReadTail(state, db, base, t);
      if state.remainingPayload > 0 {
        return InContent;
      }
    }
    ghost var d := db.cursor;
    var skipped := SkipPadding(state, db, base, t + db.data[c..d]);
    Extend(db.data, t, c, d, db.cursor);
    position := if skipped then AtEnd else InPadding;
  }

  /** The Pad Length field at the start of a padded payload. */
  method ReadPadLength(state: FrameDecoderState, db: DecodeBuffer, ghost base: seq<Event>) returns (status: DecodeStatus)
    requires Ready(state, db, base, []) && Padded(state.frameHeader) && HasSimpleTail(state.frameHeader)
    modifies state`remainingPayload, state`remainingPadding, state.listener`trace, db
    ensures db.Valid() && old(db.cursor) <= db.cursor
    ensures var q := db.data[old(db.cursor)..db.cursor];
      && |q| + db.Remaining() <= state.frameHeader.payloadLength
      && Accounts(state, q)
      && if status.DecodeDone? then
           && (HasLeadingStructure(state.frameHeader) ==> BeforeLeading(state, db, base, q) && |q| == PadByte(state.frameHeader))
           && (!HasLeadingStructure(state.frameHeader) ==> Reported(state, db, base, q) && InTail(state.frameHeader, q))
         else Outcome(state, db, base, q, status) && (status.DecodeInProgress? ==> q == [])
  {
    hide OpenReading;
    ghost var h := state.frameHeader;
    PadMissing(h);
    status := state.ReadPadLength(db, state.frameHeader.frameType != PUSH_PROMISE);
    ghost var q := db.data[old(db.cursor)..db.cursor];
    assert [] + q == q;
    if q != [] && !PadKnown(h, q) {
      PadTooLong(h, q);
    } else if q != [] && !HasLeadingStructure(h) {
      IntroStep(h, q);
    }
    assert forall e :: base + (StartEvents(h) + [e]) == base + StartEvents(h) + [e];
    assert StartEvents(h) + [] == StartEvents(h);
  }

  /** Part of the leading structure has been put aside. */
  ghost predicate InLeading(state: FrameDecoderState, p: seq<byte>)
    requires state.Valid()
    reads state, state.structureDecoder, state.structureDecoder.buffer
  {
    var h := state.frameHeader;
    && HasLeadingStructure(h) && PadKnown(h, p) && |p| < h.payloadLength
    && PadByte(h) <= |p| < PadByte(h) + LeadingSize(h)
    && |p| - PadByte(h) < ContentLength(h, p)
    && state.structureDecoder.Buffered() == p[PadByte(h)..]
  }

  ghost predicate BeforeLeading(state: FrameDecoderState, db: DecodeBuffer, base: seq<Event>, p: seq<byte>)
    reads state, state.structureDecoder, state.listener, db
  {
    var h := state.frameHeader;
    && state.Valid() && db.Valid()
    && |p| + db.Remaining() <= h.payloadLength
    && HasLeadingStructure(h) && PadKnown(h, p) && Accounts(state, p)
    && state.listener.trace == base + Intro(h, p)
  }

  /** What starting or resuming the leading structure achieves, where t has now been taken. */
  ghost predicate LeadingOutcome(state: FrameDecoderState, db: DecodeBuffer, base: seq<Event>, t: seq<byte>,
                                 status: DecodeStatus, out: Option<Structure>)
    reads state, state.structureDecoder, state.structureDecoder.buffer, state.listener, db
  {
    var h := state.frameHeader;
    && state.Valid() && db.Valid()
    && |t| + db.Remaining() <= h.payloadLength
    && match status
       case DecodeDone =>
         && BeforeLeading(state, db, base, t)
         && |t| == PadByte(h) + LeadingSize(h) && LeadingSize(h) <= ContentLength(h, t)
         && out == Some(Decode(LeadingKind(h), t[PadByte(h)..]))
       case DecodeInProgress => InLeading(state, t) && Outcome(state, db, base, t, status)
       case DecodeError => Outcome(state, db, base, t, status)
  }

  /** A finished piece of the leading structure, seen as a step of the reference. */
  lemma LeadingAdvances(h: FrameHeader, p: seq<byte>, q: seq<byte>)
    requires HasLeadingStructure(h) && PadKnown(h, p) && PadByte(h) <= |p| && |p + q| <= h.payloadLength
    requires |p + q| <= PadByte(h) + LeadingSize(h) && |p + q| - PadByte(h) <= ContentLength(h, p)
    ensures PadKnown(h, p + q) && ContentLength(h, p + q) == ContentLength(h, p) && Intro(h, p + q) == Intro(h, p)
    ensures (p + q)[PadByte(h)..] == p[PadByte(h)..] + q
    ensures PayloadLeft(h, p) == ContentLength(h, p) - (|p| - PadByte(h))
    ensures PayloadLeft(h, p + q) == ContentLength(h, p) - (|p + q| - PadByte(h))
    ensures |p + q| < PadByte(h) + LeadingSize(h) ==>
      OpenReading(h, p + q) ==
        if PayloadLeft(h, p + q) == 0 then Reading(Intro(h, p) + [OnFrameSizeError(h)], true) else Reading(Intro(h, p), false)
  {
    hide OpenReading;
    SameLayout(h, p, q);
    SameLayout(h, p, []);
    var p0, a := p[..PadByte(h)], p[PadByte(h)..];
    SameLayout(h, p0, a + q);
    assert p0 + (a + q) == p + q;
    assert p0 + a == p;
    LeadingStep(h, p0, a + q);
  }

  method StartLeading(state: FrameDecoderState, db: DecodeBuffer, ghost base: seq<Event>, ghost p: seq<byte>)
    returns (status: DecodeStatus, out: Option<Structure>)
    requires BeforeLeading(state, db, base, p) && |p| == PadByte(state.frameHeader)
    modifies state`remainingPayload, state.structureDecoder`offset, state.structureDecoder.buffer, state.listener`trace, db
    ensures state.Valid() && db.Valid() && old(db.cursor) <= db.cursor
    ensures LeadingOutcome(state, db, base, p + db.data[old(db.cursor)..db.cursor], status, out)
  {
    hide OpenReading, Intro, PadLength, Decode, LeadingKind, HasLeadingStructure, EncodedSize, ContentLength, PayloadLeft;
    status, out := state.StartDecodingStructureInPayload(LeadingKind(state.frameHeader), db);
    ghost var q := db.data[old(db.cursor)..db.cursor];
    assert [] + q == q;
    LeadingAdvances(state.frameHeader, p, []);
    LeadingAdvances(state.frameHeader, p, q);
    assert base + (Intro(state.frameHeader, p) + [OnFrameSizeError(state.frameHeader)]) == base + Intro(state.frameHeader, p) + [OnFrameSizeError(state.frameHeader)];
  }

  method ResumeLeading(state: FrameDecoderState, db: DecodeBuffer, ghost base: seq<Event>, ghost p: seq<byte>)
    returns (status: DecodeStatus, out: Option<Structure>)
    requires BeforeLeading(state, db, base, p) && InLeading(state, p)
    modifies state`remainingPayload, state.structureDecoder`offset, state.structureDecoder.buffer, state.listener`trace, db
    ensures state.Valid() && db.Valid() && old(db.cursor) <= db.cursor
    ensures LeadingOutcome(state, db, base, p + db.data[old(db.cursor)..db.cursor], status, out)
  {
    hide OpenReading, Intro, PadLength, Decode, LeadingKind, HasLeadingStructure, EncodedSize, ContentLength, PayloadLeft;
    LeadingAdvances(state.frameHeader, p, []);
    status, out := state.ResumeDecodingStructureInPayload(LeadingKind(state.frameHeader), db);
    ghost var q := db.data[old(db.cursor)..db.cursor];
    LeadingAdvances(state.frameHeader, p, q);
    assert base + (Intro(state.frameHeader, p) + [OnFrameSizeError(state.frameHeader)]) == base + Intro(state.frameHeader, p) + [OnFrameSizeError(state.frameHeader)];
  }

  /** The callback for a complete leading structure. */
  method NotifyLeading(state: FrameDecoderState, db: DecodeBuffer, x: Structure, e: Event, ghost base: seq<Event>, ghost t: seq<byte>)
    requires LeadingOutcome(state, db, base, t, DecodeDone, Some(x)) && HasSimpleTail(state.frameHeader)
    requires e == LeadingEvent(state.frameHeader, ContentLength(state.frameHeader, t), PadLength(state.frameHeader, t), x)
    modifies state.listener`trace
    ensures Reported(state, db, base, t) && InTail(state.frameHeader, t)
  {
    hide OpenReading, Decode, Intro, LeadingEvent;
    LeadingDone(state.frameHeader, t);
    state.listener.Notify(e);
    assert base + (Intro(state.frameHeader, t) + [e]) == base + Intro(state.frameHeader, t) + [e];
  }

  /** The callback at the end of the payload. */
  method NotifyEnd(state: FrameDecoderState, db: DecodeBuffer, e: Event, ghost base: seq<Event>, ghost t: seq<byte>)
    requires Reported(state, db, base, t) && |t| == state.frameHeader.payloadLength && EndEvents(state.frameHeader) == [e]
    modifies state.listener`trace
    ensures Outcome(state, db, base, t, DecodeDone)
  {
    hide OpenReading;
    state.listener.Notify(e);
    assert base + (OpenReading(state.frameHeader, t).events + [e]) == base + OpenReading(state.frameHeader, t).events + [e];
  }

  /** The special case of DATA and HEADERS for a payload that is all there, with nothing before
      or after the run of bytes; the accounts are not touched. */
  method ReadWholePayload(state: FrameDecoderState, db: DecodeBuffer, first: Event, last: Event, ghost base: seq<Event>)
    requires ReadyToStart(state, db, base) && db.Remaining() == state.frameHeader.payloadLength
    requires !Padded(state.frameHeader) && LeadingSize(state.frameHeader) == 0 && HasSimpleTail(state.frameHeader)
    requires StartEvents(state.frameHeader) == [first] && EndEvents(state.frameHeader) == [last]
    modifies state.listener`trace, db
    ensures db.Valid() && old(db.cursor) <= db.cursor
    ensures Outcome(state, db, base, db.data[old(db.cursor)..db.cursor], DecodeDone)
  {
    hide OpenReading, Bytewise;
    var h := state.frameHeader;
    ghost var q := db.Next(h.payloadLength);
    IntroStep(h, []);
    IntroIsStart(h);
    TailStep(h, [], q);
    assert [] + q == q;
    state.listener.Notify(first);
    if h.payloadLength > 0 {
      NotifyTail(state, db, h.payloadLength);
      db.AdvanceCursor(h.payloadLength);
    } else {
      BytewiseNone(TailPart(h));
    }
    state.listener.Notify(last);
    ghost var b := Bytewise(TailPart(h), q);
    assert base + (([first] + b) + [last]) == base + [first] + b + [last];
  }

  /** A payload with a structure in progress has reported only its introduction. */
  lemma InLeadingBefore(h: FrameHeader, p: seq<byte>)
    requires HasLeadingStructure(h) && PadKnown(h, p) && |p| < h.payloadLength
    requires PadByte(h) <= |p| < PadByte(h) + LeadingSize(h) && |p| - PadByte(h) < ContentLength(h, p)
    ensures Before(h, p) == Intro(h, p)
  {
    hide OpenReading;
    if p == [] {
      IntroIsStart(h);
    } else {
      LeadingAdvances(h, p, []);
      assert p + [] == p;
    }
  }
}

/** PRIORITY, RST_STREAM, PING and WINDOW_UPDATE: the payload is one structure. */
module Http2FixedPayloadDecoder {
  import opened Wrappers
  import opened BigEndian
  import opened Http2Structures
  import opened Http2Reference
  import opened Http2DecodeBuffer
  import opened Http2StructureDecoding
  import opened Http2FrameDecoderState
  import opened Http2PayloadContract
  import opened Http2PayloadSteps
  import opened Http2PayloadMoves

  class FixedPayloadDecoder {

    ghost predicate Decodes(h: FrameHeader) {
      IsFixedSize(h)
    }

    constructor () {}

    method StartDecodingPayload(state: FrameDecoderState, db: DecodeBuffer, ghost base: seq<Event>)
      returns (status: DecodeStatus)
      requires Decodes(state.frameHeader) && ReadyToStart(state, db, base)
      modifies state`remainingPayload, state`remainingPadding, state.structureDecoder`offset, state.structureDecoder.buffer, state.listener`trace, db
      ensures state.Valid() && db.Valid() && old(db.cursor) <= db.cursor
      ensures Outcome(state, db, base, db.data[old(db.cursor)..db.cursor], status)
      ensures status.DecodeInProgress? ==> InLeading(state, db.data[old(db.cursor)..db.cursor])
    {
      hide OpenReading, Decode, LeadingEvent;
      var h := state.frameHeader;
      var kind := LeadingKind(h);
      // PING and WINDOW_UPDATE have a special case for a payload that is all there.
      if (h.frameType == PING || h.frameType == WINDOW_UPDATE) && db.Remaining() == EncodedSize(kind) && h.payloadLength == EncodedSize(kind) {
        ghost var q := db.Next(db.Remaining());
        assert [] + q == q;
        LeadingStep(h, [], q);
        var x := db.DoDecode(kind);
        NotifyStructure(state, x);
        assert base + [] + EndEvents(h) == base;
        return DecodeDone;
      }
      state.InitializeRemainders();
      var out;
      assert base + Intro(h, []) == base;
      status, out := StartLeading(state, db, base, []);
      assert [] + db.data[old(db.cursor)..db.cursor] == db.data[old(db.cursor)..db.cursor];
      status := HandleStatus(state, db, status, out, base, db.data[old(db.cursor)..db.cursor]);
    }

    method ResumeDecodingPayload(state: FrameDecoderState, db: DecodeBuffer, ghost base: seq<Event>, ghost p: seq<byte>)
      returns (status: DecodeStatus)
      requires Decodes(state.frameHeader) && Ready(state, db, base, p) && InLeading(state, p)
      modifies state`remainingPayload, state.structureDecoder`offset, state.structureDecoder.buffer, state.listener`trace, db
      ensures state.Valid() && db.Valid() && old(db.cursor) <= db.cursor
      ensures Outcome(state, db, base, p + db.data[old(db.cursor)..db.cursor], status)
      ensures status.DecodeInProgress? ==> InLeading(state, p + db.data[old(db.cursor)..db.cursor])
    {
      hide OpenReading, Decode;
      InLeadingBefore(state.frameHeader, p);
      var out;
      status, out := ResumeLeading(state, db, base, p);
      status := HandleStatus(state, db, status, out, base, p + db.data[old(db.cursor)..db.cursor]);
    }

    method NotifyStructure(state: FrameDecoderState, x: Structure)
      requires Decodes(state.frameHeader) && KindOf(x) == LeadingKind(state.frameHeader)
      requires EncodedSize(KindOf(x)) == state.frameHeader.payloadLength
      modifies state.listener`trace
      ensures state.listener.trace == old(state.listener.trace) + [LeadingEvent(state.frameHeader, state.frameHeader.payloadLength, 0, x)]
    {
      var h := state.frameHeader;
      if h.frameType == PRIORITY { state.listener.Notify(OnPriorityFrame(h, x)); }
      else if h.frameType == RST_STREAM { state.listener.Notify(OnRstStream(h, x)); }
      else if h.frameType == WINDOW_UPDATE { state.listener.Notify(OnWindowUpdate(h, x)); }
      else if IsAck(h) { state.listener.Notify(OnPingAck(h, x)); }
      else { state.listener.Notify(OnPing(h, x)); }
    }

    method HandleStatus(state: FrameDecoderState, db: DecodeBuffer, status0: DecodeStatus, out: Option<Structure>,
                        ghost base: seq<Event>, ghost t: seq<byte>)
      returns (status: DecodeStatus)
      requires Decodes(state.frameHeader) && LeadingOutcome(state, db, base, t, status0, out)
      modifies state.listener`trace
      ensures Outcome(state, db, base, t, status)
      ensures status.DecodeInProgress? ==> InLeading(state, t)
    {
      hide OpenReading, Decode, LeadingEvent;
      ghost var h := state.frameHeader;
      if status0 == DecodeDone {
        assert [] + t == t && t[0..] == t;
        LeadingStep(h, [], t);
        if state.remainingPayload == 0 {
          NotifyStructure(state, out.value);
          assert base + Intro(h, t) + EndEvents(h) == base;
          return DecodeDone;
        }
        status := state.ReportFrameSizeError();
        return;
      }
      return status0;
    }
  }
}

/** CONTINUATION and unknown frames: all of the payload is passed on. */
module Http2OpaquePayloadDecoder {
  import opened BigEndian
  import opened Http2Structures
  import opened Http2Reference
  import opened Http2DecodeBuffer
  import opened Http2StructureDecoding
  import opened Http2FrameDecoderState
  import opened Http2PayloadContract
  import opened Http2PayloadSteps
  import opened Http2PayloadMoves

  class OpaquePayloadDecoder {

    ghost predicate Decodes(h: FrameHeader) {
      h.frameType == CONTINUATION || h.frameType > ALTSVC
    }

    constructor () {}

    method StartDecodingPayload(state: FrameDecoderState, db: DecodeBuffer, ghost base: seq<Event>)
      returns (status: DecodeStatus)
      requires Decodes(state.frameHeader) && ReadyToStart(state, db, base)
      modifies state`remainingPayload, state`remainingPadding, state.listener`trace, db
      ensures db.Valid() && old(db.cursor) <= db.cursor
      ensures Outcome(state, db, base, db.data[old(db.cursor)..db.cursor], status)
    {
      var h := state.frameHeader;
      state.InitializeRemainders();
      state.listener.Notify(if h.frameType == CONTINUATION then OnContinuationStart(h) else OnUnknownStart(h));
      status := ResumeDecodingPayload(state, db, base, []);
      assert [] + db.data[old(db.cursor)..db.cursor] == db.data[old(db.cursor)..db.cursor];
    }

    method ResumeDecodingPayload(state: FrameDecoderState, db: DecodeBuffer, ghost base: seq<Event>, ghost p: seq<byte>)
      returns (status: DecodeStatus)
      requires Decodes(state.frameHeader) && Ready(state, db, base, p)
      modifies state`remainingPayload, state.listener`trace, db
      ensures db.Valid() && old(db.cursor) <= db.cursor
      ensures Outcome(state, db, base, p + db.data[old(db.cursor)..db.cursor], status)
    {
      hide OpenReading;
      var h := state.frameHeader;
      if p == [] {
        IntroStep(h, []);
        IntroIsStart(h);
      } else {
        TailStep(h, p, []);
      }
      ReadRest(state, db, base, p);
      if state.remainingPayload == 0 {
        NotifyEnd(state, db, if h.frameType == CONTINUATION then OnContinuationEnd else OnUnknownEnd, base, p + db.data[old(db.cursor)..db.cursor]);
        return DecodeDone;
      }
      return DecodeInProgress;
    }
  }
}

/** DATA: optional padding around bytes that are passed on. */
module Http2DataPayloadDecoder {
  import opened BigEndian
  import opened Http2Structures
  import opened Http2Reference
  import opened Http2DecodeBuffer
  import opened Http2StructureDecoding
  import opened Http2FrameDecoderState
  import opened Http2PayloadContract
  import opened Http2PayloadSteps
  import opened Moves = Http2PayloadMoves

  datatype PayloadState = ReadPadLength | ReadPayload | SkipPadding

  class DataPayloadDecoder {
    var payloadState: PayloadState

    constructor () { payloadState := ReadPadLength; }

    ghost predicate At(h: FrameHeader, p: seq<byte>)
      requires |p| <= h.payloadLength
      reads this
    {
      match payloadState
      case ReadPadLength => Padded(h) && p == []
      case ReadPayload => InTail(h, p)
      case SkipPadding => InTail(h, p) && PayloadLeft(h, p) == 0
    }

    method StartDecodingPayload(state: FrameDecoderState, db: DecodeBuffer, ghost base: seq<Event>)
      returns (status: DecodeStatus)
      requires state.frameHeader.frameType == DATA && ReadyToStart(state, db, base)
      modifies this, state`remainingPayload, state`remainingPadding, state.listener`trace, db
      ensures db.Valid() && old(db.cursor) <= db.cursor
      ensures Outcome(state, db, base, db.data[old(db.cursor)..db.cursor], status)
      ensures status.DecodeInProgress? ==> At(state.frameHeader, db.data[old(db.cursor)..db.cursor])
    {
      hide OpenReading, Bytewise;
      var h := state.frameHeader;
      var totalLength := h.payloadLength;
      if !IsPadded(h) {
        if db.Remaining() == totalLength {
          ReadWholePayload(state, db, OnDataStart(h), OnDataEnd, base);
          return DecodeDone;
        }
        payloadState := ReadPayload;
      } else {
        payloadState := ReadPadLength;
      }
      state.InitializeRemainders();
      state.listener.Notify(OnDataStart(h));
      status := ResumeDecodingPayload(state, db, base, []);
      assert [] + db.data[old(db.cursor)..db.cursor] == db.data[old(db.cursor)..db.cursor];
    }

    method ResumeDecodingPayload(state: FrameDecoderState, db: DecodeBuffer, ghost base: seq<Event>, ghost p: seq<byte>)
      returns (status: DecodeStatus)
      requires state.frameHeader.frameType == DATA && Ready(state, db, base, p) && At(state.frameHeader, p)
      modifies this, state`remainingPayload, state`remainingPadding, state.listener`trace, db
      ensures db.Valid() && old(db.cursor) <= db.cursor
      ensures Outcome(state, db, base, p + db.data[old(db.cursor)..db.cursor], status)
      ensures status.DecodeInProgress? ==> At(state.frameHeader, p + db.data[old(db.cursor)..db.cursor])
    {
      hide OpenReading, Bytewise, PayloadLeft, Intro, PadLength, ContentLength;
      ghost var h := state.frameHeader;
      ghost var t := p;
      var s := payloadState;
      if s == PayloadState.ReadPadLength {
        status := Moves.ReadPadLength(state, db, base);
        assert [] + db.data[old(db.cursor)..db.cursor] == db.data[old(db.cursor)..db.cursor];
        if status != DecodeDone {
          return;
        }
        s := ReadPayload;
        t := db.data[old(db.cursor)..db.cursor];
      } else if p == [] {
        IntroStep(h, []);
        IntroIsStart(h);
      } else {
        TailStep(h, p, []);
      }
      assert t == p + db.data[old(db.cursor)..db.cursor];
      ghost var c := db.cursor;
      var position := ReadTailAndPadding(state, db, s == PayloadState.SkipPadding, base, t);
      Extend(db.data, p, old(db.cursor), c, db.cursor);
      if position == AtEnd {
        NotifyEnd(state, db, OnDataEnd, base, p + db.data[old(db.cursor)..db.cursor]);
        return DecodeDone;
      }
      payloadState := if position == InContent then ReadPayload else PayloadState.SkipPadding;
      return DecodeInProgress;
    }
  }
}

/** HEADERS: optional padding and priority around a header block fragment. */
module Http2HeadersPayloadDecoder {
  import opened Wrappers
  import opened BigEndian
  import opened Http2Structures
  import opened Http2Reference
  import opened Http2DecodeBuffer
  import opened Http2StructureDecoding
  import opened Http2FrameDecoderState
  import opened Http2PayloadContract
  import opened Http2PayloadSteps
  import opened Moves = Http2PayloadMoves

  datatype PayloadState = ReadPadLength | StartDecodingPriorityFields | ReadPayload | SkipPadding | ResumeDecodingPriorityFields

  class HeadersPayloadDecoder {
    var payloadState: PayloadState

    constructor () { payloadState := ReadPadLength; }

    ghost predicate At(state: FrameDecoderState, p: seq<byte>)
      requires state.Valid() && |p| <= state.frameHeader.payloadLength
      reads this, state, state.structureDecoder, state.structureDecoder.buffer
    {
      var h := state.frameHeader;
      match payloadState
      case ReadPadLength => Padded(h) && p == []
      case StartDecodingPriorityFields => false
      case ReadPayload => InTail(h, p)
      case SkipPadding => InTail(h, p) && PayloadLeft(h, p) == 0
      case ResumeDecodingPriorityFields => InLeading(state, p)
    }

    method StartDecodingPayload(state: FrameDecoderState, db: DecodeBuffer, ghost base: seq<Event>)
      returns (status: DecodeStatus)
      requires state.frameHeader.frameType == HEADERS && ReadyToStart(state, db, base)
      modifies this, state`remainingPayload, state`remainingPadding, state.structureDecoder`offset, state.structureDecoder.buffer, state.listener`trace, db
      ensures state.Valid() && db.Valid() && old(db.cursor) <= db.cursor
      ensures Outcome(state, db, base, db.data[old(db.cursor)..db.cursor], status)
      ensures status.DecodeInProgress? ==> At(state, db.data[old(db.cursor)..db.cursor])
    {
      hide OpenReading, Bytewise;
      var h := state.frameHeader;
      var totalLength := h.payloadLength;
      if !IsPadded(h) && !HasPriority(h) {
        if db.Remaining() == totalLength {
          ReadWholePayload(state, db, OnHeadersStart(h), OnHeadersEnd, base);
          return DecodeDone;
        }
        payloadState := ReadPayload;
      } else if IsPadded(h) {
        payloadState := ReadPadLength;
      } else {
        payloadState := StartDecodingPriorityFields;
      }
      state.InitializeRemainders();
      state.listener.Notify(OnHeadersStart(h));
      status := ResumeDecodingPayload(state, db, base, []);
      assert [] + db.data[old(db.cursor)..db.cursor] == db.data[old(db.cursor)..db.cursor];
    }

    /** The switch on the payload state. Where the source falls through to a later case, or
        sets the state and loops, the code from there on is a method of its own. */
    method ResumeDecodingPayload(state: FrameDecoderState, db: DecodeBuffer, ghost base: seq<Event>, ghost p: seq<byte>)
      returns (status: DecodeStatus)
      requires state.frameHeader.frameType == HEADERS && Ready(state, db, base, p)
      requires At(state, p) || (payloadState == StartDecodingPriorityFields && p == [] && !Padded(state.frameHeader) && HasPriority(state.frameHeader))
      modifies this, state`remainingPayload, state`remainingPadding, state.structureDecoder`offset, state.structureDecoder.buffer, state.listener`trace, db
      ensures state.Valid() && db.Valid() && old(db.cursor) <= db.cursor
      ensures Outcome(state, db, base, p + db.data[old(db.cursor)..db.cursor], status)
      ensures status.DecodeInProgress? ==> At(state, p + db.data[old(db.cursor)..db.cursor])
    {
      EnterResume(state, db, base, p);
      hide OpenReading, PayloadLeft, Decode, Reported, Outcome, BeforeLeading, InTail, Accounts, PayloadReading;
      ghost var c := db.cursor;
      match payloadState
      case ReadPadLength =>
        status := ReadPadding(state, db, base);
        assert [] + db.data[c..db.cursor] == db.data[c..db.cursor];
      case StartDecodingPriorityFields =>
        status := ReadPriorityFields(state, db, base, p);
      case ResumeDecodingPriorityFields =>
        var out;
        status, out := ResumeLeading(state, db, base, p);
        ghost var d := db.cursor;
        status := HandleFields(state, db, status, out, base, p + db.data[c..d]);
        Extend(db.data, p, c, d, db.cursor);
      case _ =>
        status := ReadFragment(state, db, base, p);
    }

    /** From kReadPadLength on. */
    method ReadPadding(state: FrameDecoderState, db: DecodeBuffer, ghost base: seq<Event>)
      returns (status: DecodeStatus)
      requires state.frameHeader.frameType == HEADERS && Ready(state, db, base, []) && Padded(state.frameHeader) && payloadState == ReadPadLength
      modifies this, state`remainingPayload, state`remainingPadding, state.structureDecoder`offset, state.structureDecoder.buffer, state.listener`trace, db
      ensures state.Valid() && db.Valid() && old(db.cursor) <= db.cursor
      ensures Outcome(state, db, base, db.data[old(db.cursor)..db.cursor], status)
      ensures status.DecodeInProgress? ==> At(state, db.data[old(db.cursor)..db.cursor])
    {
      hide OpenReading, PayloadLeft, Decode, Reported, Outcome, BeforeLeading, InTail, Accounts, PayloadReading;
      ghost var c := db.cursor;
      status := Moves.ReadPadLength(state, db, base);
      if status != DecodeDone {
        return;
      }
      ghost var d := db.cursor;
      if !HasPriority(state.frameHeader) {
        payloadState := ReadPayload;
        status := ReadFragment(state, db, base, db.data[c..d]);
      } else {
        status := ReadPriorityFields(state, db, base, db.data[c..d]);
      }
      Extend(db.data, [], c, d, db.cursor);
      assert [] + db.data[c..d] == db.data[c..d] && [] + db.data[c..db.cursor] == db.data[c..db.cursor];
    }

    /** From kStartDecodingPriorityFields on. */
    method ReadPriorityFields(state: FrameDecoderState, db: DecodeBuffer, ghost base: seq<Event>, ghost p: seq<byte>)
      returns (status: DecodeStatus)
      requires state.frameHeader.frameType == HEADERS && BeforeLeading(state, db, base, p) && |p| == PadByte(state.frameHeader)
      modifies this, state`remainingPayload, state`remainingPadding, state.structureDecoder`offset, state.structureDecoder.buffer, state.listener`trace, db
      ensures state.Valid() && db.Valid() && old(db.cursor) <= db.cursor
      ensures Outcome(state, db, base, p + db.data[old(db.cursor)..db.cursor], status)
      ensures status.DecodeInProgress? ==> At(state, p + db.data[old(db.cursor)..db.cursor])
    {
      hide OpenReading, PayloadLeft, Decode, Reported, Outcome, InTail, Accounts, PayloadReading;
      ghost var c := db.cursor;
      var out;
      status, out := StartLeading(state, db, base, p);
      ghost var d := db.cursor;
      status := HandleFields(state, db, status, out, base, p + db.data[c..d]);
      Extend(db.data, p, c, d, db.cursor);
    }

    /** What follows starting or resuming the fields. */
    method HandleFields(state: FrameDecoderState, db: DecodeBuffer, status0: DecodeStatus, out: Option<Structure>,
                        ghost base: seq<Event>, ghost p: seq<byte>)
      returns (status: DecodeStatus)
      requires state.frameHeader.frameType == HEADERS && LeadingOutcome(state, db, base, p, status0, out)
      modifies this, state`remainingPayload, state`remainingPadding, state.listener`trace, db
      ensures state.Valid() && db.Valid() && old(db.cursor) <= db.cursor
      ensures Outcome(state, db, base, p + db.data[old(db.cursor)..db.cursor], status)
      ensures status.DecodeInProgress? ==> At(state, p + db.data[old(db.cursor)..db.cursor])
    {
      hide OpenReading, PayloadLeft, Decode, Reported, InTail, Accounts, PayloadReading, ContentLength, PadLength, Intro, PadKnown, TailPart, EncodedSize, StartEvents;
      assert p + db.data[db.cursor..db.cursor] == p;
      if status0 != DecodeDone {
        payloadState := ResumeDecodingPriorityFields;
        return status0;
      }
      NotifyLeading(state, db, out.value, OnHeadersPriority(out.value), base, p);
      payloadState := ReadPayload;
      status := ReadFragment(state, db, base, p);
    }

    /** From kReadPayload on, or from kSkipPadding when that is the state. */
    method ReadFragment(state: FrameDecoderState, db: DecodeBuffer, ghost base: seq<Event>, ghost p: seq<byte>)
      returns (status: DecodeStatus)
      requires state.frameHeader.frameType == HEADERS && InTail(state.frameHeader, p) && Reported(state, db, base, p)
      requires payloadState == SkipPadding ==> PayloadLeft(state.frameHeader, p) == 0
      modifies this, state`remainingPayload, state`remainingPadding, state.listener`trace, db
      ensures state.Valid() && db.Valid() && old(db.cursor) <= db.cursor
      ensures Outcome(state, db, base, p + db.data[old(db.cursor)..db.cursor], status)
      ensures status.DecodeInProgress? ==> At(state, p + db.data[old(db.cursor)..db.cursor])
    {
      hide OpenReading, PayloadLeft, Outcome, InTail, Accounts, PayloadReading;
      var position := ReadTailAndPadding(state, db, payloadState == PayloadState.SkipPadding, base, p);
      if position == AtEnd {
        NotifyEnd(state, db, OnHeadersEnd, base, p + db.data[old(db.cursor)..db.cursor]);
        return DecodeDone;
      }
      payloadState := if position == InContent then ReadPayload else PayloadState.SkipPadding;
      return DecodeInProgress;
    }

    /** Where a resumed payload stands, put in terms of the moves. */
    lemma EnterResume(state: FrameDecoderState, db: DecodeBuffer, base: seq<Event>, p: seq<byte>)
      requires state.frameHeader.frameType == HEADERS && Ready(state, db, base, p)
      requires At(state, p) || (payloadState == StartDecodingPriorityFields && p == [] && !Padded(state.frameHeader) && HasPriority(state.frameHeader))
      ensures var h := state.frameHeader;
        && (payloadState == ReadPayload || payloadState == SkipPadding ==> InTail(h, p) && Reported(state, db, base, p))
        && (payloadState == SkipPadding ==> PayloadLeft(h, p) == 0)
        && (payloadState == StartDecodingPriorityFields ==> |p| == PadByte(h) && BeforeLeading(state, db, base, p))
        && (payloadState == ResumeDecodingPriorityFields ==> InLeading(state, p) && BeforeLeading(state, db, base, p))
        && (payloadState == ReadPadLength ==> Padded(h) && p == [])
    {
      hide OpenReading, Bytewise, PayloadLeft;
      var h := state.frameHeader;
      if payloadState == ResumeDecodingPriorityFields {
        InLeadingBefore(h, p);
      } else if payloadState == StartDecodingPriorityFields {
        IntroIsStart(h);
      } else if payloadState != ReadPadLength {
        if p == [] {
          IntroStep(h, []);
          IntroIsStart(h);
        } else {
          TailStep(h, p, []);
        }
      }
    }
  }
}
