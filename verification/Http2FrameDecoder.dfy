/** The payload decoders side by side, and the choice among them by frame type. */
module Http2PayloadDispatch {
  import opened BigEndian
  import opened Http2Structures
  import opened Http2Reference
  import opened Http2DecodeBuffer
  import opened Http2StructureDecoding
  import opened Http2FrameDecoderState
  import opened Http2PayloadContract
  import opened Http2PayloadSteps
  import opened Http2PayloadMoves
  import opened Http2OpaquePayloadDecoder
  import opened Http2FixedPayloadDecoder
  import Data = Http2DataPayloadDecoder
  import Headers = Http2HeadersPayloadDecoder
  import Promise = Http2PushPromisePayloadDecoder
  import opened Http2SettingsPayloadDecoder
  import Away = Http2GoAwayPayloadDecoder
  import Svc = Http2AltSvcPayloadDecoder

  class PayloadDecoders {
    const opaqueDecoder: OpaquePayloadDecoder
    const fixedDecoder: FixedPayloadDecoder
    const dataDecoder: Data.DataPayloadDecoder
    const headersDecoder: Headers.HeadersPayloadDecoder
    const pushPromiseDecoder: Promise.PushPromisePayloadDecoder
    const settingsDecoder: SettingsPayloadDecoder
    const goAwayDecoder: Away.GoAwayPayloadDecoder
    const altSvcDecoder: Svc.AltSvcPayloadDecoder

    constructor ()
      ensures fresh(dataDecoder) && fresh(headersDecoder) && fresh(pushPromiseDecoder) && fresh(goAwayDecoder) && fresh(altSvcDecoder)
    {
      opaqueDecoder := new OpaquePayloadDecoder();
      fixedDecoder := new FixedPayloadDecoder();
      dataDecoder := new Data.DataPayloadDecoder();
      headersDecoder := new Headers.HeadersPayloadDecoder();
      pushPromiseDecoder := new Promise.PushPromisePayloadDecoder();
      settingsDecoder := new SettingsPayloadDecoder();
      goAwayDecoder := new Away.GoAwayPayloadDecoder();
      altSvcDecoder := new Svc.AltSvcPayloadDecoder();
    }

    /** The decoder for this frame's type stands after the prefix p of the payload. */
    ghost predicate At(state: FrameDecoderState, p: seq<byte>)
      requires state.Valid() && |p| <= state.frameHeader.payloadLength
      reads dataDecoder, headersDecoder, pushPromiseDecoder, goAwayDecoder, altSvcDecoder
      reads state, state.structureDecoder, state.structureDecoder.buffer
    {
      var h := state.frameHeader;
      if h.frameType == DATA then dataDecoder.At(h, p)
      else if h.frameType == HEADERS then headersDecoder.At(state, p)
      else if h.frameType == SETTINGS then settingsDecoder.At(state, p)
      else if h.frameType == PUSH_PROMISE then pushPromiseDecoder.At(state, p)
      else if h.frameType == GOAWAY then goAwayDecoder.At(state, p)
      else if h.frameType == ALTSVC then altSvcDecoder.At(state, p)
      else if IsFixedSize(h) then InLeading(state, p)
      else true
    }

    /** Clears the flags the frame's type does not define and starts its payload decoder. */
    method StartDecodingPayload(state: FrameDecoderState, db: DecodeBuffer, ghost base: seq<Event>) returns (status: DecodeStatus)
      requires ReadyToStart(state, db, base)
      modifies dataDecoder, headersDecoder, pushPromiseDecoder, goAwayDecoder, altSvcDecoder
      modifies state, state.structureDecoder`offset, state.structureDecoder.buffer, state.listener`trace, db
      ensures state.Valid() && db.Valid() && old(db.cursor) <= db.cursor
      ensures state.frameHeader == CleanHeader(old(state.frameHeader))
      ensures Outcome(state, db, base, db.data[old(db.cursor)..db.cursor], status)
      ensures status.DecodeInProgress? ==> At(state, db.data[old(db.cursor)..db.cursor])
    {
      hide Outcome, InLeading, LeadingKind, IsPaddable, BitAnd;
      BitAndNone(state.frameHeader.flags);
      var frameType := state.frameHeader.frameType;
      if frameType == DATA {
        state.RetainFlags(FLAG_END_STREAM + FLAG_PADDED);
        status := dataDecoder.StartDecodingPayload(state, db, base);
      } else if frameType == HEADERS {
        state.RetainFlags(FLAG_END_STREAM + FLAG_END_HEADERS + FLAG_PADDED + FLAG_PRIORITY);
        status := headersDecoder.StartDecodingPayload(state, db, base);
      } else if frameType == PRIORITY || frameType == RST_STREAM || frameType == WINDOW_UPDATE {
        state.ClearFlags();
        status := fixedDecoder.StartDecodingPayload(state, db, base);
      } else if frameType == SETTINGS {
        state.RetainFlags(FLAG_ACK);
        status := settingsDecoder.StartDecodingPayload(state, db, base);
      } else if frameType == PUSH_PROMISE {
        state.RetainFlags(FLAG_END_HEADERS + FLAG_PADDED);
        status := pushPromiseDecoder.StartDecodingPayload(state, db, base);
      } else if frameType == PING {
        state.RetainFlags(FLAG_ACK);
        status := fixedDecoder.StartDecodingPayload(state, db, base);
      } else if frameType == GOAWAY {
        state.ClearFlags();
        status := goAwayDecoder.StartDecodingPayload(state, db, base);
      } else if frameType == CONTINUATION {
        state.RetainFlags(FLAG_END_HEADERS);
        status := opaqueDecoder.StartDecodingPayload(state, db, base);
      } else if frameType == ALTSVC {
        state.ClearFlags();
        status := altSvcDecoder.StartDecodingPayload(state, db, base);
      } else {
        // Nothing is known about the flags of an unknown type, so they are left alone.
        BitAndAll(state.frameHeader.flags, 8);
        status := opaqueDecoder.StartDecodingPayload(state, db, base);
      }
    }

    method ResumeDecodingPayload(state: FrameDecoderState, db: DecodeBuffer, ghost base: seq<Event>, ghost p: seq<byte>) returns (status: DecodeStatus)
      requires state.Valid() && db.Valid() && Ready(state, db, base, p) && |p| < state.frameHeader.payloadLength && At(state, p)
      modifies dataDecoder, headersDecoder, pushPromiseDecoder, goAwayDecoder, altSvcDecoder
      modifies state`remainingPayload, state`remainingPadding, state.structureDecoder`offset, state.structureDecoder.buffer, state.listener`trace, db
      ensures state.Valid() && db.Valid() && old(db.cursor) <= db.cursor
      ensures Outcome(state, db, base, p + db.data[old(db.cursor)..db.cursor], status)
      ensures status.DecodeInProgress? ==> At(state, p + db.data[old(db.cursor)..db.cursor])
    {
      hide Outcome, InLeading, LeadingKind, IsPaddable, Ready;
      var frameType := state.frameHeader.frameType;
      if frameType == DATA {
        status := dataDecoder.ResumeDecodingPayload(state, db, base, p);
      } else if frameType == HEADERS {
        status := headersDecoder.ResumeDecodingPayload(state, db, base, p);
      } else if frameType == SETTINGS {
        status := settingsDecoder.ResumeDecodingPayload(state, db, base, p);
      } else if frameType == PUSH_PROMISE {
        status := pushPromiseDecoder.ResumeDecodingPayload(state, db, base, p);
      } else if frameType == GOAWAY {
        status := goAwayDecoder.ResumeDecodingPayload(state, db, base, p);
      } else if frameType == ALTSVC {
        status := altSvcDecoder.ResumeDecodingPayload(state, db, base, p);
      } else if frameType == CONTINUATION || frameType > ALTSVC {
        status := opaqueDecoder.ResumeDecodingPayload(state, db, base, p);
      } else {
        status := fixedDecoder.ResumeDecodingPayload(state, db, base, p);
      }
    }
  }
}

/** The four-state frame machine, and what any run of it reports. */
module Http2FrameDecoding {
  import opened Wrappers
  import opened BigEndian
  import opened Http2Structures
  import opened Http2Reference
  import opened Http2DecodeBuffer
  import opened Http2StructureDecoding
  import opened Http2FrameDecoderState
  import opened Http2PayloadContract
  import opened Http2PayloadSteps
  import opened Http2PayloadDispatch

  datatype State = StartDecodingHeader | ResumeDecodingHeader | ResumeDecodingPayload | DiscardPayload

  class Http2FrameDecoder {
    var phase: State
    const maximumPayloadSize: nat
    const listener: Listener
    const state: FrameDecoderState
    const decoders: PayloadDecoders

    /** The bytes of the frames before the current one, and what had been reported after them. */
    ghost var finished: seq<byte>
    ghost var acc: seq<Event>
    /** The bytes of the current frame so far. */
    ghost var frame: seq<byte>

    /** Everything decoded so far. */
    ghost function Stream(): seq<byte>
      reads this
    {
      finished + frame
    }

    ghost predicate Valid()
      reads this, listener, state, state.structureDecoder, state.structureDecoder.buffer
      reads decoders.dataDecoder, decoders.headersDecoder, decoders.pushPromiseDecoder, decoders.goAwayDecoder, decoders.altSvcDecoder
    {
      && state.Valid() && state.listener == listener && maximumPayloadSize == listener.policy.maximumPayloadSize
      && AtBoundary(finished) && Trace(listener.policy, [], finished) == acc
      && match phase
         case StartDecodingHeader => frame == [] && listener.trace == acc
         case ResumeDecodingHeader => |frame| < HEADER_SIZE && state.structureDecoder.Buffered() == frame && listener.trace == acc
         case ResumeDecodingPayload => HEADER_SIZE <= |frame| < FrameSize(frame) && InPayload()
         case DiscardPayload => HEADER_SIZE <= |frame| <= FrameSize(frame) && InDiscarded()
    }

    ghost predicate InPayload()
      requires HEADER_SIZE <= |frame| < FrameSize(frame) && state.Valid()
      reads this, listener, state, state.structureDecoder, state.structureDecoder.buffer
      reads decoders.dataDecoder, decoders.headersDecoder, decoders.pushPromiseDecoder, decoders.goAwayDecoder, decoders.altSvcDecoder
    {
      var h, p := HeaderOf(frame), frame[HEADER_SIZE..];
      && listener.policy.accept(acc, h) && h.payloadLength <= maximumPayloadSize
      && state.frameHeader == CleanHeader(h) && Accounts(state, p) && decoders.At(state, p)
      && !PayloadReading(CleanHeader(h), p).failed
      && listener.trace == acc + [OnFrameHeader(h)] + PayloadReading(CleanHeader(h), p).events
    }

    ghost predicate InDiscarded()
      requires HEADER_SIZE <= |frame| <= FrameSize(frame)
      reads this, listener, state
    {
      var h, p := HeaderOf(frame), frame[HEADER_SIZE..];
      && |p| + state.remainingPayload + state.remainingPadding == h.payloadLength
      && FrameReading(listener.policy, acc, h, p).failed
      && listener.trace == acc + FrameReading(listener.policy, acc, h, p).events
    }

    constructor (listener: Listener)
      requires listener.trace == []
      ensures Valid() && Stream() == [] && this.listener == listener
      ensures fresh(state) && fresh(state.structureDecoder) && fresh(state.structureDecoder.buffer) && fresh(decoders)
      ensures fresh(decoders.dataDecoder) && fresh(decoders.headersDecoder) && fresh(decoders.pushPromiseDecoder)
      ensures fresh(decoders.goAwayDecoder) && fresh(decoders.altSvcDecoder)
    {
      phase := StartDecodingHeader;
      maximumPayloadSize := listener.policy.maximumPayloadSize;
      this.listener := listener;
      state := new FrameDecoderState(listener);
      decoders := new PayloadDecoders();
      finished, acc, frame := [], [], [];
    }

    /** Nothing of a frame has been taken, or all of one that was in error. */
    ghost predicate Boundary()
      reads this
    {
      frame == [] || (phase == DiscardPayload && StartsWithWholeFrame(frame) && |frame| == FrameSize(frame))
    }

    /** What the listener has been told is a function of the bytes alone, however they came. */
    lemma Reported()
      requires Valid()
      ensures listener.trace == Trace(listener.policy, [], Stream())
      ensures AtBoundary(Stream()) <==> Boundary()
    {
      ReportedTrace();
      BoundaryMeans();
    }

    lemma ReportedTrace()
      requires Valid()
      ensures listener.trace == Trace(listener.policy, [], Stream())
    {
      TraceSplit(listener.policy, [], finished, frame);
      if phase == DiscardPayload && |frame| == FrameSize(frame) {
        assert frame[HEADER_SIZE..FrameSize(frame)] == frame[HEADER_SIZE..] && frame[FrameSize(frame)..] == [];
      }
    }

    lemma BoundaryMeans()
      requires Valid()
      ensures AtBoundary(Stream()) <==> Boundary()
    {
      hide Trace, FrameReading, PayloadReading, CleanHeader, HeaderOf, Decode, PayloadDecoders.At;
      TraceSplit(listener.policy, [], finished, frame);
      if StartsWithWholeFrame(frame) && |frame| == FrameSize(frame) {
        assert frame[FrameSize(frame)..] == [];
      }
    }

    /** One call takes at most the rest of one frame, and says whether that completed it. */
    ghost predicate FrameStep(finished0: seq<byte>, frame0: seq<byte>, taken: seq<byte>, status: DecodeStatus)
      reads this
    {
      var all := frame0 + taken;
      if status.DecodeDone? then
        && StartsWithWholeFrame(all) && FrameSize(all) == |all|
        && finished == finished0 + all && frame == [] && phase == StartDecodingHeader
      else
        && finished == finished0 && frame == all
        && (HEADER_SIZE <= |all| ==> |all| <= FrameSize(all))
        && (status.DecodeInProgress? ==> !StartsWithWholeFrame(all))
        && (status.DecodeError? ==> phase == DiscardPayload)
    }

    method DecodeFrame(db: DecodeBuffer) returns (status: DecodeStatus)
      requires Valid() && db.Valid()
      modifies this`phase, this`finished, this`acc, this`frame
      modifies decoders.dataDecoder, decoders.headersDecoder, decoders.pushPromiseDecoder, decoders.goAwayDecoder, decoders.altSvcDecoder
      modifies state, state.structureDecoder`offset, state.structureDecoder.buffer, listener`trace, db
      ensures Valid() && db.Valid() && old(db.cursor) <= db.cursor
      ensures FrameStep(old(finished), old(frame), db.data[old(db.cursor)..db.cursor], status)
      ensures Stream() == old(Stream()) + db.data[old(db.cursor)..db.cursor]
      ensures status.DecodeInProgress? ==> !db.HasData()
      ensures old(db.HasData()) && db.cursor == old(db.cursor) ==> old(phase) == DiscardPayload && phase == StartDecodingHeader
    {
      hide Trace, AtBoundary, FrameReading, PayloadReading, Decode, CleanHeader, FrameStep, InPayload, InDiscarded;
      match phase {
      case StartDecodingHeader =>
        var out := state.structureDecoder.Start(HeaderKind, db);
        ghost var d := db.cursor;
        status := HandleHeader(db, out, db.data[old(db.cursor)..d]);
        assert db.data[old(db.cursor)..d] + db.data[d..db.cursor] == db.data[old(db.cursor)..db.cursor];
      case ResumeDecodingHeader =>
        var out := state.structureDecoder.Resume(HeaderKind, db);
        ghost var d := db.cursor;
        status := HandleHeader(db, out, db.data[old(db.cursor)..d]);
        assert db.data[old(db.cursor)..d] + db.data[d..db.cursor] == db.data[old(db.cursor)..db.cursor];
      case ResumeDecodingPayload =>
        status := ResumePayload(db);
      case DiscardPayload =>
        status := Discard(db);
      }
      StepStream(old(finished), old(frame), db.data[old(db.cursor)..db.cursor], status);
    }

    lemma StepStream(finished0: seq<byte>, frame0: seq<byte>, taken: seq<byte>, status: DecodeStatus)
      requires FrameStep(finished0, frame0, taken, status)
      ensures Stream() == finished0 + frame0 + taken
    {
    }

    /** The header is known and nothing has been made of it yet. */
    ghost predicate HeaderDecoded()
      reads this, listener, state, state.structureDecoder
    {
      && state.Valid() && state.listener == listener && maximumPayloadSize == listener.policy.maximumPayloadSize
      && AtBoundary(finished) && Trace(listener.policy, [], finished) == acc && listener.trace == acc
      && |frame| == HEADER_SIZE && state.frameHeader == HeaderOf(frame)
    }

    method StartPayload(db: DecodeBuffer) returns (status: DecodeStatus)
      requires HeaderDecoded() && db.Valid()
      modifies this`phase, this`finished, this`acc, this`frame
      modifies decoders.dataDecoder, decoders.headersDecoder, decoders.pushPromiseDecoder, decoders.goAwayDecoder, decoders.altSvcDecoder
      modifies state, state.structureDecoder`offset, state.structureDecoder.buffer, listener`trace, db
      ensures Valid() && db.Valid() && old(db.cursor) <= db.cursor
      ensures FrameStep(old(finished), old(frame), db.data[old(db.cursor)..db.cursor], status)
      ensures status.DecodeInProgress? ==> !db.HasData()
    {
      hide Trace, AtBoundary, PayloadReading, Decode, CleanHeader, PayloadDecoders.At;
      var h := state.frameHeader;
      CleanHeaderKeeps(h);
      ghost var c := db.cursor;
      assert db.data[c..c] == [] && frame + [] == frame && frame[HEADER_SIZE..] == [];
      var accepted := listener.NotifyFrameHeader(h);
      if !accepted {
        phase := DiscardPayload;
        state.InitializeRemainders();
        return DecodeError;
      }
      if h.payloadLength > maximumPayloadSize {
        phase := DiscardPayload;
        state.InitializeRemainders();
        listener.Notify(OnFrameSizeError(h));
        assert acc + [OnFrameHeader(h)] + [OnFrameSizeError(h)] == acc + [OnFrameHeader(h), OnFrameSizeError(h)];
        return DecodeError;
      }
      var n := db.MinLengthRemaining(h.payloadLength);
      var subset := new DecodeBuffer(db.Next(n));
      status := decoders.StartDecodingPayload(state, subset, acc + [OnFrameHeader(h)]);
      db.AdvanceCursor(subset.cursor);
      ghost var q := db.data[c..db.cursor];
      assert q == subset.data[0..subset.cursor];
      assert (frame + q)[..HEADER_SIZE] == frame[..HEADER_SIZE] && (frame + q)[HEADER_SIZE..] == q;
      frame := frame + q;
      status := Settle(status);
    }

    /** The state after a payload decoder has returned. */
    method Settle(status0: DecodeStatus) returns (status: DecodeStatus)
      requires state.Valid() && state.listener == listener && maximumPayloadSize == listener.policy.maximumPayloadSize
      requires AtBoundary(finished) && Trace(listener.policy, [], finished) == acc
      requires HEADER_SIZE <= |frame| <= FrameSize(frame)
      requires var h, p := HeaderOf(frame), frame[HEADER_SIZE..];
        && listener.policy.accept(acc, h) && h.payloadLength <= maximumPayloadSize && state.frameHeader == CleanHeader(h)
        && listener.trace == acc + [OnFrameHeader(h)] + PayloadReading(CleanHeader(h), p).events
        && (status0.DecodeError? <==> PayloadReading(CleanHeader(h), p).failed)
        && (status0.DecodeDone? ==> |p| == h.payloadLength)
        && (status0.DecodeInProgress? ==> |p| < h.payloadLength && decoders.At(state, p))
        && (!status0.DecodeDone? ==> Accounts(state, p))
      modifies this`phase, this`finished, this`acc, this`frame
      ensures Valid() && status == status0 && FrameStep(old(finished), old(frame), [], status)
    {
      hide Trace, AtBoundary, PayloadReading, CleanHeader, Decode;
      ghost var h, p := HeaderOf(frame), frame[HEADER_SIZE..];
      CleanHeaderKeeps(h);
      ghost var r := PayloadReading(CleanHeader(h), p);
      assert frame + [] == frame;
      assert acc + ([OnFrameHeader(h)] + r.events) == acc + [OnFrameHeader(h)] + r.events;
      status := status0;
      if status0 == DecodeDone {
        phase := StartDecodingHeader;
        EndFrame();
      } else if status0 == DecodeInProgress {
        phase := ResumeDecodingPayload;
      } else {
        phase := DiscardPayload;
      }
    }

    lemma CleanHeaderKeeps(h: FrameHeader)
      ensures CleanHeader(h).payloadLength == h.payloadLength
    {
    }

    /** The current frame joins the finished ones. */
    ghost method EndFrame()
      requires AtBoundary(finished) && Trace(listener.policy, [], finished) == acc
      requires StartsWithWholeFrame(frame) && FrameSize(frame) == |frame|
      requires listener.trace == acc + FrameReading(listener.policy, acc, HeaderOf(frame), frame[HEADER_SIZE..]).events
      modifies this`finished, this`acc, this`frame
      ensures finished == old(finished + frame) && frame == [] && acc == listener.trace
      ensures AtBoundary(finished) && Trace(listener.policy, [], finished) == acc
    {
      hide FrameReading, Decode;
      TraceSplit(listener.policy, [], finished, frame);
      assert frame[HEADER_SIZE..FrameSize(frame)] == frame[HEADER_SIZE..] && frame[FrameSize(frame)..] == [];
      finished, frame, acc := finished + frame, [], listener.trace;
    }

    method ResumePayload(db: DecodeBuffer) returns (status: DecodeStatus)
      requires Valid() && db.Valid() && phase == ResumeDecodingPayload
      modifies this`phase, this`finished, this`acc, this`frame
      modifies decoders.dataDecoder, decoders.headersDecoder, decoders.pushPromiseDecoder, decoders.goAwayDecoder, decoders.altSvcDecoder
      modifies state, state.structureDecoder`offset, state.structureDecoder.buffer, listener`trace, db
      ensures Valid() && db.Valid() && old(db.cursor) <= db.cursor
      ensures FrameStep(old(finished), old(frame), db.data[old(db.cursor)..db.cursor], status)
      ensures status.DecodeInProgress? ==> !db.HasData()
      ensures old(db.HasData()) ==> old(db.cursor) < db.cursor
    {
      hide Trace, AtBoundary, Decode, CleanHeader, FrameReading, PayloadReading, Before, PayloadLeft, PayloadDecoders.At;
      ghost var h, p := HeaderOf(frame), frame[HEADER_SIZE..];
      CleanHeaderKeeps(h);
      ghost var c := db.cursor;
      var n := db.MinLengthRemaining(state.RemainingTotalPayload());
      var subset := new DecodeBuffer(db.Next(n));
      BeforeIsReading(state.frameHeader, p);
      status := decoders.ResumeDecodingPayload(state, subset, acc + [OnFrameHeader(h)], p);
      db.AdvanceCursor(subset.cursor);
      ghost var q := db.data[c..db.cursor];
      assert q == subset.data[0..subset.cursor];
      assert q == [] ==> p + q == p;
      assert (frame + q)[..HEADER_SIZE] == frame[..HEADER_SIZE] && (frame + q)[HEADER_SIZE..] == p + q;
      frame := frame + q;
      status := Settle(status);
    }

    /** Takes what is left of a frame that is in error. */
    method Discard(db: DecodeBuffer) returns (status: DecodeStatus)
      requires Valid() && db.Valid() && phase == DiscardPayload
      modifies this`phase, this`finished, this`acc, this`frame, state`remainingPayload, state`remainingPadding, db
      ensures Valid() && db.Valid() && old(db.cursor) <= db.cursor
      ensures FrameStep(old(finished), old(frame), db.data[old(db.cursor)..db.cursor], status)
      ensures status.DecodeInProgress? ==> !db.HasData()
      ensures !status.DecodeError?
      ensures old(db.HasData()) && db.cursor == old(db.cursor) ==> phase == StartDecodingHeader
    {
      hide Trace, AtBoundary, Decode, FrameReading;
      ghost var h, p := HeaderOf(frame), frame[HEADER_SIZE..];
      ghost var c := db.cursor;
      state.remainingPayload := state.remainingPayload + state.remainingPadding;
      state.remainingPadding := 0;
      var avail := state.AvailablePayload(db);
      if avail > 0 {
        state.ConsumePayload(avail);
        db.AdvanceCursor(avail);
      }
      ghost var q := db.data[c..db.cursor];
      FrameFailureIsFinal(listener.policy, acc, h, p, q);
      assert (frame + q)[..HEADER_SIZE] == frame[..HEADER_SIZE] && (frame + q)[HEADER_SIZE..] == p + q;
      frame := frame + q;
      if state.remainingPayload == 0 {
        phase := StartDecodingHeader;
        EndFrame();
        return DecodeDone;
      }
      return DecodeInProgress;
    }

    /** What follows starting or resuming a header with the bytes taken. */
    method HandleHeader(db: DecodeBuffer, out: Option<Structure>, ghost taken: seq<byte>) returns (status: DecodeStatus)
      requires state.Valid() && db.Valid() && state.listener == listener && maximumPayloadSize == listener.policy.maximumPayloadSize
      requires AtBoundary(finished) && Trace(listener.policy, [], finished) == acc && listener.trace == acc
      requires Stepped(HeaderKind, frame, taken, 1, if out.Some? then DecodeDone else DecodeInProgress, out, state.structureDecoder.Buffered(), !db.HasData())
      modifies this`phase, this`finished, this`acc, this`frame
      modifies decoders.dataDecoder, decoders.headersDecoder, decoders.pushPromiseDecoder, decoders.goAwayDecoder, decoders.altSvcDecoder
      modifies state, state.structureDecoder`offset, state.structureDecoder.buffer, listener`trace, db
      ensures Valid() && db.Valid() && old(db.cursor) <= db.cursor
      ensures FrameStep(old(finished), old(frame), taken + db.data[old(db.cursor)..db.cursor], status)
      ensures status.DecodeInProgress? ==> !db.HasData()
    {
      hide Trace, AtBoundary, FrameReading, PayloadReading, CleanHeader;
      assert taken + db.data[db.cursor..db.cursor] == taken;
      frame := frame + taken;
      if out.None? {
        phase := ResumeDecodingHeader;
        return DecodeInProgress;
      }
      state.frameHeader := out.value.header;
      assert frame[..HEADER_SIZE] == frame;
      status := StartPayload(db);
      assert old(frame) + taken + db.data[old(db.cursor)..db.cursor] == old(frame) + (taken + db.data[old(db.cursor)..db.cursor]);
    }
  }
}
