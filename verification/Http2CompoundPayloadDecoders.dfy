/** PUSH_PROMISE: optional padding, the promised stream id and a header block fragment. */
module Http2PushPromisePayloadDecoder {
  import opened Wrappers
  import opened BigEndian
  import opened Http2Structures
  import opened Http2Reference
  import opened Http2DecodeBuffer
  import opened Http2StructureDecoding
  import opened Http2FrameDecoderState
  import opened Http2PayloadContract
  import opened Http2PayloadSteps
  import opened Moves = Http2PayloadMoves

  datatype PayloadState = ReadPadLength | StartDecodingPushPromiseFields | ReadPayload | SkipPadding | ResumeDecodingPushPromiseFields

  class PushPromisePayloadDecoder {
    var payloadState: PayloadState

    constructor () { payloadState := ReadPadLength; }

    ghost predicate At(state: FrameDecoderState, p: seq<byte>)
      requires state.Valid() && |p| <= state.frameHeader.payloadLength
      reads this, state, state.structureDecoder, state.structureDecoder.buffer
    {
      var h := state.frameHeader;
      match payloadState
      case ReadPadLength => Padded(h) && p == []
      case StartDecodingPushPromiseFields => false
      case ReadPayload => InTail(h, p)
      case SkipPadding => InTail(h, p) && PayloadLeft(h, p) == 0
      case ResumeDecodingPushPromiseFields => InLeading(state, p)
    }

    method StartDecodingPayload(state: FrameDecoderState, db: DecodeBuffer, ghost base: seq<Event>)
      returns (status: DecodeStatus)
      requires state.frameHeader.frameType == PUSH_PROMISE && ReadyToStart(state, db, base)
      modifies this, state`remainingPayload, state`remainingPadding, state.structureDecoder`offset, state.structureDecoder.buffer, state.listener`trace, db
      ensures state.Valid() && db.Valid() && old(db.cursor) <= db.cursor
      ensures Outcome(state, db, base, db.data[old(db.cursor)..db.cursor], status)
      ensures status.DecodeInProgress? ==> At(state, db.data[old(db.cursor)..db.cursor])
    {
      hide OpenReading, Bytewise;
      if !IsPadded(state.frameHeader) {
        payloadState := StartDecodingPushPromiseFields;
      } else {
        payloadState := ReadPadLength;
      }
      state.InitializeRemainders();
      assert base + [] == base;
      status := ResumeDecodingPayload(state, db, base, []);
      assert [] + db.data[old(db.cursor)..db.cursor] == db.data[old(db.cursor)..db.cursor];
    }

    /** The switch on the payload state. Where the source falls through to a later case, or
        sets the state and loops, the code from there on is a method of its own. */
    method ResumeDecodingPayload(state: FrameDecoderState, db: DecodeBuffer, ghost base: seq<Event>, ghost p: seq<byte>)
      returns (status: DecodeStatus)
      requires state.frameHeader.frameType == PUSH_PROMISE && Ready(state, db, base, p)
      requires At(state, p) || (payloadState == StartDecodingPushPromiseFields && p == [] && !Padded(state.frameHeader))
      modifies this, state`remainingPayload, state`remainingPadding, state.structureDecoder`offset, state.structureDecoder.buffer, state.listener`trace, db
      ensures state.Valid() && db.Valid() && old(db.cursor) <= db.cursor
      ensures Outcome(state, db, base, p + db.data[old(db.cursor)..db.cursor], status)
      ensures status.DecodeInProgress? ==> At(state, p + db.data[old(db.cursor)..db.cursor])
    {
      EnterResume(state, db, base, p);
      hide OpenReading, PayloadLeft, Decode, Reported, Outcome, BeforeLeading, InTail, Accounts, PayloadReading, InLeading, Ready, Before, ContentLength, PadLength, Intro, PadKnown, LeadingSize, HasFlag, TailPart, EncodedSize, StartEvents;
      ghost var c := db.cursor;
      match payloadState
      case ReadPadLength =>
        status := ReadPadding(state, db, base);
        assert [] + db.data[c..db.cursor] == db.data[c..db.cursor];
      case StartDecodingPushPromiseFields =>
        status := ReadPushPromiseFields(state, db, base, p);
      case ResumeDecodingPushPromiseFields =>
        var out;
        status, out := ResumeLeading(state, db, base, p);
        ghost var d := db.cursor;
        status := HandleFields(state, db, status, out, base, p + db.data[c..d]);
        Extend(db.data, p, c, d, db.cursor);
      case _ =>
        status := ReadFragment(state, db, base, p);
    }

    /** From kReadPadLength on. */
    method ReadPadding(state: FrameDecoderState, db: DecodeBuffer, ghost base: seq<Event>)
      returns (status: DecodeStatus)
      requires state.frameHeader.frameType == PUSH_PROMISE && Ready(state, db, base, []) && Padded(state.frameHeader)
      modifies this, state`remainingPayload, state`remainingPadding, state.structureDecoder`offset, state.structureDecoder.buffer, state.listener`trace, db
      ensures state.Valid() && db.Valid() && old(db.cursor) <= db.cursor
      ensures Outcome(state, db, base, db.data[old(db.cursor)..db.cursor], status)
      ensures status.DecodeInProgress? ==> At(state, db.data[old(db.cursor)..db.cursor])
    {
      hide OpenReading, PayloadLeft, Decode, Reported, Outcome, BeforeLeading, InTail, Accounts, PayloadReading, InLeading, Before, ContentLength, PadLength, Intro, PadKnown, LeadingSize, TailPart, EncodedSize, StartEvents;
      ghost var c := db.cursor;
      status := Moves.ReadPadLength(state, db, base);
      if status != DecodeDone {
        payloadState := PayloadState.ReadPadLength;
        return;
      }
      ghost var d := db.cursor;
      status := ReadPushPromiseFields(state, db, base, db.data[c..d]);
      Extend(db.data, [], c, d, db.cursor);
      assert [] + db.data[c..d] == db.data[c..d] && [] + db.data[c..db.cursor] == db.data[c..db.cursor];
    }

    /** From kStartDecodingPushPromiseFields on. */
    method ReadPushPromiseFields(state: FrameDecoderState, db: DecodeBuffer, ghost base: seq<Event>, ghost p: seq<byte>)
      returns (status: DecodeStatus)
      requires state.frameHeader.frameType == PUSH_PROMISE && BeforeLeading(state, db, base, p) && |p| == PadByte(state.frameHeader)
      modifies this, state`remainingPayload, state`remainingPadding, state.structureDecoder`offset, state.structureDecoder.buffer, state.listener`trace, db
      ensures state.Valid() && db.Valid() && old(db.cursor) <= db.cursor
      ensures Outcome(state, db, base, p + db.data[old(db.cursor)..db.cursor], status)
      ensures status.DecodeInProgress? ==> At(state, p + db.data[old(db.cursor)..db.cursor])
    {
      hide OpenReading, PayloadLeft, Decode, Reported, Outcome, InTail, Accounts, PayloadReading;
      ghost var c := db.cursor;
      var out;
      status, out := StartLeading(state, db, base, p);
      ghost var d := db.cursor;
      status := HandleFields(state, db, status, out, base, p + db.data[c..d]);
      Extend(db.data, p, c, d, db.cursor);
    }

    /** What follows starting or resuming the fields. */
    method HandleFields(state: FrameDecoderState, db: DecodeBuffer, status0: DecodeStatus, out: Option<Structure>,
                        ghost base: seq<Event>, ghost p: seq<byte>)
      returns (status: DecodeStatus)
      requires state.frameHeader.frameType == PUSH_PROMISE && LeadingOutcome(state, db, base, p, status0, out)
      modifies this, state`remainingPayload, state`remainingPadding, state.listener`trace, db
      ensures state.Valid() && db.Valid() && old(db.cursor) <= db.cursor
      ensures Outcome(state, db, base, p + db.data[old(db.cursor)..db.cursor], status)
      ensures status.DecodeInProgress? ==> At(state, p + db.data[old(db.cursor)..db.cursor])
    {
      hide OpenReading, PayloadLeft, Decode, Reported, InTail, Accounts, PayloadReading, ContentLength, PadLength, Intro, PadKnown, TailPart, EncodedSize, StartEvents;
      assert p + db.data[db.cursor..db.cursor] == p;
      if status0 != DecodeDone {
        payloadState := ResumeDecodingPushPromiseFields;
        return status0;
      }
      ReportPushPromise(state, db, out.value, base, p);
      payloadState := ReadPayload;
      status := ReadFragment(state, db, base, p);
    }

    method ReportPushPromise(state: FrameDecoderState, db: DecodeBuffer, x: Structure, ghost base: seq<Event>, ghost t: seq<byte>)
      requires state.frameHeader.frameType == PUSH_PROMISE && LeadingOutcome(state, db, base, t, DecodeDone, Some(x))
      modifies state.listener`trace
      ensures Reported(state, db, base, t) && InTail(state.frameHeader, t)
    {
      var h := state.frameHeader;
      SameLayout(h, t, []);
      if IsPadded(h) {
        NotifyLeading(state, db, x, OnPushPromiseStart(h, x, 1 + state.remainingPadding), base, t);
      } else {
        NotifyLeading(state, db, x, OnPushPromiseStart(h, x, 0), base, t);
      }
    }

    /** From kReadPayload on, or from kSkipPadding when that is the state. */
    method ReadFragment(state: FrameDecoderState, db: DecodeBuffer, ghost base: seq<Event>, ghost p: seq<byte>)
      returns (status: DecodeStatus)
      requires state.frameHeader.frameType == PUSH_PROMISE && InTail(state.frameHeader, p) && Reported(state, db, base, p)
      requires payloadState == SkipPadding ==> PayloadLeft(state.frameHeader, p) == 0
      modifies this, state`remainingPayload, state`remainingPadding, state.listener`trace, db
      ensures state.Valid() && db.Valid() && old(db.cursor) <= db.cursor
      ensures Outcome(state, db, base, p + db.data[old(db.cursor)..db.cursor], status)
      ensures status.DecodeInProgress? ==> At(state, p + db.data[old(db.cursor)..db.cursor])
    {
      hide OpenReading, PayloadLeft, Outcome, InTail, Accounts, PayloadReading;
      var position := ReadTailAndPadding(state, db, payloadState == PayloadState.SkipPadding, base, p);
      if position == AtEnd {
        NotifyEnd(state, db, OnPushPromiseEnd, base, p + db.data[old(db.cursor)..db.cursor]);
        return DecodeDone;
      }
      payloadState := if position == InContent then ReadPayload else PayloadState.SkipPadding;
      return DecodeInProgress;
    }

    /** Where a resumed payload stands, put in terms of the moves. */
    lemma EnterResume(state: FrameDecoderState, db: DecodeBuffer, base: seq<Event>, p: seq<byte>)
      requires state.frameHeader.frameType == PUSH_PROMISE && Ready(state, db, base, p)
      requires At(state, p) || (payloadState == StartDecodingPushPromiseFields && p == [] && !Padded(state.frameHeader))
      ensures var h := state.frameHeader;
        && (payloadState == ReadPayload || payloadState == SkipPadding ==> InTail(h, p) && Reported(state, db, base, p))
        && (payloadState == SkipPadding ==> PayloadLeft(h, p) == 0)
        && (payloadState == StartDecodingPushPromiseFields ==> |p| == PadByte(h) && BeforeLeading(state, db, base, p))
        && (payloadState == ResumeDecodingPushPromiseFields ==> InLeading(state, p) && BeforeLeading(state, db, base, p))
        && (payloadState == ReadPadLength ==> Padded(h) && p == [])
    {
      hide OpenReading, Bytewise, PayloadLeft;
      var h := state.frameHeader;
      if payloadState == ResumeDecodingPushPromiseFields {
        InLeadingBefore(h, p);
      } else if payloadState == StartDecodingPushPromiseFields {
        IntroIsStart(h);
      } else if payloadState != ReadPadLength {
        TailStep(h, p, []);
      }
    }
  }
}

/** GOAWAY: fixed fields and opaque data. */
module Http2GoAwayPayloadDecoder {
  import opened Wrappers
  import opened BigEndian
  import opened Http2Structures
  import opened Http2Reference
  import opened Http2DecodeBuffer
  import opened Http2StructureDecoding
  import opened Http2FrameDecoderState
  import opened Http2PayloadContract
  import opened Http2PayloadSteps
  import opened Moves = Http2PayloadMoves

  datatype PayloadState = StartDecodingFixedFields | HandleFixedFieldsStatus | ReadOpaqueData | ResumeDecodingFixedFields

  class GoAwayPayloadDecoder {
    var payloadState: PayloadState

    constructor () { payloadState := StartDecodingFixedFields; }

    ghost predicate At(state: FrameDecoderState, p: seq<byte>)
      requires state.Valid() && |p| <= state.frameHeader.payloadLength
      reads this, state, state.structureDecoder, state.structureDecoder.buffer
    {
      match payloadState
      case ReadOpaqueData => InTail(state.frameHeader, p)
      case ResumeDecodingFixedFields => InLeading(state, p)
      case _ => false
    }

    method StartDecodingPayload(state: FrameDecoderState, db: DecodeBuffer, ghost base: seq<Event>)
      returns (status: DecodeStatus)
      requires state.frameHeader.frameType == GOAWAY && ReadyToStart(state, db, base)
      modifies this, state`remainingPayload, state`remainingPadding, state.structureDecoder`offset, state.structureDecoder.buffer, state.listener`trace, db
      ensures state.Valid() && db.Valid() && old(db.cursor) <= db.cursor
      ensures Outcome(state, db, base, db.data[old(db.cursor)..db.cursor], status)
      ensures status.DecodeInProgress? ==> At(state, db.data[old(db.cursor)..db.cursor])
    {
      state.InitializeRemainders();
      payloadState := StartDecodingFixedFields;
      assert base + [] == base;
      status := ResumeDecodingPayload(state, db, base, []);
      assert [] + db.data[old(db.cursor)..db.cursor] == db.data[old(db.cursor)..db.cursor];
    }

    /** The source's loop runs a second time only to handle the status of a resumed structure. */
    method ResumeDecodingPayload(state: FrameDecoderState, db: DecodeBuffer, ghost base: seq<Event>, ghost p: seq<byte>)
      returns (status: DecodeStatus)
      requires state.frameHeader.frameType == GOAWAY && Ready(state, db, base, p)
      requires At(state, p) || (payloadState == StartDecodingFixedFields && p == [])
      modifies this, state`remainingPayload, state`remainingPadding, state.structureDecoder`offset, state.structureDecoder.buffer, state.listener`trace, db
      ensures state.Valid() && db.Valid() && old(db.cursor) <= db.cursor
      ensures Outcome(state, db, base, p + db.data[old(db.cursor)..db.cursor], status)
      ensures status.DecodeInProgress? ==> At(state, p + db.data[old(db.cursor)..db.cursor])
    {
      EnterResume(state, db, base, p);
      hide OpenReading, PayloadLeft, Decode, Reported, Outcome, BeforeLeading, InTail, Accounts, PayloadReading, InLeading, Ready, Before, ContentLength, PadLength, Intro, PadKnown, LeadingSize, HasFlag, TailPart, EncodedSize, StartEvents;
      ghost var c := db.cursor;
      if payloadState == ReadOpaqueData {
        status := ReadData(state, db, base, p);
        return;
      }
      var out;
      if payloadState == StartDecodingFixedFields {
        status, out := StartLeading(state, db, base, p);
      } else {
        status, out := ResumeLeading(state, db, base, p);
        payloadState := HandleFixedFieldsStatus;
      }
      ghost var d := db.cursor;
      status := HandleFixedFields(state, db, status, out, base, p + db.data[c..d]);
      Extend(db.data, p, c, d, db.cursor);
    }

    /** The state kHandleFixedFieldsStatus. */
    method HandleFixedFields(state: FrameDecoderState, db: DecodeBuffer, status0: DecodeStatus, out: Option<Structure>,
                             ghost base: seq<Event>, ghost p: seq<byte>)
      returns (status: DecodeStatus)
      requires state.frameHeader.frameType == GOAWAY && LeadingOutcome(state, db, base, p, status0, out)
      modifies this, state`remainingPayload, state`remainingPadding, state.listener`trace, db
      ensures state.Valid() && db.Valid() && old(db.cursor) <= db.cursor
      ensures Outcome(state, db, base, p + db.data[old(db.cursor)..db.cursor], status)
      ensures status.DecodeInProgress? ==> At(state, p + db.data[old(db.cursor)..db.cursor])
    {
      hide OpenReading, PayloadLeft, Decode, Reported, InTail, Accounts, PayloadReading, ContentLength, PadLength, Intro, PadKnown, TailPart, EncodedSize, StartEvents;
      assert p + db.data[db.cursor..db.cursor] == p;
      if status0 != DecodeDone {
        payloadState := ResumeDecodingFixedFields;
        return status0;
      }
      NotifyLeading(state, db, out.value, OnGoAwayStart(state.frameHeader, out.value), base, p);
      status := ReadData(state, db, base, p);
    }

    /** The state kReadOpaqueData. */
    method ReadData(state: FrameDecoderState, db: DecodeBuffer, ghost base: seq<Event>, ghost p: seq<byte>)
      returns (status: DecodeStatus)
      requires state.frameHeader.frameType == GOAWAY && InTail(state.frameHeader, p) && Reported(state, db, base, p)
      modifies this, state`remainingPayload, state`remainingPadding, state.listener`trace, db
      ensures state.Valid() && db.Valid() && old(db.cursor) <= db.cursor
      ensures Outcome(state, db, base, p + db.data[old(db.cursor)..db.cursor], status)
      ensures status.DecodeInProgress? ==> At(state, p + db.data[old(db.cursor)..db.cursor])
    {
      hide OpenReading, Bytewise;
      ReadRest(state, db, base, p);
      if state.remainingPayload > 0 {
        payloadState := ReadOpaqueData;
        return DecodeInProgress;
      }
      NotifyEnd(state, db, OnGoAwayEnd, base, p + db.data[old(db.cursor)..db.cursor]);
      return DecodeDone;
    }

    lemma EnterResume(state: FrameDecoderState, db: DecodeBuffer, base: seq<Event>, p: seq<byte>)
      requires state.frameHeader.frameType == GOAWAY && Ready(state, db, base, p)
      requires At(state, p) || (payloadState == StartDecodingFixedFields && p == [])
      ensures var h := state.frameHeader;
        && (payloadState == ReadOpaqueData ==> InTail(h, p) && Reported(state, db, base, p))
        && (payloadState == StartDecodingFixedFields ==> |p| == PadByte(h) && BeforeLeading(state, db, base, p))
        && (payloadState == ResumeDecodingFixedFields ==> InLeading(state, p) && BeforeLeading(state, db, base, p))
        && payloadState != HandleFixedFieldsStatus
    {
      hide OpenReading, Bytewise, PayloadLeft;
      var h := state.frameHeader;
      if payloadState == ReadOpaqueData {
        TailStep(h, p, []);
      } else if payloadState == StartDecodingFixedFields {
        IntroIsStart(h);
      } else {
        InLeadingBefore(h, p);
      }
    }
  }
}

/** SETTINGS: an acknowledgement, or any number of settings. */
module Http2SettingsPayloadDecoder {
  import opened BigEndian
  import opened Http2Structures
  import opened Http2Reference
  import opened Http2DecodeBuffer
  import opened Http2StructureDecoding
  import opened Http2FrameDecoderState
  import opened Http2PayloadContract
  import opened Http2PayloadSteps
  import opened Moves = Http2PayloadMoves

  const SETTING_SIZE: nat := 6

  /** The settings in a prefix made of whole settings. */
  ghost function WholeSettings(c: seq<byte>): seq<Event>
    requires |c| % SETTING_SIZE == 0
  {
    if c == [] then [] else [OnSetting(Decode(SettingKind, c[..SETTING_SIZE]))] + WholeSettings(c[SETTING_SIZE..])
  }

  /** Whole settings and part of one more. */
  lemma {:induction false} SettingsReadingIs(h: FrameHeader, n: nat, c: seq<byte>, a: seq<byte>)
    requires |c| % SETTING_SIZE == 0 && |a| < SETTING_SIZE && |c + a| <= n
    ensures SettingsReading(h, n, c + a) ==
      if |c| < n < |c| + SETTING_SIZE && |c + a| == n then Reading(WholeSettings(c) + [OnFrameSizeError(h)], true)
      else Reading(WholeSettings(c), false)
  {
    if c == [] {
      assert c + a == a;
    } else {
      assert (c + a)[..SETTING_SIZE] == c[..SETTING_SIZE] && (c + a)[SETTING_SIZE..] == c[SETTING_SIZE..] + a;
      SettingsReadingIs(h, n - SETTING_SIZE, c[SETTING_SIZE..], a);
    }
  }

  lemma {:induction false} WholeSettingsSnoc(c: seq<byte>, s: seq<byte>)
    requires |c| % SETTING_SIZE == 0 && |s| == SETTING_SIZE
    ensures WholeSettings(c + s) == WholeSettings(c) + [OnSetting(Decode(SettingKind, s))]
  {
    if c == [] {
      assert c + s == s && s[..SETTING_SIZE] == s && s[SETTING_SIZE..] == [];
    } else {
      assert (c + s)[..SETTING_SIZE] == c[..SETTING_SIZE] && (c + s)[SETTING_SIZE..] == c[SETTING_SIZE..] + s;
      WholeSettingsSnoc(c[SETTING_SIZE..], s);
    }
  }

  /** The reference after whole settings and part of one more, for a frame that is no acknowledgement. */
  lemma SettingsOpen(h: FrameHeader, c: seq<byte>, a: seq<byte>)
    requires h.frameType == SETTINGS && !IsAck(h)
    requires |c| % SETTING_SIZE == 0 && |a| < SETTING_SIZE && |c + a| <= h.payloadLength
    ensures OpenReading(h, c + a) ==
      if |c| < h.payloadLength < |c| + SETTING_SIZE && |c + a| == h.payloadLength
      then Reading([OnSettingsStart(h)] + WholeSettings(c) + [OnFrameSizeError(h)], true)
      else Reading([OnSettingsStart(h)] + WholeSettings(c), false)
    ensures PayloadLeft(h, c + a) == h.payloadLength - |c + a|
  {
    hide WholeSettings, Decode;
    var t := c + a;
    OpenIs(h, t);
    IntroIsStart(h);
    assert t[0..] == t && Intro(h, t) == [OnSettingsStart(h)];
    BodyInContent(h, h.payloadLength, 0, t);
    SettingsReadingIs(h, h.payloadLength, c, a);
    assert [OnSettingsStart(h)] + (WholeSettings(c) + [OnFrameSizeError(h)]) == [OnSettingsStart(h)] + WholeSettings(c) + [OnFrameSizeError(h)];
  }

  ghost function Whole(t: seq<byte>): seq<byte> { t[..|t| - |t| % SETTING_SIZE] }
  ghost function Partial(t: seq<byte>): seq<byte> { t[|t| - |t| % SETTING_SIZE..] }

  class SettingsPayloadDecoder {

    constructor () {}

    /** Part of a setting, possibly nothing, has been put aside. */
    ghost predicate At(state: FrameDecoderState, p: seq<byte>)
      requires state.Valid()
      reads state, state.structureDecoder, state.structureDecoder.buffer
    {
      !IsAck(state.frameHeader) && state.structureDecoder.Buffered() == Partial(p) && |p| < state.frameHeader.payloadLength
    }

    method StartDecodingPayload(state: FrameDecoderState, db: DecodeBuffer, ghost base: seq<Event>)
      returns (status: DecodeStatus)
      requires state.frameHeader.frameType == SETTINGS && ReadyToStart(state, db, base)
      modifies state`remainingPayload, state`remainingPadding, state.structureDecoder`offset, state.structureDecoder.buffer, state.listener`trace, db
      ensures state.Valid() && db.Valid() && old(db.cursor) <= db.cursor
      ensures Outcome(state, db, base, db.data[old(db.cursor)..db.cursor], status)
      ensures status.DecodeInProgress? ==> At(state, db.data[old(db.cursor)..db.cursor])
    {
      var h := state.frameHeader;
      if IsAck(h) {
        AckOpen(h);
        assert db.data[db.cursor..db.cursor] == [];
        if h.payloadLength == 0 {
          state.listener.Notify(OnSettingsAck(h));
          assert base + ([OnSettingsAck(h)] + []) == base + [OnSettingsAck(h)];
          return DecodeDone;
        } else {
          state.InitializeRemainders();
          status := state.ReportFrameSizeError();
          return;
        }
      }
      state.InitializeRemainders();
      state.listener.Notify(OnSettingsStart(h));
      status := StartDecodingSettings(state, db, base, []);
      assert [] + db.data[old(db.cursor)..db.cursor] == db.data[old(db.cursor)..db.cursor];
    }

    lemma AckOpen(h: FrameHeader)
      requires h.frameType == SETTINGS && IsAck(h)
      ensures OpenReading(h, []) == if h.payloadLength == 0 then Reading([OnSettingsAck(h)], false) else Reading([OnFrameSizeError(h)], true)
    {
    }

    method ResumeDecodingPayload(state: FrameDecoderState, db: DecodeBuffer, ghost base: seq<Event>, ghost p: seq<byte>)
      returns (status: DecodeStatus)
      requires state.frameHeader.frameType == SETTINGS && Ready(state, db, base, p) && At(state, p)
      modifies state`remainingPayload, state`remainingPadding, state.structureDecoder`offset, state.structureDecoder.buffer, state.listener`trace, db
      ensures state.Valid() && db.Valid() && old(db.cursor) <= db.cursor
      ensures Outcome(state, db, base, p + db.data[old(db.cursor)..db.cursor], status)
      ensures status.DecodeInProgress? ==> At(state, p + db.data[old(db.cursor)..db.cursor])
    {
      hide OpenReading, WholeSettings, Decode, PayloadLeft;
      ghost var h, c := state.frameHeader, Whole(p);
      assert p == c + Partial(p);
      SettingsOpen(h, c, Partial(p));
      BeforeIsOpen(h, p);
      var out;
      status, out := state.ResumeDecodingStructureInPayload(SettingKind, db);
      ghost var q := db.data[old(db.cursor)..db.cursor];
      ghost var s := Partial(p) + q;
      assert p + q == c + s;
      if status == DecodeDone {
        state.listener.Notify(OnSetting(out.value));
        WholeSettingsSnoc(c, s);
        assert base + ([OnSettingsStart(h)] + (WholeSettings(c) + [OnSetting(out.value)])) == base + ([OnSettingsStart(h)] + WholeSettings(c)) + [OnSetting(out.value)];
        ghost var d := db.cursor;
        status := StartDecodingSettings(state, db, base, p + q);
        Extend(db.data, p, old(db.cursor), d, db.cursor);
      } else {
        NotDone(state, db, base, c, s, status);
      }
    }

    lemma BeforeIsOpen(h: FrameHeader, p: seq<byte>)
      requires h.frameType == SETTINGS && !IsAck(h) && |p| < h.payloadLength
      ensures Before(h, p) == [OnSettingsStart(h)] + WholeSettings(Whole(p))
    {
      hide OpenReading, Decode;
      assert p == Whole(p) + Partial(p);
      SettingsOpen(h, Whole(p), Partial(p));
    }

    /** A setting that is still incomplete. */
    lemma NotDone(state: FrameDecoderState, db: DecodeBuffer, base: seq<Event>, c: seq<byte>, s: seq<byte>, status: DecodeStatus)
      requires state.Valid() && state.frameHeader.frameType == SETTINGS && !IsAck(state.frameHeader) && |c| % SETTING_SIZE == 0
      requires |s| < SETTING_SIZE && |c + s| + state.remainingPayload == state.frameHeader.payloadLength && state.remainingPadding == 0
      requires !status.DecodeDone? && (status.DecodeError? <==> state.remainingPayload == 0)
      requires status.DecodeError? ==> |c| < state.frameHeader.payloadLength
      requires status.DecodeInProgress? ==> !db.HasData() && state.structureDecoder.Buffered() == s
      requires state.listener.trace == base + ([OnSettingsStart(state.frameHeader)] + WholeSettings(c)) + if status.DecodeError? then [OnFrameSizeError(state.frameHeader)] else []
      ensures Outcome(state, db, base, c + s, status)
      ensures status.DecodeInProgress? ==> At(state, c + s)
    {
      hide OpenReading, WholeSettings, Decode, PayloadLeft;
      ghost var h := state.frameHeader;
      SettingsOpen(h, c, s);
      assert Partial(c + s) == s;
      assert base + ([OnSettingsStart(h)] + WholeSettings(c) + [OnFrameSizeError(h)]) == base + ([OnSettingsStart(h)] + WholeSettings(c)) + [OnFrameSizeError(h)];
    }

    method StartDecodingSettings(state: FrameDecoderState, db: DecodeBuffer, ghost base: seq<Event>, ghost p: seq<byte>)
      returns (status: DecodeStatus)
      requires state.frameHeader.frameType == SETTINGS && !IsAck(state.frameHeader) && state.Valid() && db.Valid()
      requires |p| % SETTING_SIZE == 0 && |p| + state.remainingPayload == state.frameHeader.payloadLength && state.remainingPadding == 0
      requires db.Remaining() <= state.remainingPayload
      requires state.listener.trace == base + ([OnSettingsStart(state.frameHeader)] + WholeSettings(p))
      modifies state`remainingPayload, state.structureDecoder`offset, state.structureDecoder.buffer, state.listener`trace, db
      ensures state.Valid() && db.Valid() && old(db.cursor) <= db.cursor
      ensures Outcome(state, db, base, p + db.data[old(db.cursor)..db.cursor], status)
      ensures status.DecodeInProgress? ==> At(state, p + db.data[old(db.cursor)..db.cursor])
    {
      hide OpenReading, WholeSettings, Decode, PayloadLeft;
      ghost var h, t := state.frameHeader, p;
      assert db.data[db.cursor..db.cursor] == [];
      while state.remainingPayload > 0
        invariant state.Valid() && db.Valid() && old(db.cursor) <= db.cursor
        invariant t == p + db.data[old(db.cursor)..db.cursor] && |t| % SETTING_SIZE == 0
        invariant |t| + state.remainingPayload == h.payloadLength && state.remainingPadding == 0
        invariant state.listener.trace == base + ([OnSettingsStart(h)] + WholeSettings(t))
      {
        ghost var c := db.cursor;
        var out;
        status, out := state.StartDecodingStructureInPayload(SettingKind, db);
        ghost var s := db.data[c..db.cursor];
        assert [] + s == s;
        Extend(db.data, p, old(db.cursor), c, db.cursor);
        if status == DecodeDone {
          state.listener.Notify(OnSetting(out.value));
          WholeSettingsSnoc(t, s);
          assert base + ([OnSettingsStart(h)] + (WholeSettings(t) + [OnSetting(out.value)])) == base + ([OnSettingsStart(h)] + WholeSettings(t)) + [OnSetting(out.value)];
          t := t + s;
          continue;
        }
        NotDone(state, db, base, t, s, status);
        return;
      }
      SettingsOpen(h, t, []);
      assert t + [] == t;
      state.listener.Notify(OnSettingsEnd);
      assert base + ([OnSettingsStart(h)] + WholeSettings(t) + [OnSettingsEnd]) == base + ([OnSettingsStart(h)] + WholeSettings(t)) + [OnSettingsEnd];
      return DecodeDone;
    }
  }
}

/** ALTSVC: the origin's length, the origin, and the value in what is left. */
module Http2AltSvcPayloadDecoder {
  import opened Wrappers
  import opened BigEndian
  import opened Http2Structures
  import opened Http2Reference
  import opened Http2DecodeBuffer
  import opened Http2StructureDecoding
  import opened Http2FrameDecoderState
  import opened Http2PayloadContract
  import opened Http2PayloadSteps
  import opened Moves = Http2PayloadMoves

  datatype PayloadState = StartDecodingStruct | MaybeDecodedStruct | DecodingStrings | ResumeDecodingStruct

  const FIELDS_SIZE: nat := 2

  ghost function OriginLength(t: seq<byte>): nat
    requires FIELDS_SIZE <= |t|
  {
    Decode(AltSvcKind, t[..FIELDS_SIZE]).originLength
  }

  /** Reported once the fields are known and sound: the start, some of the origin, some of the value. */
  ghost function Strings(h: FrameHeader, t: seq<byte>): seq<Event>
    requires FIELDS_SIZE <= |t| <= h.payloadLength && OriginLength(t) <= h.payloadLength - FIELDS_SIZE
  {
    var o, rest := OriginLength(t), t[FIELDS_SIZE..];
    var k := Min(o, |rest|);
    [OnAltSvcStart(h, o, h.payloadLength - FIELDS_SIZE - o)] + (Bytewise(AltSvcOrigin, rest[..k]) + Bytewise(AltSvcValue, rest[k..]))
  }

  lemma AltSvcOpen(h: FrameHeader, t: seq<byte>)
    requires h.frameType == ALTSVC && FIELDS_SIZE <= |t| <= h.payloadLength
    ensures OpenReading(h, t) ==
      if OriginLength(t) <= h.payloadLength - FIELDS_SIZE then Reading(Strings(h, t), false) else Reading([OnFrameSizeError(h)], true)
    ensures PayloadLeft(h, t) == h.payloadLength - |t|
  {
    hide Bytewise;
    OpenIs(h, t);
    IntroIsStart(h);
    assert t[0..] == t && Intro(h, t) == [];
    BodyInContent(h, h.payloadLength, 0, t);
  }

  lemma EmptyValue()
    ensures Bytewise(AltSvcValue, []) == []
  {
  }

  lemma OriginStep(h: FrameHeader, t: seq<byte>, d: seq<byte>)
    requires FIELDS_SIZE <= |t| && |t + d| <= h.payloadLength && OriginLength(t) <= h.payloadLength - FIELDS_SIZE
    requires |t + d| <= FIELDS_SIZE + OriginLength(t)
    ensures OriginLength(t + d) == OriginLength(t)
    ensures Strings(h, t + d) == Strings(h, t) + Bytewise(AltSvcOrigin, d)
  {
    hide Decode, Bytewise;
    var rest := t[FIELDS_SIZE..];
    assert (t + d)[..FIELDS_SIZE] == t[..FIELDS_SIZE] && (t + d)[FIELDS_SIZE..] == rest + d;
    assert (rest + d)[..|rest + d|] == rest + d && rest[..|rest|] == rest;
    BytewiseConcat(AltSvcOrigin, rest, d);
    assert (rest + d)[|rest + d|..] == [] && rest[|rest|..] == [];
    EmptyValue();
    var start, a, e := Strings(h, t)[..1], Bytewise(AltSvcOrigin, rest), Bytewise(AltSvcOrigin, d);
    assert Strings(h, t) == start + (a + []) && start + ((a + e) + []) == start + (a + []) + e;
  }

  lemma ValueStep(h: FrameHeader, t: seq<byte>, d: seq<byte>)
    requires FIELDS_SIZE <= |t| && |t + d| <= h.payloadLength && OriginLength(t) <= h.payloadLength - FIELDS_SIZE
    requires FIELDS_SIZE + OriginLength(t) <= |t|
    ensures OriginLength(t + d) == OriginLength(t)
    ensures Strings(h, t + d) == Strings(h, t) + Bytewise(AltSvcValue, d)
  {
    hide Decode, Bytewise;
    var o, rest := OriginLength(t), t[FIELDS_SIZE..];
    assert (t + d)[..FIELDS_SIZE] == t[..FIELDS_SIZE] && (t + d)[FIELDS_SIZE..] == rest + d;
    assert (rest + d)[..o] == rest[..o] && (rest + d)[o..] == rest[o..] + d;
    BytewiseConcat(AltSvcValue, rest[o..], d);
    var start, a, b, e := Strings(h, t)[..1], Bytewise(AltSvcOrigin, rest[..o]), Bytewise(AltSvcValue, rest[o..]), Bytewise(AltSvcValue, d);
    assert Strings(h, t) == start + (a + b) && start + (a + (b + e)) == start + (a + b) + e;
  }

  class AltSvcPayloadDecoder {
    var payloadState: PayloadState
    var originLength: nat

    constructor () {
      payloadState := StartDecodingStruct;
      originLength := 0;
    }

    /** The fields are known and sound. */
    ghost predicate InStrings(h: FrameHeader, p: seq<byte>)
      reads this
    {
      && h.frameType == ALTSVC && FIELDS_SIZE <= |p| <= h.payloadLength
      && originLength == OriginLength(p) <= h.payloadLength - FIELDS_SIZE
    }

    ghost predicate At(state: FrameDecoderState, p: seq<byte>)
      requires state.Valid() && |p| <= state.frameHeader.payloadLength
      reads this, state, state.structureDecoder, state.structureDecoder.buffer
    {
      match payloadState
      case DecodingStrings => InStrings(state.frameHeader, p)
      case ResumeDecodingStruct => InLeading(state, p)
      case _ => false
    }

    method StartDecodingPayload(state: FrameDecoderState, db: DecodeBuffer, ghost base: seq<Event>)
      returns (status: DecodeStatus)
      requires state.frameHeader.frameType == ALTSVC && ReadyToStart(state, db, base)
      modifies this, state`remainingPayload, state`remainingPadding, state.structureDecoder`offset, state.structureDecoder.buffer, state.listener`trace, db
      ensures state.Valid() && db.Valid() && old(db.cursor) <= db.cursor
      ensures Outcome(state, db, base, db.data[old(db.cursor)..db.cursor], status)
      ensures status.DecodeInProgress? ==> At(state, db.data[old(db.cursor)..db.cursor])
    {
      state.InitializeRemainders();
      payloadState := StartDecodingStruct;
      assert base + [] == base;
      status := ResumeDecodingPayload(state, db, base, []);
      assert [] + db.data[old(db.cursor)..db.cursor] == db.data[old(db.cursor)..db.cursor];
    }

    /** The source's loop runs a second time only to handle the status of a resumed structure. */
    method ResumeDecodingPayload(state: FrameDecoderState, db: DecodeBuffer, ghost base: seq<Event>, ghost p: seq<byte>)
      returns (status: DecodeStatus)
      requires state.frameHeader.frameType == ALTSVC && Ready(state, db, base, p)
      requires At(state, p) || (payloadState == StartDecodingStruct && p == [])
      modifies this, state`remainingPayload, state`remainingPadding, state.structureDecoder`offset, state.structureDecoder.buffer, state.listener`trace, db
      ensures state.Valid() && db.Valid() && old(db.cursor) <= db.cursor
      ensures Outcome(state, db, base, p + db.data[old(db.cursor)..db.cursor], status)
      ensures status.DecodeInProgress? ==> At(state, p + db.data[old(db.cursor)..db.cursor])
    {
      EnterResume(state, db, base, p);
      hide OpenReading, PayloadLeft, Decode, Reported, Outcome, BeforeLeading, InTail, PayloadReading, Strings, InLeading, Before, ContentLength, PadLength, Intro, PadKnown, LeadingSize, HasFlag, TailPart, EncodedSize, StartEvents;
      ghost var c := db.cursor;
      if payloadState == DecodingStrings {
        status := DecodeStrings(state, db, base, p);
        return;
      }
      var out;
      if payloadState == StartDecodingStruct {
        status, out := StartLeading(state, db, base, p);
      } else {
        status, out := ResumeLeading(state, db, base, p);
        payloadState := MaybeDecodedStruct;
      }
      ghost var d := db.cursor;
      status := HandleStruct(state, db, status, out, base, p + db.data[c..d]);
      Extend(db.data, p, c, d, db.cursor);
    }

    /** Everything up to and including t has been reported. */
    ghost predicate StringsReported(state: FrameDecoderState, db: DecodeBuffer, base: seq<Event>, t: seq<byte>)
      reads this, state, state.structureDecoder, state.listener, db
    {
      && state.Valid() && db.Valid() && InStrings(state.frameHeader, t)
      && |t| + state.remainingPayload == state.frameHeader.payloadLength && state.remainingPadding == 0
      && db.Remaining() <= state.remainingPayload
      && state.listener.trace == base + Strings(state.frameHeader, t)
    }

    /** The state kMaybeDecodedStruct. */
    method HandleStruct(state: FrameDecoderState, db: DecodeBuffer, status0: DecodeStatus, out: Option<Structure>,
                        ghost base: seq<Event>, ghost p: seq<byte>)
      returns (status: DecodeStatus)
      requires state.frameHeader.frameType == ALTSVC && LeadingOutcome(state, db, base, p, status0, out)
      modifies this, state`remainingPayload, state.listener`trace, db
      ensures state.Valid() && db.Valid() && old(db.cursor) <= db.cursor
      ensures Outcome(state, db, base, p + db.data[old(db.cursor)..db.cursor], status)
      ensures status.DecodeInProgress? ==> At(state, p + db.data[old(db.cursor)..db.cursor])
    {
      hide OpenReading, Decode, Strings, PayloadLeft, Intro;
      assert p + db.data[db.cursor..db.cursor] == p;
      if status0 != DecodeDone {
        payloadState := ResumeDecodingStruct;
        return status0;
      }
      var h, x := state.frameHeader, out.value;
      originLength := x.originLength;
      StructDone(state, db, base, p, x);
      assert p + db.data[db.cursor..db.cursor] == p;
      if originLength <= state.remainingPayload {
        var valueLength := state.remainingPayload - originLength;
        state.listener.Notify(OnAltSvcStart(h, originLength, valueLength));
        status := DecodeStrings(state, db, base, p);
        return;
      }
      status := state.ReportFrameSizeError();
    }

    lemma StructDone(state: FrameDecoderState, db: DecodeBuffer, base: seq<Event>, p: seq<byte>, x: Structure)
      requires state.frameHeader.frameType == ALTSVC && LeadingOutcome(state, db, base, p, DecodeDone, Some(x))
      ensures var h := state.frameHeader;
        && |p| == FIELDS_SIZE <= h.payloadLength && x.originLength == OriginLength(p)
        && |p| + state.remainingPayload == h.payloadLength && state.remainingPadding == 0
        && PayloadLeft(h, p) == state.remainingPayload
        && state.listener.trace == base
        && OpenReading(h, p) ==
             (if x.originLength <= state.remainingPayload then Reading(Strings(h, p), false) else Reading([OnFrameSizeError(h)], true))
        && (x.originLength <= state.remainingPayload ==> Strings(h, p) == [OnAltSvcStart(h, x.originLength, state.remainingPayload - x.originLength)])
    {
      hide OpenReading, Decode;
      var h := state.frameHeader;
      assert p[0..] == p && p[..FIELDS_SIZE] == p && Intro(h, p) == [];
      assert base + [] == base;
      AltSvcOpen(h, p);
    }

    method DecodeStrings(state: FrameDecoderState, db: DecodeBuffer, ghost base: seq<Event>, ghost p: seq<byte>)
      returns (status: DecodeStatus)
      requires StringsReported(state, db, base, p)
      modifies this, state`remainingPayload, state.listener`trace, db
      ensures state.Valid() && db.Valid() && old(db.cursor) <= db.cursor
      ensures Outcome(state, db, base, p + db.data[old(db.cursor)..db.cursor], status)
      ensures status.DecodeInProgress? ==> payloadState == DecodingStrings && InStrings(state.frameHeader, p + db.data[old(db.cursor)..db.cursor])
    {
      hide OpenReading, Decode, Strings, PayloadLeft, Min;
      var h := state.frameHeader;
      var valueLength := h.payloadLength - originLength - FIELDS_SIZE;
      ghost var c := db.cursor;
      assert p + db.data[c..c] == p;
      if state.remainingPayload > valueLength {
        var unfinished := ReadOrigin(state, db, state.remainingPayload - valueLength, base, p);
        if unfinished {
          payloadState := DecodingStrings;
          AltSvcOpen(h, p + db.data[c..db.cursor]);
          return DecodeInProgress;
        }
      }
      ghost var d := db.cursor;
      if db.HasData() {
        ReadValue(state, db, base, p + db.data[c..d]);
        Extend(db.data, p, c, d, db.cursor);
      }
      ghost var t := p + db.data[c..db.cursor];
      AltSvcOpen(h, t);
      if state.remainingPayload == 0 {
        state.listener.Notify(OnAltSvcEnd);
        assert base + (Strings(h, t) + [OnAltSvcEnd]) == base + Strings(h, t) + [OnAltSvcEnd];
        return DecodeDone;
      }
      payloadState := DecodingStrings;
      return DecodeInProgress;
    }

    method ReadOrigin(state: FrameDecoderState, db: DecodeBuffer, remainingOriginLength: nat, ghost base: seq<Event>, ghost t: seq<byte>)
      returns (unfinished: bool)
      requires StringsReported(state, db, base, t)
      requires |t| + remainingOriginLength == FIELDS_SIZE + originLength
      modifies state`remainingPayload, state.listener`trace, db
      ensures old(db.cursor) <= db.cursor && db.Valid()
      ensures StringsReported(state, db, base, t + db.data[old(db.cursor)..db.cursor])
      ensures unfinished ==> !db.HasData() && state.remainingPayload > 0
      ensures !unfinished ==> |t| + (db.cursor - old(db.cursor)) == FIELDS_SIZE + originLength
    {
      hide Decode, Strings, Bytewise, OriginLength;
      var avail := db.MinLengthRemaining(remainingOriginLength);
      ghost var h, d := state.frameHeader, db.Next(avail);
      OriginStep(h, t, d);
      state.listener.NotifyFragment(AltSvcOrigin, db.Next(avail));
      db.AdvanceCursor(avail);
      state.ConsumePayload(avail);
      assert base + (Strings(h, t) + Bytewise(AltSvcOrigin, d)) == base + Strings(h, t) + Bytewise(AltSvcOrigin, d);
      unfinished := remainingOriginLength > avail;
    }

    method ReadValue(state: FrameDecoderState, db: DecodeBuffer, ghost base: seq<Event>, ghost t: seq<byte>)
      requires StringsReported(state, db, base, t)
      requires FIELDS_SIZE + originLength <= |t|
      modifies state`remainingPayload, state.listener`trace, db
      ensures old(db.cursor) <= db.cursor && db.Valid() && !db.HasData()
      ensures StringsReported(state, db, base, t + db.data[old(db.cursor)..db.cursor])
    {
      hide Decode, Strings, Bytewise, OriginLength;
      var avail := db.Remaining();
      ghost var h, d := state.frameHeader, db.Next(avail);
      ValueStep(h, t, d);
      state.listener.NotifyFragment(AltSvcValue, db.Next(avail));
      db.AdvanceCursor(avail);
      state.ConsumePayload(avail);
      assert base + (Strings(h, t) + Bytewise(AltSvcValue, d)) == base + Strings(h, t) + Bytewise(AltSvcValue, d);
    }

    lemma EnterResume(state: FrameDecoderState, db: DecodeBuffer, base: seq<Event>, p: seq<byte>)
      requires state.frameHeader.frameType == ALTSVC && Ready(state, db, base, p)
      requires At(state, p) || (payloadState == StartDecodingStruct && p == [])
      ensures var h := state.frameHeader;
        && (payloadState == DecodingStrings ==>
              InStrings(h, p) && state.listener.trace == base + Strings(h, p)
              && |p| + state.remainingPayload == h.payloadLength && state.remainingPadding == 0)
        && (payloadState == StartDecodingStruct ==> |p| == PadByte(h) && BeforeLeading(state, db, base, p))
        && (payloadState == ResumeDecodingStruct ==> InLeading(state, p) && BeforeLeading(state, db, base, p))
        && payloadState != MaybeDecodedStruct
    {
      hide OpenReading, Bytewise, PayloadLeft;
      var h := state.frameHeader;
      if payloadState == DecodingStrings {
        AltSvcOpen(h, p);
      } else if payloadState == StartDecodingStruct {
        IntroIsStart(h);
      } else {
        InLeadingBefore(h, p);
      }
    }
  }
}
