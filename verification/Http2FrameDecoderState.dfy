/** The resumable decoding of one structure. */
module Http2StructureDecoding {
  import opened Wrappers
  import opened BigEndian
  import opened Http2Structures
  import opened Http2DecodeBuffer

  datatype DecodeStatus = DecodeDone | DecodeInProgress | DecodeError

  const BUFFER_SIZE: nat := 9

  /** What one call to Start or Resume achieves for a structure of which the bytes `before`
      had been buffered: it takes the bytes `taken`, out of a payload that then has `left`
      bytes to go, and leaves `buffered` in its buffer. */
  ghost predicate Stepped(kind: Kind, before: seq<byte>, taken: seq<byte>, left: nat,
                          status: DecodeStatus, out: Option<Structure>, buffered: seq<byte>, inputUsedUp: bool)
  {
    var all := before + taken;
    && |all| <= EncodedSize(kind)
    && match status
       case DecodeDone => |all| == EncodedSize(kind) && out == Some(Decode(kind, all))
       case DecodeInProgress => |all| < EncodedSize(kind) && left > 0 && inputUsedUp && buffered == all && out == None
       case DecodeError => |all| < EncodedSize(kind) && left == 0 && out == None
  }

  class Http2StructureDecoder {
    var offset: nat
    const buffer: array<byte>

    ghost predicate Valid()
      reads this
    {
      buffer.Length == BUFFER_SIZE && offset <= BUFFER_SIZE
    }

    constructor ()
      ensures Valid() && fresh(buffer)
    {
      offset := 0;
      buffer := new byte[BUFFER_SIZE];
    }

    /** The bytes of the current structure that have been put aside. */
    ghost function Buffered(): seq<byte>
      requires Valid()
      reads this, buffer
    {
      buffer[..offset]
    }

    method IncompleteStart(db: DecodeBuffer, targetSize: nat) returns (numToCopy: nat)
      requires Valid() && db.Valid() && targetSize <= BUFFER_SIZE
      modifies this`offset, buffer, db
      ensures Valid() && db.Valid()
      ensures numToCopy == old(db.MinLengthRemaining(targetSize))
      ensures db.cursor == old(db.cursor) + numToCopy
      ensures Buffered() == old(db.Next(numToCopy))
    {
      numToCopy := db.MinLengthRemaining(targetSize);
      forall i | 0 <= i < numToCopy {
        buffer[i] := db.data[db.cursor + i];
      }
      offset := numToCopy;
      db.AdvanceCursor(numToCopy);
    }

    method IncompleteStartInPayload(db: DecodeBuffer, remainingPayload: nat, targetSize: nat)
      returns (status: DecodeStatus, left: nat)
      requires Valid() && db.Valid() && targetSize <= BUFFER_SIZE
      requires db.MinLengthRemaining(remainingPayload) < targetSize
      modifies this`offset, buffer, db
      ensures Valid() && db.Valid()
      ensures old(db.cursor) <= db.cursor && left == remainingPayload - (db.cursor - old(db.cursor))
      ensures Buffered() == db.data[old(db.cursor)..db.cursor]
      ensures |Buffered()| < targetSize
      ensures status == if left > 0 then DecodeInProgress else DecodeError
      ensures left > 0 ==> !db.HasData()
    {
      var target := if targetSize < remainingPayload then targetSize else remainingPayload;
      var copied := IncompleteStart(db, target);
      left := remainingPayload - copied;
      if left > 0 && !db.HasData() {
        return DecodeInProgress, left;
      }
      return DecodeError, left;
    }

    method ResumeFillingBuffer(db: DecodeBuffer, targetSize: nat) returns (full: bool)
      requires Valid() && db.Valid() && offset < targetSize <= BUFFER_SIZE
      modifies this`offset, buffer, db
      ensures Valid() && db.Valid()
      ensures db.cursor == old(db.cursor + db.MinLengthRemaining(targetSize - offset))
      ensures Buffered() == old(Buffered()) + db.data[old(db.cursor)..db.cursor]
      ensures full <==> offset == targetSize
    {
      var needed := targetSize - offset;
      var numToCopy := db.MinLengthRemaining(needed);
      ghost var before, taken := Buffered(), db.Next(numToCopy);
      forall i | 0 <= i < numToCopy {
        buffer[offset + i] := db.data[db.cursor + i];
      }
      assert buffer[..offset] == before && buffer[offset..offset + numToCopy] == taken;
      db.AdvanceCursor(numToCopy);
      offset := offset + numToCopy;
      assert Buffered() == before + taken;
      full := needed == numToCopy;
    }

    method ResumeFillingBufferInPayload(db: DecodeBuffer, remainingPayload: nat, targetSize: nat)
      returns (full: bool, left: nat)
      requires Valid() && db.Valid() && offset < targetSize <= BUFFER_SIZE
      modifies this`offset, buffer, db
      ensures Valid() && db.Valid()
      ensures db.cursor == old(db.cursor + db.MinLengthRemaining(if targetSize - offset < remainingPayload then targetSize - offset else remainingPayload))
      ensures left == remainingPayload - (db.cursor - old(db.cursor))
      ensures Buffered() == old(Buffered()) + db.data[old(db.cursor)..db.cursor]
      ensures full <==> offset == targetSize
    {
      var needed := targetSize - offset;
      var numToCopy := db.MinLengthRemaining(if needed < remainingPayload then needed else remainingPayload);
      ghost var before, taken := Buffered(), db.Next(numToCopy);
      forall i | 0 <= i < numToCopy {
        buffer[offset + i] := db.data[db.cursor + i];
      }
      assert buffer[..offset] == before && buffer[offset..offset + numToCopy] == taken;
      db.AdvanceCursor(numToCopy);
      offset := offset + numToCopy;
      assert Buffered() == before + taken;
      left := remainingPayload - numToCopy;
      full := needed == numToCopy;
    }

    /** The buffered bytes, once they are a whole structure. */
    method DecodeFromBuffer(kind: Kind) returns (x: Structure)
      requires Valid() && offset == EncodedSize(kind)
      ensures x == Decode(kind, Buffered())
    {
      var bufferDb := new DecodeBuffer(buffer[..EncodedSize(kind)]);
      assert bufferDb.Next(EncodedSize(kind)) == Buffered();
      x := bufferDb.DoDecode(kind);
    }

    /** Decodes straight from the input when all of the structure is there. */
    method Start(kind: Kind, db: DecodeBuffer) returns (out: Option<Structure>)
      requires Valid() && db.Valid()
      modifies this`offset, buffer, db
      ensures Valid() && db.Valid() && old(db.cursor) <= db.cursor
      ensures Stepped(kind, [], db.data[old(db.cursor)..db.cursor], 1,
                      if out.Some? then DecodeDone else DecodeInProgress, out, Buffered(), !db.HasData())
    {
      if db.Remaining() >= EncodedSize(kind) {
        var x := db.DoDecode(kind);
        assert [] + db.data[old(db.cursor)..db.cursor] == old(db.Next(EncodedSize(kind)));
        return Some(x);
      }
      var _ := IncompleteStart(db, EncodedSize(kind));
      return None;
    }

    method Resume(kind: Kind, db: DecodeBuffer) returns (out: Option<Structure>)
      requires Valid() && db.Valid() && offset < EncodedSize(kind)
      modifies this`offset, buffer, db
      ensures Valid() && db.Valid() && old(db.cursor) <= db.cursor
      ensures Stepped(kind, old(Buffered()), db.data[old(db.cursor)..db.cursor], 1,
                      if out.Some? then DecodeDone else DecodeInProgress, out, Buffered(), !db.HasData())
    {
      var full := ResumeFillingBuffer(db, EncodedSize(kind));
      if full {
        var x := DecodeFromBuffer(kind);
        return Some(x);
      }
      return None;
    }

    /** As Start, where the structure is also bounded by the payload it is in. */
    method StartInPayload(kind: Kind, db: DecodeBuffer, remainingPayload: nat)
      returns (status: DecodeStatus, out: Option<Structure>, left: nat)
      requires Valid() && db.Valid()
      modifies this`offset, buffer, db
      ensures Valid() && db.Valid() && old(db.cursor) <= db.cursor
      ensures left == remainingPayload - (db.cursor - old(db.cursor))
      ensures Stepped(kind, [], db.data[old(db.cursor)..db.cursor], left, status, out, Buffered(), !db.HasData())
    {
      if db.MinLengthRemaining(remainingPayload) >= EncodedSize(kind) {
        var x := db.DoDecode(kind);
        assert [] + db.data[old(db.cursor)..db.cursor] == old(db.Next(EncodedSize(kind)));
        return DecodeDone, Some(x), remainingPayload - EncodedSize(kind);
      }
      status, left := IncompleteStartInPayload(db, remainingPayload, EncodedSize(kind));
      out := None;
    }

    method ResumeInPayload(kind: Kind, db: DecodeBuffer, remainingPayload: nat)
      returns (out: Option<Structure>, left: nat)
      requires Valid() && db.Valid() && offset < EncodedSize(kind)
      modifies this`offset, buffer, db
      ensures Valid() && db.Valid() && old(db.cursor) <= db.cursor
      ensures left == remainingPayload - (db.cursor - old(db.cursor))
      ensures Stepped(kind, old(Buffered()), db.data[old(db.cursor)..db.cursor], left,
                      if out.Some? then DecodeDone else if left > 0 then DecodeInProgress else DecodeError,
                      out, Buffered(), !db.HasData())
    {
      var full;
      full, left := ResumeFillingBufferInPayload(db, remainingPayload, EncodedSize(kind));
      if full {
        var x := DecodeFromBuffer(kind);
        return Some(x), left;
      }
      return None, left;
    }
  }
}

/** The accounts of the frame being decoded, and the helpers every payload decoder uses. */
module Http2FrameDecoderState {
  import opened Wrappers
  import opened BigEndian
  import opened Http2Structures
  import opened Http2Reference
  import opened Http2DecodeBuffer
  import opened Http2StructureDecoding

  /** A listener that records what it is told. */
  class Listener {
    const policy: Policy
    var trace: seq<Event>

    constructor (policy: Policy)
      ensures this.policy == policy && trace == []
    {
      this.policy := policy;
      trace := [];
    }

    method Notify(e: Event)
      modifies this`trace
      ensures trace == old(trace) + [e]
    {
      trace := trace + [e];
    }

    method NotifyFragment(part: Part, fragment: seq<byte>)
      modifies this`trace
      ensures trace == old(trace) + Bytewise(part, fragment)
    {
      trace := trace + Bytewise(part, fragment);
    }

    method NotifyFrameHeader(h: FrameHeader) returns (accepted: bool)
      modifies this`trace
      ensures trace == old(trace) + [OnFrameHeader(h)]
      ensures accepted == policy.accept(old(trace), h)
    {
      accepted := policy.accept(trace, h);
      Notify(OnFrameHeader(h));
    }
  }

  class FrameDecoderState {
    const listener: Listener
    const structureDecoder: Http2StructureDecoder
    var frameHeader: FrameHeader
    var remainingPayload: nat
    var remainingPadding: nat

    ghost predicate Valid()
      reads this, structureDecoder
    {
      structureDecoder.Valid()
    }

    constructor (listener: Listener)
      ensures Valid() && this.listener == listener && fresh(structureDecoder) && fresh(structureDecoder.buffer)
    {
      this.listener := listener;
      structureDecoder := new Http2StructureDecoder();
      frameHeader := FrameHeader(0, 0, 0, 0);
      remainingPayload := 0;
      remainingPadding := 0;
    }

    /** The part of the payload not yet decoded, padding included. */
    function RemainingTotalPayload(): nat
      reads this
    {
      remainingPayload + remainingPadding
    }

    function AvailablePayload(db: DecodeBuffer): nat
      requires db.Valid()
      reads this, db
    {
      db.MinLengthRemaining(remainingPayload)
    }

    function AvailablePadding(db: DecodeBuffer): nat
      requires db.Valid() && remainingPayload == 0
      reads this, db
    {
      db.MinLengthRemaining(remainingPadding)
    }

    /** Clears the flags that are not among validFlags. */
    method RetainFlags(validFlags: byte)
      modifies this`frameHeader
      ensures frameHeader == Http2Structures.RetainFlags(old(frameHeader), validFlags)
    {
      frameHeader := Http2Structures.RetainFlags(frameHeader, validFlags);
    }

    method ClearFlags()
      modifies this`frameHeader
      ensures frameHeader == old(frameHeader).(flags := 0)
    {
      frameHeader := frameHeader.(flags := 0);
    }

    method InitializeRemainders()
      modifies this`remainingPayload, this`remainingPadding
      ensures remainingPayload == frameHeader.payloadLength && remainingPadding == 0
    {
      remainingPayload := frameHeader.payloadLength;
      remainingPadding := 0;
    }

    method ConsumePayload(amount: nat)
      requires amount <= remainingPayload
      modifies this`remainingPayload
      ensures remainingPayload == old(remainingPayload) - amount
    {
      remainingPayload := remainingPayload - amount;
    }

    method ReportFrameSizeError() returns (status: DecodeStatus)
      modifies listener`trace
      ensures status == DecodeError && listener.trace == old(listener.trace) + [OnFrameSizeError(frameHeader)]
    {
      listener.Notify(OnFrameSizeError(frameHeader));
      status := DecodeError;
    }

    method StartDecodingStructureInPayload(kind: Kind, db: DecodeBuffer)
      returns (status: DecodeStatus, out: Option<Structure>)
      requires Valid() && db.Valid()
      modifies this`remainingPayload, structureDecoder`offset, structureDecoder.buffer, listener`trace, db
      ensures Valid() && db.Valid() && old(db.cursor) <= db.cursor
      ensures remainingPayload == old(remainingPayload) - (db.cursor - old(db.cursor))
      ensures Stepped(kind, [], db.data[old(db.cursor)..db.cursor], remainingPayload, status, out, structureDecoder.Buffered(), !db.HasData())
      ensures listener.trace == old(listener.trace) + if status.DecodeError? then [OnFrameSizeError(frameHeader)] else []
    {
      status, out, remainingPayload := structureDecoder.StartInPayload(kind, db, remainingPayload);
      if status != DecodeError {
        return;
      }
      status := ReportFrameSizeError();
    }

    method ResumeDecodingStructureInPayload(kind: Kind, db: DecodeBuffer)
      returns (status: DecodeStatus, out: Option<Structure>)
      requires Valid() && db.Valid() && structureDecoder.offset < EncodedSize(kind)
      modifies this`remainingPayload, structureDecoder`offset, structureDecoder.buffer, listener`trace, db
      ensures Valid() && db.Valid() && old(db.cursor) <= db.cursor
      ensures remainingPayload == old(remainingPayload) - (db.cursor - old(db.cursor))
      ensures Stepped(kind, old(structureDecoder.Buffered()), db.data[old(db.cursor)..db.cursor], remainingPayload, status, out, structureDecoder.Buffered(), !db.HasData())
      ensures listener.trace == old(listener.trace) + if status.DecodeError? then [OnFrameSizeError(frameHeader)] else []
    {
      out, remainingPayload := structureDecoder.ResumeInPayload(kind, db, remainingPayload);
      if out.Some? {
        status := DecodeDone;
      } else if remainingPayload > 0 {
        status := DecodeInProgress;
      } else {
        status := ReportFrameSizeError();
      }
    }

    /** Passes on as much of the unpadded payload as is there. */
    method ReadPayload(part: Part, db: DecodeBuffer)
      requires Valid() && db.Valid()
      modifies this`remainingPayload, listener`trace, db
      ensures db.Valid() && db.cursor == old(db.cursor + AvailablePayload(db))
      ensures remainingPayload == old(remainingPayload) - (db.cursor - old(db.cursor))
      ensures listener.trace == old(listener.trace) + Bytewise(part, db.data[old(db.cursor)..db.cursor])
    {
      var avail := AvailablePayload(db);
      if avail > 0 {
        listener.NotifyFragment(part, db.Next(avail));
        db.AdvanceCursor(avail);
        ConsumePayload(avail);
      }
    }

    method ReadPadLength(db: DecodeBuffer, reportPadLength: bool) returns (status: DecodeStatus)
      requires Valid() && db.Valid() && db.Remaining() <= frameHeader.payloadLength
      requires remainingPayload == frameHeader.payloadLength && remainingPadding == 0
      modifies this`remainingPayload, this`remainingPadding, listener`trace, db
      ensures db.Valid()
      ensures old(db.HasData()) ==>
        var total, pad := frameHeader.payloadLength, db.data[old(db.cursor)] as nat;
        && db.cursor == old(db.cursor) + 1
        && remainingPayload + remainingPadding == total - 1
        && remainingPadding == (if pad < total then pad else 0)
        && status == (if pad < total then DecodeDone else DecodeError)
        && listener.trace == old(listener.trace) +
             if pad >= total then [OnPaddingTooLong(frameHeader, pad + 1 - total)]
             else if reportPadLength then [OnPadLength(pad)] else []
      ensures !old(db.HasData()) ==>
        && db.cursor == old(db.cursor)
        && remainingPayload == frameHeader.payloadLength && remainingPadding == 0
        && status == (if frameHeader.payloadLength == 0 then DecodeError else DecodeInProgress)
        && listener.trace == old(listener.trace) + if frameHeader.payloadLength == 0 then [OnPaddingTooLong(frameHeader, 1)] else []
    {
      var totalPayload := frameHeader.payloadLength;
      if db.HasData() {
        var padLength := db.DecodeUInt8();
        var totalPadding := padLength as nat + 1;
        if totalPadding <= totalPayload {
          remainingPadding := padLength;
          remainingPayload := totalPayload - totalPadding;
          if reportPadLength {
            listener.Notify(OnPadLength(padLength));
          }
          return DecodeDone;
        }
        var missingLength := totalPadding - totalPayload;
        remainingPayload := totalPayload - 1;
        remainingPadding := 0;
        listener.Notify(OnPaddingTooLong(frameHeader, missingLength));
        return DecodeError;
      }
      if totalPayload == 0 {
        remainingPayload := 0;
        remainingPadding := 0;
        listener.Notify(OnPaddingTooLong(frameHeader, 1));
        return DecodeError;
      }
      return DecodeInProgress;
    }

    method SkipPadding(db: DecodeBuffer) returns (done: bool)
      requires Valid() && db.Valid() && remainingPayload == 0
      modifies this`remainingPadding, listener`trace, db
      ensures db.Valid() && db.cursor == old(db.cursor + AvailablePadding(db))
      ensures remainingPadding == old(remainingPadding) - (db.cursor - old(db.cursor))
      ensures listener.trace == old(listener.trace) + Bytewise(Padding, db.data[old(db.cursor)..db.cursor])
      ensures done <==> remainingPadding == 0
    {
      var avail := AvailablePadding(db);
      if avail > 0 {
        listener.NotifyFragment(Padding, db.Next(avail));
        db.AdvanceCursor(avail);
        remainingPadding := remainingPadding - avail;
      }
      done := remainingPadding == 0;
    }
  }
}
