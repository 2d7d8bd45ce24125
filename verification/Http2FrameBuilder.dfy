/** The printer side: frames put together byte by byte. */
module Http2FrameBuilding {
  import opened BigEndian
  import opened Http2Structures
  import opened Http2Reference
  import opened Http2Runs

  class Http2FrameBuilder {
    var buffer: seq<byte>

    /** A header whose payload length is not known yet. */
    constructor ForPayload(frameType: byte, flags: byte, streamId: nat)
      requires streamId < 0x8000_0000
      ensures buffer == Encode(Header(FrameHeader(0, frameType, flags, streamId)))
    {
      buffer := [];
      new;
      AppendUInt24(0);
      AppendUInt8(frameType);
      AppendUInt8(flags);
      AppendUInt31(streamId);
    }

    constructor ForHeader(h: FrameHeader)
      requires Encodable(Header(h))
      ensures buffer == Encode(Header(h))
    {
      buffer := [];
      new;
      AppendStructure(Header(h));
    }

    method Append(s: seq<byte>)
      modifies this
      ensures buffer == old(buffer) + s
    {
      buffer := buffer + s;
    }

    method AppendZeroes(n: nat)
      modifies this
      ensures buffer == old(buffer) + seq(n, _ => 0)
    {
      buffer := buffer + seq(n, _ => 0);
    }

    method AppendUInt8(value: byte)
      modifies this
      ensures buffer == old(buffer) + [value]
    {
      Append([value]);
    }

    method AppendUInt16(value: nat)
      modifies this
      ensures buffer == old(buffer) + Bytes(value, 2)
    {
      Append(Bytes(value, 2));
    }

    /** The three low-order bytes; a larger value is not something an encoder could write. */
    method AppendUInt24(value: nat)
      requires value < 0x100_0000
      modifies this
      ensures buffer == old(buffer) + Bytes(value, 3)
    {
      Append(Bytes(value, 4)[1..]);
      LowBytes(value, 4, 3);
    }

    method AppendUInt31(value: nat)
      requires value < 0x8000_0000
      modifies this
      ensures buffer == old(buffer) + Bytes(value, 4)
    {
      Append(Bytes(value % 0x8000_0000, 4));
    }

    method AppendUInt32(value: nat)
      modifies this
      ensures buffer == old(buffer) + Bytes(value, 4)
    {
      Append(Bytes(value, 4));
    }

    method AppendStructure(x: Structure)
      requires Encodable(x)
      modifies this
      ensures buffer == old(buffer) + Encode(x)
    {
      hide Bytes;
      match x
      case Header(h) =>
        AppendUInt24(h.payloadLength);
        AppendUInt8(h.frameType);
        AppendUInt8(h.flags);
        AppendUInt31(h.streamId);
      case Priority(streamDependency, weight, isExclusive) =>
        var tmp := streamDependency;
        if isExclusive {
          tmp := tmp + 0x8000_0000;
        }
        AppendUInt32(tmp);
        AppendUInt8(weight - 1);
      case RstStream(errorCode) => AppendUInt32(errorCode);
      case Setting(parameter, value) =>
        AppendUInt16(parameter);
        AppendUInt32(value);
      case PushPromise(id) => AppendUInt31(id);
      case Ping(opaqueBytes) => Append(opaqueBytes);
      case GoAway(id, errorCode) =>
        AppendUInt31(id);
        AppendUInt32(errorCode);
      case WindowUpdate(increment) => AppendUInt31(increment);
      case AltSvc(originLength) => AppendUInt16(originLength);
    }

    /** Overwrites, and extends the buffer if need be. */
    method WriteAt(s: seq<byte>, offset: nat)
      requires offset <= |buffer|
      modifies this
      ensures buffer == old(buffer)[..offset] + s + (if offset + |s| <= old(|buffer|) then old(buffer)[offset + |s|..] else [])
    {
      var len := offset + |s|;
      if len > |buffer| {
        buffer := buffer + seq(len - |buffer|, _ => 0);
      }
      ghost var start := buffer;
      for ndx := 0 to |s|
        invariant |buffer| == |start| && len <= |buffer|
        invariant buffer == start[..offset] + s[..ndx] + start[offset + ndx..]
      {
        buffer := buffer[offset + ndx := s[ndx]];
        assert s[..ndx + 1] == s[..ndx] + [s[ndx]];
        assert start[offset + ndx..] == [start[offset + ndx]] + start[offset + ndx + 1..];
      }
    }

    /** Puts the length of everything after the header into the header. */
    method SetPayloadLength() returns (payloadLength: nat)
      requires HEADER_SIZE <= |buffer| && |buffer| - HEADER_SIZE < 0x100_0000
      modifies this
      ensures payloadLength == old(|buffer|) - HEADER_SIZE
      ensures buffer == Bytes(payloadLength, 3) + old(buffer)[3..]
    {
      payloadLength := |buffer| - HEADER_SIZE;
      WriteAt(Bytes(payloadLength, 3), 0);
    }
  }

  /** A frame as it is built: the header with a length of zero, the payload, then the length.
      What results is the wire form of the finished frame. */
  method BuildFrame(frameType: byte, flags: byte, streamId: nat, payload: seq<byte>) returns (wire: seq<byte>)
    requires streamId < 0x8000_0000 && |payload| < 0x100_0000
    ensures wire == Wire([Frame(FrameHeader(|payload|, frameType, flags, streamId), payload)])
  {
    hide Encode, Bytes, Wire;
    var builder := new Http2FrameBuilder.ForPayload(frameType, flags, streamId);
    ghost var start := builder.buffer;
    builder.Append(payload);
    var n := builder.SetPayloadLength();
    wire := builder.buffer;
    ghost var h := FrameHeader(|payload|, frameType, flags, streamId);
    LengthLast(h);
    assert (start + payload)[3..] == start[3..] + payload;
    WireOfOne(Frame(h, payload));
  }

  lemma LengthLast(h: FrameHeader)
    requires Encodable(Header(h))
    ensures Encode(Header(h)) == Bytes(h.payloadLength, 3) + Encode(Header(h.(payloadLength := 0)))[3..]
  {
    hide Bytes;
    var rest := [h.frameType, h.flags] + Bytes(h.streamId, 4);
    assert Encode(Header(h)) == Bytes(h.payloadLength, 3) + rest;
    assert Encode(Header(h.(payloadLength := 0))) == Bytes(0, 3) + rest;
  }

  lemma WireOfOne(f: Frame)
    requires WellFormed(f)
    ensures Wire([f]) == Encode(Header(f.header)) + f.payload
  {
    hide Encode;
    assert Wire([f][1..]) == [];
  }
}
