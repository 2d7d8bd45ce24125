/** A cursor over one input buffer, and the decoding of integers and structures from it. */
module Http2DecodeBuffer {
  import opened BigEndian
  import opened Http2Structures

  class DecodeBuffer {
    const data: seq<byte>
    var cursor: nat

    ghost predicate Valid()
      reads this
    {
      cursor <= |data|
    }

    constructor (data: seq<byte>)
      ensures Valid() && this.data == data && cursor == 0
    {
      this.data := data;
      cursor := 0;
    }

    function Remaining(): nat
      requires Valid()
      reads this
    {
      |data| - cursor
    }

    predicate HasData()
      reads this
    {
      cursor < |data|
    }

    function MinLengthRemaining(length: nat): nat
      requires Valid()
      reads this
    {
      if length < Remaining() then length else Remaining()
    }

    /** The next n bytes. */
    function Next(n: nat): seq<byte>
      requires Valid() && n <= Remaining()
      reads this
    {
      data[cursor..cursor + n]
    }

    method AdvanceCursor(amount: nat)
      requires Valid() && amount <= Remaining()
      modifies this
      ensures Valid() && cursor == old(cursor) + amount
    {
      cursor := cursor + amount;
    }

    method DecodeUInt8() returns (b: byte)
      requires Valid() && 1 <= Remaining()
      modifies this
      ensures Valid() && cursor == old(cursor) + 1
      ensures b == data[old(cursor)]
    {
      b := data[cursor];
      cursor := cursor + 1;
    }

    method DecodeUInt16() returns (v: nat)
      requires Valid() && 2 <= Remaining()
      modifies this
      ensures Valid() && cursor == old(cursor) + 2
      ensures v == Value(old(Next(2)))
    {
      ghost var s := Next(2);
      var b1 := DecodeUInt8();
      var b2 := DecodeUInt8();
      v := b1 as nat * 0x100 + b2;
      ValueSnoc(s[..1], b1, []);
      ValueSnoc(s, b2, s[..1]);
    }

    method DecodeUInt24() returns (v: nat)
      requires Valid() && 3 <= Remaining()
      modifies this
      ensures Valid() && cursor == old(cursor) + 3
      ensures v == Value(old(Next(3)))
    {
      ghost var s := Next(3);
      var b1 := DecodeUInt8();
      var b2 := DecodeUInt8();
      var b3 := DecodeUInt8();
      v := (b1 as nat * 0x100 + b2) * 0x100 + b3;
      Value3(s);
    }

    method DecodeUInt32() returns (v: nat)
      requires Valid() && 4 <= Remaining()
      modifies this
      ensures Valid() && cursor == old(cursor) + 4
      ensures v == Value(old(Next(4)))
    {
      ghost var s := Next(4);
      var b1 := DecodeUInt8();
      var b2 := DecodeUInt8();
      var b3 := DecodeUInt8();
      var b4 := DecodeUInt8();
      v := ((b1 as nat * 0x100 + b2) * 0x100 + b3) * 0x100 + b4;
      Value4(s);
    }

    /** The first byte is masked before the four are combined. */
    method DecodeUInt31() returns (v: nat)
      requires Valid() && 4 <= Remaining()
      modifies this
      ensures Valid() && cursor == old(cursor) + 4
      ensures v == Value(old(Next(4))) % 0x8000_0000
    {
      ghost var s := Next(4);
      var b1 := DecodeUInt8();
      var masked: nat := b1 % 0x80;
      var b2 := DecodeUInt8();
      var b3 := DecodeUInt8();
      var b4 := DecodeUInt8();
      v := ((masked * 0x100 + b2) * 0x100 + b3) * 0x100 + b4;
      Value4(s);
      assert Value(s) == b1 / 0x80 * 0x8000_0000 + v;
    }

    /** Decodes one structure from a buffer that holds all of it. */
    method DoDecode(kind: Kind) returns (x: Structure)
      requires Valid() && EncodedSize(kind) <= Remaining()
      modifies this
      ensures Valid() && cursor == old(cursor) + EncodedSize(kind)
      ensures x == Decode(kind, old(Next(EncodedSize(kind))))
    {
      hide Value;
      ghost var s := Next(EncodedSize(kind));
      ghost var c := cursor;
      match kind
      case HeaderKind =>
        var payloadLength := DecodeUInt24();
        var frameType := DecodeUInt8();
        var flags := DecodeUInt8();
        var streamId := DecodeUInt31();
        x := Header(FrameHeader(payloadLength, frameType, flags, streamId));
        Shift(data, c, 9, 0, 3);
        Shift(data, c, 9, 5, 4);
      case PriorityKind =>
        var streamIdAndFlag := DecodeUInt32();
        var streamDependency := streamIdAndFlag % 0x8000_0000;
        var isExclusive := streamDependency != streamIdAndFlag;
        var weight := DecodeUInt8();
        x := Priority(streamDependency, weight as nat + 1, isExclusive);
        Shift(data, c, 5, 0, 4);
      case RstStreamKind =>
        var errorCode := DecodeUInt32();
        x := RstStream(errorCode);
        assert s[0..4] == s;
      case SettingKind =>
        var parameter := DecodeUInt16();
        var value := DecodeUInt32();
        x := Setting(parameter, value);
        Shift(data, c, 6, 0, 2);
        Shift(data, c, 6, 2, 4);
      case PushPromiseKind =>
        var promisedStreamId := DecodeUInt31();
        x := PushPromise(promisedStreamId);
        assert s[0..4] == s;
      case PingKind =>
        x := Ping(data[cursor..cursor + 8]);
        AdvanceCursor(8);
      case GoAwayKind =>
        var lastStreamId := DecodeUInt31();
        var errorCode := DecodeUInt32();
        x := GoAway(lastStreamId, errorCode);
        Shift(data, c, 8, 0, 4);
        Shift(data, c, 8, 4, 4);
      case WindowUpdateKind =>
        var increment := DecodeUInt31();
        x := WindowUpdate(increment);
        assert s[0..4] == s;
      case AltSvcKind =>
        var originLength := DecodeUInt16();
        x := AltSvc(originLength);
        assert s[0..2] == s;
    }
  }

  lemma Value3(s: seq<byte>)
    requires |s| == 3
    ensures Value(s) == (s[0] as nat * 0x100 + s[1]) * 0x100 + s[2]
  {
    ValueSnoc(s[..1], s[0], []);
    ValueSnoc(s[..2], s[1], s[..1]);
    ValueSnoc(s, s[2], s[..2]);
  }

  lemma Value4(s: seq<byte>)
    requires |s| == 4
    ensures Value(s) == ((s[0] as nat * 0x100 + s[1]) * 0x100 + s[2]) * 0x100 + s[3]
  {
    Value3(s[..3]);
    ValueSnoc(s, s[3], s[..3]);
  }

  /** A slice of a slice. */
  lemma Shift(data: seq<byte>, c: nat, size: nat, i: nat, n: nat)
    requires c + size <= |data| && i + n <= size
    ensures data[c..c + size][i..i + n] == data[c + i..c + i + n]
  {
    var s, t := data[c..c + size][i..i + n], data[c + i..c + i + n];
    assert forall k :: 0 <= k < n ==> s[k] == data[c + i + k] == t[k];
  }

  lemma ValueSnoc(s: seq<byte>, b: byte, init: seq<byte>)
    requires s == init + [b]
    ensures Value(s) == Value(init) * 256 + b
  {
    assert s[..|s| - 1] == init;
  }
}
