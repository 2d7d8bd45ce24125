/** Reading back what was written, and the round trips between the two. */
module QuicDataReading {
  import opened Wrappers
  import opened QuicVarInt62
  import opened QuicDataWriting
  import F = QuicUFloat16

  function Number16(s: seq<bv8>): bv16
    requires |s| == 2
  {
    ((s[0] as bv16) << 8) | (s[1] as bv16)
  }

  /** Bytes in the order they are stored, most significant first again. */
  function Unstored(s: seq<bv8>, e: Endianness): (r: seq<bv8>)
    ensures |r| == |s|
  {
    if e == NetworkByteOrder then s else Reversed(s)
  }

  lemma UnstoredAt(s: seq<bv8>, k: nat)
    requires k < |s|
    ensures Unstored(s, NetworkByteOrder)[k] == s[k]
    ensures Unstored(s, HostByteOrder)[k] == s[|s| - 1 - k]
  {
  }

  /** Two bytes as the number they stand for, in either order. */
  lemma UInt16InOrder(a: bv8, b: bv8)
    ensures Number16(Unstored([a, b], NetworkByteOrder)) == Number16([a, b]) == ((a as bv16) << 8) | (b as bv16)
    ensures Number16(Unstored([a, b], HostByteOrder)) == Number16([b, a])
  {
    assert Unstored([a, b], HostByteOrder) == [b, a] by {
      hide Unstored, Number16;
      UnstoredAt([a, b], 0);
      UnstoredAt([a, b], 1);
    }
  }

  lemma UnstoredStored(s: seq<bv8>, e: Endianness)
    ensures Unstored(Stored(s, e), e) == s
  {
  }

  lemma Number16Big16(v: bv16)
    ensures Number16(Big16(v)) == v
  {
  }

  /** Sixteen bits as an unsigned number. */
  function Unsigned16(v: bv16): F.uint16 {
    (((v >> 8) & 0xff) as bv8 as int) * 0x100 + ((v & 0xff) as bv8 as int)
  }

  lemma Halves(high: bv8, low: bv8)
    ensures var v := ((high as bv16) << 8) | (low as bv16); ((v >> 8) & 0xff) as bv8 == high && (v & 0xff) as bv8 == low
  {
  }

  lemma UnsignedBits16(w: F.uint16)
    ensures Unsigned16(Bits16(w)) == w
  {
    hide ToByte;
    Halves(ToByte(w / 0x100), ToByte(w % 0x100));
  }

  function Zeros(n: nat): (s: seq<bv8>)
    ensures |s| == n && forall k :: 0 <= k < n ==> s[k] == 0
  {
    if n == 0 then [] else Zeros(n - 1) + [0]
  }

  function Number64(s: seq<bv8>): bv64
    requires |s| == 8
  {
    Sum8(s[0], s[1], s[2], s[3], s[4], s[5], s[6], s[7])
  }

  lemma DecodedAtMost(w: F.uint16)
    ensures F.Decoded(w) <= F.MAX_VALUE
  {
    F.Largest();
    if w < 0xffff {
      F.StrictlyIncreasing(w, 0xffff);
    }
  }

  class QuicDataReader {
    const data: seq<bv8>
    const endianness: Endianness
    var len: nat
    var pos: nat

    ghost predicate Valid()
      reads this
    {
      pos <= len <= |data|
    }

    ghost function Remaining(): seq<bv8>
      requires Valid()
      reads this
    {
      data[pos..len]
    }

    constructor (data: seq<bv8>, endianness: Endianness)
      ensures Valid() && Remaining() == data && this.endianness == endianness
    {
      this.data, this.endianness := data, endianness;
      len, pos := |data|, 0;
    }

    /** A read of more than there is fails, and leaves nothing to read. */
    method ReadBytes(size: nat) returns (ok: bool, result: seq<bv8>)
      requires Valid()
      modifies `pos
      ensures Valid() && (ok <==> size <= |old(Remaining())|)
      ensures ok ==> old(Remaining()) == result + Remaining() && |result| == size
      ensures !ok ==> Remaining() == []
    {
      if size > len - pos {
        pos := len;
        return false, [];
      }
      result := data[pos..pos + size];
      pos := pos + size;
      return true, result;
    }

    method ReadUInt16() returns (ok: bool, result: bv16)
      requires Valid()
      modifies `pos
      ensures Valid() && (ok <==> 2 <= |old(Remaining())|)
      ensures ok ==> result == Number16(Unstored(old(Remaining())[..2], endianness)) && Remaining() == old(Remaining())[2..]
      ensures !ok ==> Remaining() == []
    {
      var bytes;
      ok, bytes := ReadBytes(2);
      result := 0;
      if ok {
        assert old(Remaining())[..2] == bytes;
        result := Number16(Unstored(bytes, endianness));
      }
    }

    /** Reads up to eight bytes into the low-order end of a number. */
    method ReadBytesToUInt64(numBytes: nat) returns (ok: bool, result: bv64)
      requires Valid()
      modifies `pos
      ensures Valid() && (ok <==> numBytes <= 8 && numBytes <= |old(Remaining())|)
      ensures ok ==> result == Number64(Zeros(8 - numBytes) + Unstored(old(Remaining())[..numBytes], endianness))
      ensures ok ==> Remaining() == old(Remaining())[numBytes..]
      ensures !ok ==> Remaining() == if numBytes > 8 then old(Remaining()) else []
    {
      result := 0;
      if numBytes > 8 {
        return false, 0;
      }
      var bytes;
      ok, bytes := ReadBytes(numBytes);
      if ok {
        assert old(Remaining())[..numBytes] == bytes;
        result := Number64(Zeros(8 - numBytes) + Unstored(bytes, endianness));
      }
    }

    method ReadUFloat16() returns (ok: bool, result: nat)
      requires Valid()
      modifies `pos
      ensures Valid() && (ok <==> 2 <= |old(Remaining())|)
      ensures ok ==> result == F.Decoded(Unsigned16(Number16(Unstored(old(Remaining())[..2], endianness))))
      ensures ok ==> result <= F.MAX_VALUE && Remaining() == old(Remaining())[2..]
      ensures !ok ==> Remaining() == []
    {
      hide Unsigned16, Number16, Unstored;
      var bits;
      ok, bits := ReadUInt16();
      result := 0;
      if ok {
        var value := Unsigned16(bits);
        result := value;
        DecodedAtMost(value);
        if result < 0x1000 {
          return;
        }
        var exponent := value / 0x800;
        exponent := exponent - 1;
        result := result - exponent * 0x800;
        result := result * Pow2(exponent);
      }
    }

    /** The length announced by the next byte; zero when there is none. */
    method PeekVarInt62Length() returns (n: VarIntLength)
      requires Valid() && endianness == NetworkByteOrder
      ensures n == 0 <==> Remaining() == []
      ensures Remaining() != [] ==> n == LengthOf(Remaining()[0])
    {
      if len - pos == 0 {
        return 0;
      }
      n := LengthOf(data[pos]);
    }

    /** Reads an integer if all its bytes are there; otherwise reads nothing. */
    method ReadVarInt62() returns (ok: bool, result: bv64)
      requires Valid() && endianness == NetworkByteOrder
      modifies `pos
      ensures Valid() && (ok <==> Complete(old(Remaining())))
      ensures ok ==> result == Meaning(old(Remaining())) && Remaining() == old(Remaining())[LengthOf(old(Remaining())[0])..]
      ensures !ok ==> Remaining() == old(Remaining())
    {
      hide Sum2, Sum4, Sum8, Meaning, LengthOf, Payload;
      var remaining := len - pos;
      result := 0;
      ghost var s := Remaining();
      if Complete(s) {
        MeaningByLength(s);
      }
      if remaining != 0 {
        TopBits(data[pos]);
        var top := data[pos] & 0xc0;
        if top == 0xc0 {
          if remaining >= 8 {
            result := Sum8(Payload(data[pos]), data[pos + 1], data[pos + 2], data[pos + 3], data[pos + 4], data[pos + 5], data[pos + 6], data[pos + 7]);
            pos := pos + 8;
            return true, result;
          }
          return false, 0;
        }
        if top == 0x80 {
          if remaining >= 4 {
            result := Sum4(Payload(data[pos]), data[pos + 1], data[pos + 2], data[pos + 3]);
            pos := pos + 4;
            return true, result;
          }
          return false, 0;
        }
        if top == 0x40 {
          if remaining >= 2 {
            result := Sum2(Payload(data[pos]), data[pos + 1]);
            pos := pos + 2;
            return true, result;
          }
          return false, 0;
        }
        result := Payload(data[pos]) as bv64;
        pos := pos + 1;
        return true, result;
      }
      return false, 0;
    }
  }

  lemma TopBits(first: bv8)
    ensures first & 0xc0 == 0xc0 <==> LengthOf(first) == 8
    ensures first & 0xc0 == 0x80 <==> LengthOf(first) == 4
    ensures first & 0xc0 == 0x40 <==> LengthOf(first) == 2
    ensures first & 0xc0 == 0 <==> LengthOf(first) == 1
  {
  }

  /** Integers written one after another, each in its length. */
  function Encodings(values: seq<bv64>, lengths: seq<VarIntLength>): seq<bv8>
    requires |values| == |lengths| && forall k :: 0 <= k < |lengths| ==> lengths[k] != 0
  {
    if values == [] then [] else Encoding(values[0], lengths[0]) + Encodings(values[1..], lengths[1..])
  }

  /** What count reads in a row give, and what is left; fewer when one of them fails. */
  function ReadMany(s: seq<bv8>, count: nat): (seq<bv64>, seq<bv8>) {
    if count == 0 || !Complete(s) then ([], s) else
      var (values, rest) := ReadMany(s[LengthOf(s[0])..], count - 1);
      ([Meaning(s)] + values, rest)
  }

  predicate AllFit(values: seq<bv64>, lengths: seq<VarIntLength>) {
    |values| == |lengths| && forall k :: 0 <= k < |values| ==> lengths[k] != 0 && values[k] <= Largest(lengths[k])
  }

  lemma AllFitSplit(values: seq<bv64>, lengths: seq<VarIntLength>)
    requires AllFit(values, lengths) && values != []
    ensures lengths[0] != 0 && values[0] <= Largest(lengths[0]) && AllFit(values[1..], lengths[1..])
  {
  }

  /** Any list of values, each written in any length that it fits, is read back as the same list. */
  lemma {:induction false} ListRoundTrip(values: seq<bv64>, lengths: seq<VarIntLength>, rest: seq<bv8>)
    requires AllFit(values, lengths)
    ensures ReadMany(Encodings(values, lengths) + rest, |values|) == (values, rest)
  {
    hide Encoding, ReadMany, Largest;
    if values == [] {
      assert Encodings(values, lengths) + rest == rest;
      ReadNone(rest);
    } else {
      var tail := Encodings(values[1..], lengths[1..]) + rest;
      AllFitSplit(values, lengths);
      EncodingsStep(values, lengths, rest);
      hide Encodings, AllFit;
      ListRoundTrip(values[1..], lengths[1..], rest);
      ReadFirst(values[0], lengths[0], tail, |values|);
      assert values == [values[0]] + values[1..];
    }
  }

  lemma EncodingsStep(values: seq<bv64>, lengths: seq<VarIntLength>, rest: seq<bv8>)
    requires |values| == |lengths| && values != [] && forall k :: 0 <= k < |lengths| ==> lengths[k] != 0
    ensures Encodings(values, lengths) + rest == Encoding(values[0], lengths[0]) + (Encodings(values[1..], lengths[1..]) + rest)
  {
    hide Encoding;
  }

  lemma ReadNone(s: seq<bv8>)
    ensures ReadMany(s, 0) == ([], s)
  {
  }

  lemma ReadFirst(value: bv64, n: VarIntLength, tail: seq<bv8>, count: nat)
    requires n != 0 && value <= Largest(n) && count > 0
    ensures ReadMany(Encoding(value, n) + tail, count) == ([value] + ReadMany(tail, count - 1).0, ReadMany(tail, count - 1).1)
  {
    hide Encoding, Meaning, LengthOf, Largest;
    MeaningOfEncoding(value, n, tail);
    assert (Encoding(value, n) + tail)[n..] == tail;
  }

  /** What is read back from a forced length is what Truncated says, whatever follows it. */
  lemma ForcedMeaning(value: bv64, n: VarIntLength, rest: seq<bv8>)
    requires n != 0 && WritableIn(value, n)
    ensures Meaning(Encoding(Truncated(value, n), n) + rest) == Truncated(value, n)
    ensures Truncated(value, n) == value <==> value <= MAX_VALUE
  {
    hide *;
    TruncatedFits(value, n);
    MeaningOfEncoding(Truncated(value, n), n, rest);
  }

  lemma TruncatedFits(value: bv64, n: VarIntLength)
    requires n != 0 && WritableIn(value, n)
    ensures Truncated(value, n) <= Largest(n)
    ensures Truncated(value, n) == value <==> value <= MAX_VALUE
  {
    if value <= MAX_VALUE {
      LongerFits(value, n);
    } else {
      TruncatedDiffers(value, n);
    }
  }

  lemma LongerFits(value: bv64, n: VarIntLength)
    requires n != 0 && value <= MAX_VALUE && WritableIn(value, n)
    ensures Truncated(value, n) == value <= Largest(n)
  {
  }

  lemma TruncatedDiffers(value: bv64, n: VarIntLength)
    requires n != 0 && value > MAX_VALUE && WritableIn(value, n)
    ensures Truncated(value, n) <= Largest(n) && Truncated(value, n) != value
  {
  }

  /** A value written as a 16-bit float is read back as the greatest representable value not above it. */
  lemma UFloat16RoundTrip(value: nat, e: Endianness)
    ensures F.Decoded(Unsigned16(Number16(Unstored(Stored(Big16(Bits16(F.Encoded(value))), e), e)))) == F.Decoded(F.Encoded(value))
    ensures forall w: F.uint16 :: F.Decoded(w) <= value ==> F.Decoded(w) <= F.Decoded(F.Encoded(value)) <= value
  {
    hide Stored, Unstored, Number16, Big16, Bits16, Unsigned16, F.Decoded, F.Encoded;
    var w := F.Encoded(value);
    UnsignedBits16(w);
    UnstoredStored(Big16(Bits16(w)), e);
    Number16Big16(Bits16(w));
  }

  lemma BytesOfSum(a: bv8, b: bv8, c: bv8, d: bv8, e: bv8, f: bv8, g: bv8, h: bv8)
    ensures var v := Sum8(a, b, c, d, e, f, g, h);
      && Low(v, 56) == a && Low(v, 48) == b && Low(v, 40) == c && Low(v, 32) == d
      && Low(v, 24) == e && Low(v, 16) == f && Low(v, 8) == g && Low(v, 0) == h
  {
  }

  lemma SumOfBytes(v: bv64)
    ensures Sum8(Low(v, 56), Low(v, 48), Low(v, 40), Low(v, 32), Low(v, 24), Low(v, 16), Low(v, 8), Low(v, 0)) == v
  {
  }

  lemma Big64Number64(s: seq<bv8>)
    requires |s| == 8
    ensures Big64(Number64(s)) == s
  {
    hide Low, Sum8;
    BytesOfSum(s[0], s[1], s[2], s[3], s[4], s[5], s[6], s[7]);
  }

  lemma Number64Big64(v: bv64)
    ensures Number64(Big64(v)) == v
  {
    hide Low, Sum8;
    SumOfBytes(v);
  }

  /** Writing the low-order bytes of a number and reading as many gives back those bytes, below zeros;
      so a number that they hold is read back unchanged. */
  lemma UInt64RoundTrip(v: bv64, n: nat, e: Endianness)
    requires n <= 8
    ensures var r := Number64(Zeros(8 - n) + Unstored(Stored(Big64(v)[8 - n..], e), e));
      && Big64(r) == Zeros(8 - n) + Big64(v)[8 - n..]
      && (r == v <==> Big64(v)[..8 - n] == Zeros(8 - n))
  {
    hide Stored, Unstored, Zeros, Number64, Big64;
    UnstoredStored(Big64(v)[8 - n..], e);
    var s := Zeros(8 - n) + Big64(v)[8 - n..];
    Big64Number64(s);
    Number64Big64(v);
    assert Big64(v) == Big64(v)[..8 - n] + Big64(v)[8 - n..];
  }
}
