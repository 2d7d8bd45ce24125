/** The buffer that QUIC packets are written into. */
module QuicDataWriting {
  import opened Wrappers
  import opened QuicVarInt62
  import F = QuicUFloat16

  datatype Endianness = NetworkByteOrder | HostByteOrder

  function Reversed(s: seq<bv8>): (r: seq<bv8>)
    ensures |r| == |s| && forall k :: 0 <= k < |s| ==> r[k] == s[|s| - 1 - k]
  {
    if s == [] then [] else Reversed(s[1..]) + [s[0]]
  }

  /** Bytes given most significant first, in the order they are stored; the host is little-endian. */
  function Stored(s: seq<bv8>, e: Endianness): (r: seq<bv8>)
    ensures |r| == |s|
  {
    if e == NetworkByteOrder then s else Reversed(s)
  }

  /** In network order bytes are stored as given, and in the host's the least significant is first. */
  lemma StoredAt(s: seq<bv8>, k: nat)
    requires k < |s|
    ensures Stored(s, NetworkByteOrder)[k] == s[k]
    ensures Stored(s, HostByteOrder)[k] == s[|s| - 1 - k]
  {
  }

  lemma NextByte(b: bv8)
    requires b != 0xff
    ensures (b + 1) as int == b as int + 1
  {
  }

  function ToByte(x: int): (b: bv8)
    requires 0 <= x < 0x100
    ensures b as int == x
  {
    if x == 0 then 0 else
      var before := ToByte(x - 1);
      assert 0xff as bv8 as int == 0xff;
      NextByte(before);
      before + 1
  }

  /** An unsigned number as sixteen bits. */
  function Bits16(w: F.uint16): bv16 {
    ((ToByte(w / 0x100) as bv16) << 8) | (ToByte(w % 0x100) as bv16)
  }

  function Big16(v: bv16): (s: seq<bv8>)
    ensures |s| == 2
  {
    [((v >> 8) & 0xff) as bv8, (v & 0xff) as bv8]
  }

  function Big32(v: bv32): (s: seq<bv8>)
    ensures |s| == 4
  {
    [((v >> 24) & 0xff) as bv8, ((v >> 16) & 0xff) as bv8, ((v >> 8) & 0xff) as bv8, (v & 0xff) as bv8]
  }

  lemma Big32Joined(v: bv32)
    ensures var s := Big32(v); ((s[0] as bv32) << 24) | ((s[1] as bv32) << 16) | ((s[2] as bv32) << 8) | (s[3] as bv32) == v
  {
  }

  function Big64(v: bv64): (s: seq<bv8>)
    ensures |s| == 8
  {
    [Low(v, 56), Low(v, 48), Low(v, 40), Low(v, 32), Low(v, 24), Low(v, 16), Low(v, 8), Low(v, 0)]
  }

  // First bytes, as the writer computes them.

  function First2(v: bv64): (b: bv8)
    ensures b == Tagged(0x40, Low(v, 8))
  {
    (((v >> 8) & 0x3f) + 0x40) as bv8
  }

  function First4(v: bv64): (b: bv8)
    ensures b == Tagged(0x80, Low(v, 24))
  {
    (((v >> 24) & 0x3f) + 0x80) as bv8
  }

  function First8(v: bv64): (b: bv8)
    ensures b == Tagged(0xc0, Low(v, 56))
  {
    (((v >> 56) & 0x3f) + 0xc0) as bv8
  }

  function First1(v: bv64): (b: bv8)
    ensures b == Tagged(0, Low(v, 0))
  {
    (v & 0x3f) as bv8
  }

  lemma LowFirst(big: seq<bv8>, n: nat)
    requires n <= |big|
    ensures Reversed(big)[..n] == Reversed(big[|big| - n..])
  {
    hide Reversed;
    var low := big[|big| - n..];
    var r, s := Reversed(big), Reversed(low);
    forall k | 0 <= k < n ensures r[k] == s[k] {
      assert low[n - 1 - k] == big[|big| - 1 - k];
    }
    assert r[..n] == s;
  }

  /** The lengths that writing value in a forced length succeeds for. */
  predicate WritableIn(value: bv64, n: VarIntLength) {
    if value > MAX_VALUE then n > 1 else n >= GetVarInt62Len(value)
  }

  /** The part of value that is written when a longer length than the shortest is forced. */
  function Truncated(value: bv64, n: VarIntLength): bv64 {
    if value <= MAX_VALUE then value
    else if n == 2 then value & 0xff else if n == 4 then value & 0xffff else value & 0xffff_ffff
  }

  // What forcing a length writes is the encoding of the low-order half of that many bytes.

  lemma HighBits2(v: bv64)
    ensures Tagged(0x40, Low(v & 0xff, 8)) == 0x40 && Low(v & 0xff, 0) == (v & 0xff) as bv8
    ensures v <= 0x3f ==> v & 0xff == v
  {
  }

  lemma HighBits4(v: bv64)
    ensures Tagged(0x80, Low(v & 0xffff, 24)) == 0x80 && Low(v & 0xffff, 16) == 0
    ensures Big16((v & 0xffff) as bv16) == [Low(v & 0xffff, 8), Low(v & 0xffff, 0)]
    ensures v <= 0x3fff ==> v & 0xffff == v
  {
  }

  lemma HighBits8(v: bv64)
    ensures var w := v & 0xffff_ffff;
      Tagged(0xc0, Low(w, 56)) == 0xc0 && Low(w, 48) == 0 && Low(w, 40) == 0 && Low(w, 32) == 0
    ensures v <= 0x3fff_ffff ==> v & 0xffff_ffff == v
  {
  }

  lemma LowBits8(v: bv64)
    ensures Big16(0) == [0, 0]
    ensures Big32((v & 0xffff_ffff) as bv32) == [Low(v & 0xffff_ffff, 24), Low(v & 0xffff_ffff, 16), Low(v & 0xffff_ffff, 8), Low(v & 0xffff_ffff, 0)]
  {
  }

  lemma Forced2(v: bv64)
    ensures Encoding(v & 0xff, 2) == [0x40, (v & 0xff) as bv8]
    ensures v <= 0x3f ==> v & 0xff == v
  {
    HighBits2(v);
  }

  lemma Forced4(v: bv64)
    ensures Encoding(v & 0xffff, 4) == [0x80, 0] + Big16((v & 0xffff) as bv16)
    ensures v <= 0x3fff ==> v & 0xffff == v
  {
    hide Tagged, Low, Big16;
    HighBits4(v);
  }

  lemma Forced8(v: bv64)
    ensures Encoding(v & 0xffff_ffff, 8) == [0xc0, 0] + Big16(0) + Big32((v & 0xffff_ffff) as bv32)
    ensures v <= 0x3fff_ffff ==> v & 0xffff_ffff == v
  {
    hide Tagged, Low, Big16, Big32;
    HighBits8(v);
    LowBits8(v);
  }

  class QuicDataWriter {
    const buffer: array<bv8>
    const endianness: Endianness
    var length: nat

    ghost predicate Valid()
      reads `length
    {
      length <= buffer.Length
    }

    ghost function Written(): seq<bv8>
      requires Valid()
      reads `length, buffer
    {
      buffer[..length]
    }

    constructor (size: nat, endianness: Endianness)
      ensures Valid() && fresh(buffer) && buffer.Length == size && this.endianness == endianness && Written() == []
    {
      buffer := new bv8[size];
      this.endianness := endianness;
      length := 0;
    }

    /** Appends the bytes if there is room for all of them. */
    method WriteBytes(data: seq<bv8>) returns (ok: bool)
      requires Valid()
      modifies `length, buffer
      ensures Valid() && (ok <==> old(length) + |data| <= buffer.Length)
      ensures Written() == if ok then old(Written()) + data else old(Written())
    {
      if buffer.Length - length < |data| {
        return false;
      }
      forall k | 0 <= k < |data| {
        buffer[length + k] := data[k];
      }
      length := length + |data|;
      return true;
    }

    method WriteUInt8(value: bv8) returns (ok: bool)
      requires Valid()
      modifies `length, buffer
      ensures Valid() && (ok <==> old(length) + 1 <= buffer.Length)
      ensures Written() == if ok then old(Written()) + [value] else old(Written())
    {
      ok := WriteBytes([value]);
    }

    method WriteUInt16(value: bv16) returns (ok: bool)
      requires Valid()
      modifies `length, buffer
      ensures Valid() && (ok <==> old(length) + 2 <= buffer.Length)
      ensures Written() == if ok then old(Written()) + Stored(Big16(value), endianness) else old(Written())
    {
      ok := WriteBytes(Stored(Big16(value), endianness));
    }

    method WriteUInt32(value: bv32) returns (ok: bool)
      requires Valid()
      modifies `length, buffer
      ensures Valid() && (ok <==> old(length) + 4 <= buffer.Length)
      ensures Written() == if ok then old(Written()) + Stored(Big32(value), endianness) else old(Written())
    {
      ok := WriteBytes(Stored(Big32(value), endianness));
    }

    /** Writes the low-order bytes of value; at most eight. */
    method WriteBytesToUInt64(numBytes: nat, value: bv64) returns (ok: bool)
      requires Valid()
      modifies `length, buffer
      ensures Valid() && (ok <==> numBytes <= 8 && old(length) + numBytes <= buffer.Length)
      ensures Written() == if ok then old(Written()) + Stored(Big64(value)[8 - numBytes..], endianness) else old(Written())
    {
      if numBytes > 8 {
        return false;
      }
      hide Big64, Reversed;
      var big := Big64(value);
      if endianness == HostByteOrder {
        LowFirst(big, numBytes);
        ok := WriteBytes(Reversed(big)[..numBytes]);
        return;
      }
      ok := WriteBytes(big[8 - numBytes..]);
    }

    method StoreFour(at: nat, a: bv8, b: bv8, c: bv8, d: bv8)
      requires at + 4 <= buffer.Length
      modifies buffer
      ensures buffer[..at + 4] == old(buffer[..at]) + [a, b, c, d]
    {
      buffer[at + 0] := a;
      buffer[at + 1] := b;
      buffer[at + 2] := c;
      buffer[at + 3] := d;
    }

    method PutEight(value: bv64)
      requires Valid() && length + 8 <= buffer.Length
      modifies `length, buffer
      ensures Valid() && length == old(length) + 8 && Written() == old(Written()) + Encoding(value, 8)
    {
      hide Tagged, Low, First8;
      StoreFour(length, First8(value), Low(value, 48), Low(value, 40), Low(value, 32));
      StoreFour(length + 4, Low(value, 24), Low(value, 16), Low(value, 8), Low(value, 0));
      length := length + 8;
    }

    method PutFour(value: bv64)
      requires Valid() && length + 4 <= buffer.Length
      modifies `length, buffer
      ensures Valid() && length == old(length) + 4 && Written() == old(Written()) + Encoding(value, 4)
    {
      hide Tagged, Low, First4;
      StoreFour(length, First4(value), Low(value, 16), Low(value, 8), Low(value, 0));
      length := length + 4;
    }

    /** Writes the shortest encoding of value, if it has one and there is room for it. */
    method WriteVarInt62(value: bv64) returns (ok: bool)
      requires Valid() && endianness == NetworkByteOrder
      modifies `length, buffer
      ensures Valid() && (ok <==> value <= MAX_VALUE && old(length) + GetVarInt62Len(value) <= buffer.Length)
      ensures Written() == if ok then old(Written()) + Encoding(value, GetVarInt62Len(value)) else old(Written())
    {
      var remaining := buffer.Length - length;
      hide Tagged, Low, HasBits, First1, First2, First4, First8, Largest;
      if !HasBits(value, ERROR_MASK) {
        if HasBits(value, MASK_8_BYTES) {
          if remaining >= 8 {
            PutEight(value);
            return true;
          }
          return false;
        }
        if HasBits(value, MASK_4_BYTES) {
          if remaining >= 4 {
            PutFour(value);
            return true;
          }
          return false;
        }
        if HasBits(value, MASK_2_BYTES) {
          if remaining >= 2 {
            buffer[length + 0] := First2(value);
            buffer[length + 1] := Low(value, 0);
            length := length + 2;
            return true;
          }
          return false;
        }
        if remaining >= 1 {
          buffer[length] := First1(value);
          length := length + 1;
          return true;
        }
        return false;
      }
      return false;
    }

    method Force2(value: bv64) returns (ok: bool)
      requires Valid() && length + 2 <= buffer.Length && GetVarInt62Len(value) < 2
      modifies `length, buffer
      ensures Valid() && ok && Written() == old(Written()) + Encoding(Truncated(value, 2), 2)
    {
      hide Encoding, GetVarInt62Len;
      Forced2(value);
      ok := WriteUInt8(0x40);
      ok := WriteUInt8((value & 0xff) as bv8);
    }

    method Force4(value: bv64) returns (ok: bool)
      requires Valid() && length + 4 <= buffer.Length && GetVarInt62Len(value) < 4 && endianness == NetworkByteOrder
      modifies `length, buffer
      ensures Valid() && ok && Written() == old(Written()) + Encoding(Truncated(value, 4), 4)
    {
      hide Encoding, GetVarInt62Len, Big16;
      Forced4(value);
      ok := WriteUInt8(0x80);
      ok := WriteUInt8(0);
      ok := WriteUInt16((value & 0xffff) as bv16);
    }

    method Force8(value: bv64) returns (ok: bool)
      requires Valid() && length + 8 <= buffer.Length && GetVarInt62Len(value) < 8 && endianness == NetworkByteOrder
      modifies `length, buffer
      ensures Valid() && ok && Written() == old(Written()) + Encoding(Truncated(value, 8), 8)
    {
      hide Encoding, GetVarInt62Len, Big16, Big32;
      Forced8(value);
      ok := WriteUInt8(0xc0);
      ok := WriteUInt8(0);
      ok := WriteUInt16(0);
      ok := WriteUInt32((value & 0xffff_ffff) as bv32);
    }

    /** Writes value in a given length. A value of more than 62 bits is not refused: what is written for
        it is the encoding of its low-order bits. */
    method WriteVarInt62InLength(value: bv64, writeLength: VarIntLength) returns (ok: bool)
      requires Valid() && endianness == NetworkByteOrder
      modifies `length, buffer
      ensures Valid() && (ok <==> WritableIn(value, writeLength) && old(length) + writeLength <= buffer.Length)
      ensures Written() == if ok then old(Written()) + Encoding(Truncated(value, writeLength), writeLength) else old(Written())
    {
      hide Encoding, GetVarInt62Len;
      var remaining := buffer.Length - length;
      if remaining < writeLength {
        return false;
      }
      var minLength := GetVarInt62Len(value);
      if writeLength < minLength {
        return false;
      }
      if writeLength == minLength {
        ok := WriteVarInt62(value);
        return;
      }
      if writeLength == 2 {
        ok := Force2(value);
        return;
      }
      if writeLength == 4 {
        ok := Force4(value);
        return;
      }
      if writeLength == 8 {
        ok := Force8(value);
        return;
      }
      return false;
    }

    /** Writes the greatest representable value that is not above value. */
    method WriteUFloat16(value: F.uint64) returns (ok: bool)
      requires Valid()
      modifies `length, buffer
      ensures Valid() && (ok <==> old(length) + 2 <= buffer.Length)
      ensures Written() == if ok then old(Written()) + Stored(Big16(Bits16(F.Encoded(value))), endianness) else old(Written())
    {
      var result: F.uint16;
      if value < 0x1000 {
        result := value;
        F.EncodedDecoded(value);
      } else if value >= F.MAX_VALUE {
        result := 0xffff;
        F.Largest();
        F.EncodedBetween(value, result);
      } else {
        result := Normalised(value);
      }
      ok := WriteUInt16(Bits16(result));
    }
  }

  /** The highest bit is brought down to position 11 by a binary search over the shifts. */
  method Normalised(v: F.uint64) returns (result: F.uint16)
    requires 0x1000 <= v < F.MAX_VALUE
    ensures result == F.Encoded(v)
  {
    hide F.Encoded;
    F.Pow2Values();
    F.Pow2Plus(16, 16);
    var value: nat, exponent: nat, offset: nat := v, 0, 16;
    while offset > 0
      invariant offset in {0, 1, 2, 4, 8, 16}
      invariant F.ShiftedFrom(v, value, exponent)
      invariant 0x800 <= value < 0x800 * Pow2(if offset == 0 then 1 else 2 * offset)
      decreases offset
    {
      F.Pow2Plus(11, offset);
      if value >= Pow2(11 + offset) {
        F.ShiftMore(v, value, exponent, offset);
        F.ShiftBounds(value, offset);
        exponent := exponent + offset;
        value := value / Pow2(offset);
      }
      offset := offset / 2;
    }
    F.Packed(v, value, exponent);
    result := value + exponent * 0x800;
  }
}
