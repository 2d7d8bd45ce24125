/** Lists of integers, written one after the other and read back. */
module QuicVarInt62Lists {
  import opened Wrappers
  import opened QuicVarInt62
  import opened QuicDataWriting
  import opened QuicDataReading

  /** The length that value is written in: the one asked for, or else the shortest. */
  function LengthUsed(value: bv64, forced: Option<VarIntLength>): VarIntLength {
    if forced.Some? then forced.value else GetVarInt62Len(value)
  }

  function LengthsUsed(values: seq<bv64>, forced: seq<Option<VarIntLength>>): seq<VarIntLength>
    requires |values| == |forced|
  {
    seq(|values|, i requires 0 <= i < |values| => LengthUsed(values[i], forced[i]))
  }

  /** A value of at most 62 bits, with a length it can be written in. */
  predicate Fits(value: bv64, n: VarIntLength) {
    value <= MAX_VALUE && n != 0 && n >= GetVarInt62Len(value)
  }

  lemma FitsLargest(value: bv64, n: VarIntLength)
    requires Fits(value, n)
    ensures n != 0 && value <= Largest(n)
  {
    TruncatedFits(value, n);
  }

  lemma ShortestFits(value: bv64)
    requires value <= MAX_VALUE
    ensures Fits(value, GetVarInt62Len(value))
  {
  }

  lemma {:induction false} EncodingsAppend(values: seq<bv64>, lengths: seq<VarIntLength>, value: bv64, n: VarIntLength)
    requires |values| == |lengths| && n != 0 && forall k :: 0 <= k < |lengths| ==> lengths[k] != 0
    ensures Encodings(values + [value], lengths + [n]) == Encodings(values, lengths) + Encoding(value, n)
    ensures |Encodings(values, lengths)| <= 8 * |values|
    decreases |values|
  {
    hide Encoding;
    if values == [] {
      assert [value][1..] == [] && [n][1..] == [];
    } else {
      EncodingsAppend(values[1..], lengths[1..], value, n);
      assert (values + [value])[1..] == values[1..] + [value] && (lengths + [n])[1..] == lengths[1..] + [n];
    }
  }

  lemma NoEncodings(values: seq<bv64>)
    ensures Encodings(values[..0], []) == []
  {
  }

  method WriteOne(writer: QuicDataWriter, value: bv64, forced: Option<VarIntLength>) returns (ok: bool)
    requires writer.Valid() && writer.endianness == NetworkByteOrder && writer.length + 8 <= writer.buffer.Length && value <= MAX_VALUE
    modifies writer`length, writer.buffer
    ensures writer.Valid() && (ok <==> Fits(value, LengthUsed(value, forced))) && writer.length <= old(writer.length) + 8
    ensures ok ==> LengthUsed(value, forced) != 0
    ensures ok ==> writer.Written() == old(writer.Written()) + Encoding(value, LengthUsed(value, forced))
  {
    hide Encoding, GetVarInt62Len;
    ShortestFits(value);
    if forced == None {
      ok := writer.WriteVarInt62(value);
    } else {
      ok := writer.WriteVarInt62InLength(value, forced.value);
    }
  }

  method PeekAndRead(reader: QuicDataReader, ghost value: bv64, ghost n: VarIntLength, ghost tail: seq<bv8>)
    returns (read: bv64, peeked: VarIntLength)
    requires reader.Valid() && reader.endianness == NetworkByteOrder
    requires n != 0 && value <= Largest(n) && reader.Remaining() == Encoding(value, n) + tail
    modifies reader`pos
    ensures reader.Valid() && read == value && peeked == n && reader.Remaining() == tail
  {
    hide Encoding, Meaning, LengthOf, Largest;
    MeaningOfEncoding(value, n, tail);
    assert (Encoding(value, n) + tail)[n..] == tail;
    peeked := reader.PeekVarInt62Length();
    var ok;
    ok, read := reader.ReadVarInt62();
  }

  /** Writes values of at most 62 bits, each in the length asked for, if any; it fails exactly if one of
      these is too short. */
  method WriteAll(writer: QuicDataWriter, values: seq<bv64>, forced: seq<Option<VarIntLength>>) returns (ok: bool)
    requires writer.Valid() && writer.endianness == NetworkByteOrder && |values| == |forced|
    requires writer.length + 8 * |values| <= writer.buffer.Length
    requires forall k :: 0 <= k < |values| ==> values[k] <= MAX_VALUE
    modifies writer`length, writer.buffer
    ensures writer.Valid() && (ok <==> forall k :: 0 <= k < |values| ==> Fits(values[k], LengthUsed(values[k], forced[k])))
    ensures ok ==> writer.Written() == old(writer.Written()) + Encodings(values, LengthsUsed(values, forced))
  {
    hide Encoding, GetVarInt62Len, Encodings, Fits, LengthUsed;
    assert Encodings(values[..0], []) == [] by { NoEncodings(values); }
    ghost var lengths := LengthsUsed(values, forced);
    for i := 0 to |values|
      invariant writer.Valid() && forall k :: 0 <= k < i ==> lengths[k] != 0 && Fits(values[k], lengths[k])
      invariant writer.Written() == old(writer.Written()) + Encodings(values[..i], lengths[..i])
      invariant writer.length <= old(writer.length) + 8 * i
    {
      ok := WriteOne(writer, values[i], forced[i]);
      if !ok {
        assert !Fits(values[i], lengths[i]);
        return;
      }
      EncodingsAppend(values[..i], lengths[..i], values[i], lengths[i]);
      assert values[..i + 1] == values[..i] + [values[i]] && lengths[..i + 1] == lengths[..i] + [lengths[i]];
    }
    assert values[..|values|] == values && lengths[..|values|] == lengths;
    ok := true;
  }

  /** Reads a list back, looking first at each length. */
  method ReadAll(reader: QuicDataReader, count: nat, ghost values: seq<bv64>, ghost lengths: seq<VarIntLength>, ghost rest: seq<bv8>)
    returns (read: seq<bv64>, peeked: seq<VarIntLength>)
    requires reader.Valid() && reader.endianness == NetworkByteOrder && AllFit(values, lengths) && count == |values|
    requires reader.Remaining() == Encodings(values, lengths) + rest
    modifies reader`pos
    ensures reader.Valid() && read == values && peeked == lengths && reader.Remaining() == rest
  {
    hide Encoding, Largest, Encodings;
    assert values[0..] == values && lengths[0..] == lengths && values[count..] == [] && lengths[count..] == [];
    assert Encodings([], []) == [] by { NoEncodings([]); }
    read, peeked := [], [];
    for i := 0 to count
      invariant reader.Valid() && read == values[..i] && peeked == lengths[..i]
      invariant reader.Remaining() == Encodings(values[i..], lengths[i..]) + rest
    {
      ghost var tail := Encodings(values[i + 1..], lengths[i + 1..]) + rest;
      assert values[i..][1..] == values[i + 1..] && lengths[i..][1..] == lengths[i + 1..];
      EncodingsStep(values[i..], lengths[i..], rest);
      var value, n := PeekAndRead(reader, values[i], lengths[i], tail);
      read, peeked := read + [value], peeked + [n];
    }
    assert [] + rest == rest;
  }

  /** Any list of values of at most 62 bits, each written in the length asked for or in the shortest,
      is read back as the same list, and the lengths seen before reading are those written. */
  method WriteAndReadBack(values: seq<bv64>, forced: seq<Option<VarIntLength>>)
    returns (ok: bool, read: seq<bv64>, peeked: seq<VarIntLength>)
    requires |values| == |forced| && forall k :: 0 <= k < |values| ==> values[k] <= MAX_VALUE
    ensures ok <==> forall k :: 0 <= k < |values| ==> Fits(values[k], LengthUsed(values[k], forced[k]))
    ensures ok ==> read == values && peeked == LengthsUsed(values, forced)
  {
    hide Encoding, GetVarInt62Len, Fits, Largest, Encodings;
    read, peeked := [], [];
    var writer := new QuicDataWriter(8 * |values|, NetworkByteOrder);
    ok := WriteAll(writer, values, forced);
    if ok {
      ghost var lengths := LengthsUsed(values, forced);
      forall k | 0 <= k < |values| ensures lengths[k] != 0 && values[k] <= Largest(lengths[k]) {
        FitsLargest(values[k], lengths[k]);
      }
      var reader := new QuicDataReader(writer.buffer[..writer.length], NetworkByteOrder);
      assert Encodings(values, lengths) + [] == Encodings(values, lengths);
      read, peeked := ReadAll(reader, |values|, values, lengths, []);
    }
  }
}
