/** Variable-length integers, as section 16 of RFC 9000 defines them: the two most significant bits of
    the first byte give the length, and the other bits, in network byte order, the value. */
module QuicVarInt62 {

  const MAX_VALUE: bv64 := 0x3fff_ffff_ffff_ffff
  const ERROR_MASK: bv64 := 0xc000_0000_0000_0000
  const MASK_8_BYTES: bv64 := 0x3fff_ffff_c000_0000
  const MASK_4_BYTES: bv64 := 0x3fff_c000
  const MASK_2_BYTES: bv64 := 0x3fc0

  /** The lengths there are; zero stands for none. */
  type VarIntLength = n: nat | n in {0, 1, 2, 4, 8}

  /** The largest value that fits a length. */
  function Largest(n: VarIntLength): bv64
    requires n != 0
  {
    if n == 1 then 0x3f else if n == 2 then 0x3fff else if n == 4 then 0x3fff_ffff else MAX_VALUE
  }

  /** The length that the first byte announces. */
  function LengthOf(first: bv8): (n: VarIntLength)
    ensures n != 0
  {
    var k := first >> 6;
    if k == 0 then 1 else if k == 1 then 2 else if k == 2 then 4 else 8
  }

  /** Bytes as a number in network byte order. */
  function Number(s: seq<bv8>): bv64 {
    if s == [] then 0 else Joined(Number(s[..|s| - 1]), s[|s| - 1])
  }

  function Joined(high: bv64, low: bv8): bv64 {
    (high << 8) | (low as bv64)
  }

  /** What the bytes at the front of s stand for, when all that are announced are there. */
  function Meaning(s: seq<bv8>): bv64
    requires s != [] && LengthOf(s[0]) <= |s|
  {
    Number([Payload(s[0])] + s[1..LengthOf(s[0])])
  }

  predicate Complete(s: seq<bv8>) {
    s != [] && LengthOf(s[0]) <= |s|
  }

  function Low(v: bv64, shift: nat): bv8
    requires shift <= 56
  {
    ((v >> shift) & 0xff) as bv8
  }

  /** The six value bits of a first byte. */
  function Payload(first: bv8): bv8 {
    first & 0x3f
  }

  /** A first byte with its two length bits. */
  function Tagged(tag: bv8, bits: bv8): bv8 {
    tag + (bits & 0x3f)
  }

  /** The bits of v that n bytes have room for. */
  function Kept(v: bv64, n: VarIntLength): bv64
    requires n != 0
  {
    v & Largest(n)
  }

  /** v in n bytes: the length in the first two bits, then the low bits of v. */
  function Encoding(v: bv64, n: VarIntLength): (s: seq<bv8>)
    requires n != 0
    ensures |s| == n
  {
    if n == 1 then [Tagged(0, Low(v, 0))]
    else if n == 2 then [Tagged(0x40, Low(v, 8)), Low(v, 0)]
    else if n == 4 then [Tagged(0x80, Low(v, 24)), Low(v, 16), Low(v, 8), Low(v, 0)]
    else [Tagged(0xc0, Low(v, 56)), Low(v, 48), Low(v, 40), Low(v, 32), Low(v, 24), Low(v, 16), Low(v, 8), Low(v, 0)]
  }

  // The sums of shifted bytes that the reader computes, two to eight bytes at a time.

  function Sum2(a: bv8, b: bv8): bv64 {
    ((a as bv64) << 8) + (b as bv64)
  }

  function Sum4(a: bv8, b: bv8, c: bv8, d: bv8): bv64 {
    ((a as bv64) << 24) + ((b as bv64) << 16) + ((c as bv64) << 8) + (d as bv64)
  }

  function Sum8(a: bv8, b: bv8, c: bv8, d: bv8, e: bv8, f: bv8, g: bv8, h: bv8): bv64 {
    ((a as bv64) << 56) + ((b as bv64) << 48) + ((c as bv64) << 40) + ((d as bv64) << 32)
    + ((e as bv64) << 24) + ((f as bv64) << 16) + ((g as bv64) << 8) + (h as bv64)
  }

  lemma Join1(a: bv8)
    ensures Joined(0, a) == a as bv64
  {
  }

  lemma Join2(a: bv8, b: bv8)
    ensures Joined(Joined(0, a), b) == Sum2(a, b)
  {
  }

  lemma Join4(a: bv8, b: bv8, c: bv8, d: bv8)
    ensures Joined(Joined(Joined(Joined(0, a), b), c), d) == Sum4(a, b, c, d)
  {
  }

  lemma Join8(a: bv8, b: bv8, c: bv8, d: bv8, e: bv8, f: bv8, g: bv8, h: bv8)
    ensures Joined(Joined(Joined(Joined(Joined(Joined(Joined(Joined(0, a), b), c), d), e), f), g), h) == Sum8(a, b, c, d, e, f, g, h)
  {
  }

  lemma Number4(a: bv8, b: bv8, c: bv8, d: bv8)
    ensures Number([a]) == Joined(0, a)
    ensures Number([a, b]) == Joined(Joined(0, a), b)
    ensures Number([a, b, c, d]) == Joined(Joined(Joined(Joined(0, a), b), c), d)
  {
    hide Joined;
    assert [a][..0] == [] && [a, b][..1] == [a] && [a, b, c][..2] == [a, b] && [a, b, c, d][..3] == [a, b, c];
  }

  lemma Number8(s: seq<bv8>)
    requires |s| == 8
    ensures Number(s) == Joined(Joined(Joined(Joined(Joined(Joined(Joined(Joined(0, s[0]), s[1]), s[2]), s[3]), s[4]), s[5]), s[6]), s[7])
  {
    hide Joined;
    var t4, t5, t6, t7 := s[..4], s[..5], s[..6], s[..7];
    assert t4 == [s[0], s[1], s[2], s[3]];
    Number4(s[0], s[1], s[2], s[3]);
    assert t7[..6] == t6 && t6[..5] == t5 && t5[..4] == t4;
    assert Number(t5) == Joined(Number(t4), s[4]);
    assert Number(t6) == Joined(Number(t5), s[5]);
    assert Number(t7) == Joined(Number(t6), s[6]);
  }

  /** The four cases of reading. */
  lemma MeaningByLength(s: seq<bv8>)
    requires Complete(s)
    ensures LengthOf(s[0]) == 1 ==> Meaning(s) == Payload(s[0]) as bv64
    ensures LengthOf(s[0]) == 2 ==> Meaning(s) == Sum2(Payload(s[0]), s[1])
    ensures LengthOf(s[0]) == 4 ==> Meaning(s) == Sum4(Payload(s[0]), s[1], s[2], s[3])
    ensures LengthOf(s[0]) == 8 ==> Meaning(s) == Sum8(Payload(s[0]), s[1], s[2], s[3], s[4], s[5], s[6], s[7])
  {
    hide Joined, LengthOf, Sum2, Sum4, Sum8, Number, Payload;
    var n := LengthOf(s[0]);
    var a := Payload(s[0]);
    var t := [a] + s[1..n];
    if n == 1 {
      assert t == [a];
      Number4(a, 0, 0, 0);
      Join1(a);
    } else if n == 2 {
      assert t == [a, s[1]];
      Number4(a, s[1], 0, 0);
      Join2(a, s[1]);
    } else if n == 4 {
      assert t == [a, s[1], s[2], s[3]];
      Number4(a, s[1], s[2], s[3]);
      Join4(a, s[1], s[2], s[3]);
    } else {
      assert t == [a, s[1], s[2], s[3], s[4], s[5], s[6], s[7]];
      Number8(t);
      Join8(a, s[1], s[2], s[3], s[4], s[5], s[6], s[7]);
    }
  }

  // What reading makes of written bytes, bit by bit.

  lemma Bits1(v: bv64)
    ensures Payload(Tagged(0, Low(v, 0))) as bv64 == Kept(v, 1) && LengthOf(Tagged(0, Low(v, 0))) == 1
  {
  }

  lemma Bits2(v: bv64)
    ensures Sum2(Payload(Tagged(0x40, Low(v, 8))), Low(v, 0)) == Kept(v, 2) && LengthOf(Tagged(0x40, Low(v, 8))) == 2
  {
  }

  lemma Bits4(v: bv64)
    ensures Sum4(Payload(Tagged(0x80, Low(v, 24))), Low(v, 16), Low(v, 8), Low(v, 0)) == Kept(v, 4)
    ensures LengthOf(Tagged(0x80, Low(v, 24))) == 4
  {
  }

  lemma Bits8(v: bv64)
    ensures Sum8(Payload(Tagged(0xc0, Low(v, 56))), Low(v, 48), Low(v, 40), Low(v, 32), Low(v, 24), Low(v, 16), Low(v, 8), Low(v, 0))
      == Kept(v, 8)
    ensures LengthOf(Tagged(0xc0, Low(v, 56))) == 8
  {
  }

  /** Reading what was written in n bytes keeps the bits that n bytes hold, so it gives the value back
      exactly when it fits in n bytes. */
  lemma MeaningOfEncoding(v: bv64, n: VarIntLength, rest: seq<bv8>)
    requires n != 0
    ensures Complete(Encoding(v, n) + rest) && LengthOf((Encoding(v, n) + rest)[0]) == n
    ensures Meaning(Encoding(v, n) + rest) == Kept(v, n)
    ensures Meaning(Encoding(v, n) + rest) == v <==> v <= Largest(n)
  {
    hide Low, Number, LengthOf, Sum2, Sum4, Sum8, Meaning, Payload, Tagged, Kept, Largest;
    var s := Encoding(v, n) + rest;
    assert forall k :: 0 <= k < n ==> s[k] == Encoding(v, n)[k];
    if n == 1 {
      Bits1(v);
    } else if n == 2 {
      Bits2(v);
    } else if n == 4 {
      Bits4(v);
    } else {
      Bits8(v);
    }
    MeaningByLength(s);
    KeptBits(v, n);
  }

  lemma Mask1(v: bv64)
    ensures v & 0x3f == v <==> v <= 0x3f
  {
  }

  lemma Mask2(v: bv64)
    ensures v & 0x3fff == v <==> v <= 0x3fff
  {
  }

  lemma Mask4(v: bv64)
    ensures v & 0x3fff_ffff == v <==> v <= 0x3fff_ffff
  {
  }

  lemma Mask8(v: bv64)
    ensures v & 0x3fff_ffff_ffff_ffff == v <==> v <= 0x3fff_ffff_ffff_ffff
  {
  }

  lemma KeptBits(v: bv64, n: VarIntLength)
    requires n != 0
    ensures Kept(v, n) == v <==> v <= Largest(n)
  {
    if n == 1 {
      Mask1(v);
    } else if n == 2 {
      Mask2(v);
    } else if n == 4 {
      Mask4(v);
    } else {
      Mask8(v);
    }
  }

  lemma Unbits1(a: bv8)
    requires LengthOf(a) == 1
    ensures var v := Payload(a) as bv64; v <= 0x3f && Tagged(0, Low(v, 0)) == a
  {
  }

  lemma Unbits2(a: bv8, b: bv8)
    requires LengthOf(a) == 2
    ensures var v := Sum2(Payload(a), b); v <= 0x3fff && Tagged(0x40, Low(v, 8)) == a && Low(v, 0) == b
  {
  }

  lemma Unbits4(a: bv8, b: bv8, c: bv8, d: bv8)
    requires LengthOf(a) == 4
    ensures var v := Sum4(Payload(a), b, c, d);
      v <= 0x3fff_ffff && Tagged(0x80, Low(v, 24)) == a && Low(v, 16) == b && Low(v, 8) == c && Low(v, 0) == d
  {
  }

  lemma Unbits8(a: bv8, b: bv8, c: bv8, d: bv8, e: bv8, f: bv8, g: bv8, h: bv8)
    requires LengthOf(a) == 8
    ensures var v := Sum8(Payload(a), b, c, d, e, f, g, h);
      && v <= MAX_VALUE && Tagged(0xc0, Low(v, 56)) == a && Low(v, 48) == b && Low(v, 40) == c && Low(v, 32) == d
      && Low(v, 24) == e && Low(v, 16) == f && Low(v, 8) == g && Low(v, 0) == h
  {
  }

  /** There is one way to write a value in a given number of bytes: writing what was read gives the
      bytes back. */
  lemma EncodingOfMeaning(s: seq<bv8>)
    requires Complete(s)
    ensures Meaning(s) <= Largest(LengthOf(s[0]))
    ensures Encoding(Meaning(s), LengthOf(s[0])) == s[..LengthOf(s[0])]
  {
    hide Low, Number, LengthOf, Sum2, Sum4, Sum8, Meaning, Payload, Tagged;
    MeaningByLength(s);
    var n := LengthOf(s[0]);
    if n == 1 {
      Unbits1(s[0]);
    } else if n == 2 {
      Unbits2(s[0], s[1]);
    } else if n == 4 {
      Unbits4(s[0], s[1], s[2], s[3]);
    } else {
      Unbits8(s[0], s[1], s[2], s[3], s[4], s[5], s[6], s[7]);
    }
  }

  predicate HasBits(v: bv64, mask: bv64) {
    v & mask != 0
  }

  // Each mask, checked in order, picks out the values that need more than the next length.

  lemma ErrorMask(v: bv64)
    ensures HasBits(v, ERROR_MASK) <==> v > 0x3fff_ffff_ffff_ffff
  {
  }

  lemma EightMask(v: bv64)
    requires v <= 0x3fff_ffff_ffff_ffff
    ensures HasBits(v, MASK_8_BYTES) <==> v > 0x3fff_ffff
  {
  }

  lemma FourMask(v: bv64)
    requires v <= 0x3fff_ffff
    ensures HasBits(v, MASK_4_BYTES) <==> v > 0x3fff
  {
  }

  lemma TwoMask(v: bv64)
    requires v <= 0x3fff
    ensures HasBits(v, MASK_2_BYTES) <==> v > 0x3f
  {
  }

  /** The masks pick the shortest length that a value fits; none is given when it fits none. */
  function GetVarInt62Len(value: bv64): (n: VarIntLength)
    ensures n == 0 <==> value > MAX_VALUE
    ensures n != 0 ==> value <= Largest(n)
    ensures forall m: VarIntLength :: m != 0 && value <= Largest(m) ==> n <= m
  {
    hide HasBits;
    ErrorMask(value);
    if HasBits(value, ERROR_MASK) then 0
    else
      EightMask(value);
      if HasBits(value, MASK_8_BYTES) then 8
      else
        FourMask(value);
        if HasBits(value, MASK_4_BYTES) then 4
        else
          TwoMask(value);
          if HasBits(value, MASK_2_BYTES) then 2
          else 1
  }
}
