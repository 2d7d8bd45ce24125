/** The unsigned 16-bit floating point format: 5 bits of exponent, 11 of mantissa, and a hidden bit. */
module QuicUFloat16 {
  import opened Wrappers

  const MAX_EXPONENT: nat := 30
  const MAX_VALUE: nat := 0x3FFC0000000

  type uint16 = x: int | 0 <= x < 0x1_0000
  type uint64 = x: int | 0 <= x < 0x1_0000_0000_0000_0000

  /** The value a 16-bit pattern stands for: the bits themselves while the exponent field is at most
      one, and otherwise the mantissa with its hidden bit, shifted left. */
  function Decoded(w: uint16): nat {
    if w < 0x1000 then w else
      var exponent := w / 0x800 - 1;
      (w - exponent * 0x800) * Pow2(exponent)
  }

  lemma Spacing(w: uint16)
    requires w >= 0x800
    ensures var e := w / 0x800 - 1; e <= MAX_EXPONENT && Decoded(w) == (w - e * 0x800) * Pow2(e)
    ensures w < 0xffff ==> Decoded(w + 1) == Decoded(w) + Pow2(w / 0x800 - 1)
  {
    var e := w / 0x800 - 1;
    var m := w - e * 0x800;
    assert Pow2(0) == 1;
    assert 0x800 <= m < 0x1000;
    if m + 1 == 0x1000 {
      assert (w + 1) / 0x800 - 1 == e + 1;
      assert 0x800 * Pow2(e + 1) == 0x1000 * Pow2(e);
    }
    Distribute(m, Pow2(e));
  }

  lemma Distribute(m: nat, p: nat)
    ensures (m + 1) * p == m * p + p
  {
  }

  lemma StrictlyIncreasingStep(w: uint16)
    requires w < 0xffff
    ensures Decoded(w) < Decoded(w + 1)
  {
    if w >= 0x800 {
      Spacing(w);
    }
  }

  lemma {:induction false} StrictlyIncreasing(w: uint16, w': uint16)
    requires w < w'
    ensures Decoded(w) < Decoded(w')
    decreases w' - w
  {
    StrictlyIncreasingStep(w' - 1);
    if w < w' - 1 {
      StrictlyIncreasing(w, w' - 1);
    }
  }

  lemma Largest()
    ensures Decoded(0xffff) == MAX_VALUE
  {
    Pow2Values();
  }

  lemma Pow2Values()
    ensures Pow2(1) == 2 && Pow2(2) == 4 && Pow2(4) == 16 && Pow2(8) == 256
    ensures Pow2(10) == 0x400 && Pow2(16) == 0x1_0000 && Pow2(30) == 0x4000_0000
  {
    assert Pow2(3) == 2 * Pow2(2);
    assert Pow2(5) == 2 * Pow2(4);
    assert Pow2(7) == 2 * Pow2(6);
    assert Pow2(9) == 2 * Pow2(8);
    Pow2Plus(8, 8);
    Pow2Plus(10, 10);
    Pow2Plus(20, 10);
  }

  lemma {:induction false} Pow2Plus(a: nat, b: nat)
    ensures Pow2(a + b) == Pow2(a) * Pow2(b)
  {
    if a > 0 {
      Pow2Plus(a - 1, b);
    }
  }

  /** Searches down from a pattern for the largest whose value is not above v. */
  function GreatestBelow(v: nat, w: uint16): (r: uint16)
    ensures r <= w && Decoded(r) <= v
    ensures forall x: uint16 :: r < x <= w ==> Decoded(x) > v
  {
    if Decoded(w) <= v then w else GreatestBelow(v, w - 1)
  }

  /** What a value is written as: the greatest representable value that is not above it. */
  function Encoded(v: nat): (w: uint16)
    ensures Decoded(w) <= v
    ensures forall x: uint16 :: Decoded(x) <= v ==> x <= w && Decoded(x) <= Decoded(w)
  {
    var w := GreatestBelow(v, 0xffff);
    assert forall x: uint16 :: Decoded(x) <= v ==> x <= w && Decoded(x) <= Decoded(w) by {
      forall x: uint16 | Decoded(x) <= v ensures x <= w && Decoded(x) <= Decoded(w) {
        if x < w {
          StrictlyIncreasing(x, w);
        }
      }
    }
    w
  }

  /** A pattern is what v is written as when v lies between its value and the next. */
  lemma EncodedBetween(v: nat, w: uint16)
    requires Decoded(w) <= v && (w < 0xffff ==> v < Decoded(w + 1))
    ensures Encoded(v) == w
  {
    if Encoded(v) > w {
      if Encoded(v) > w + 1 {
        StrictlyIncreasing(w + 1, Encoded(v));
      }
    }
  }

  /** Reading a pattern and writing the value gives the pattern back. */
  lemma EncodedDecoded(w: uint16)
    ensures Encoded(Decoded(w)) == w
  {
    if w < 0xffff {
      StrictlyIncreasingStep(w);
    }
    EncodedBetween(Decoded(w), w);
  }

  /** Larger values are never written as smaller patterns. */
  lemma EncodedMonotone(v: nat, v': nat)
    requires v <= v'
    ensures Encoded(v) <= Encoded(v')
  {
  }

  lemma RoundedDown(v: nat)
    requires 0x1000 <= v < MAX_VALUE
    ensures (v - Decoded(Encoded(v))) * 0x800 <= Decoded(Encoded(v))
  {
    Largest();
    var w := Encoded(v);
    Spacing(0x1000);
    Spacing(0xfff);
    assert Decoded(0xfff) == 0xfff && Pow2(0) == 1;
    hide Decoded, Encoded, Pow2;
    assert 0x1000 <= w < 0xffff;
    Spacing(w);
    var e := w / 0x800 - 1;
    MulAtLeast(w - e * 0x800, Pow2(e));
  }

  /** A value within range loses less than one part in 2^11; small values are exact, and values out of
      range are clamped. */
  lemma RoundingError(v: nat)
    ensures v < 0x1000 ==> Decoded(Encoded(v)) == v
    ensures v >= MAX_VALUE ==> Decoded(Encoded(v)) == MAX_VALUE
    ensures v < MAX_VALUE ==> (v - Decoded(Encoded(v))) * 0x800 <= Decoded(Encoded(v))
  {
    if v < 0x1000 {
      EncodedDecoded(v);
    } else if v >= MAX_VALUE {
      Largest();
      EncodedBetween(v, 0xffff);
    } else {
      RoundedDown(v);
    }
  }

  lemma MulAtLeast(m: nat, p: nat)
    requires m >= 0x800
    ensures m * p >= 0x800 * p
  {
  }

  /** value is v with exponent low bits shifted out. */
  predicate ShiftedFrom(v: nat, value: nat, exponent: nat) {
    value * Pow2(exponent) <= v < (value + 1) * Pow2(exponent)
  }

  lemma ScaleMore(v: nat, value: nat, p: nat, q: nat)
    requires q > 0 && value * p <= v < (value + 1) * p
    ensures value / q * (p * q) <= v < (value / q + 1) * (p * q)
  {
    var value' := value / q;
    Split(value, q);
    MulMono(value' * q, value, p);
    MulMono(value + 1, (value' + 1) * q, p);
    Regroup(value', p, q);
    Regroup(value' + 1, p, q);
  }

  lemma ShiftMore(v: nat, value: nat, exponent: nat, offset: nat)
    requires ShiftedFrom(v, value, exponent)
    ensures ShiftedFrom(v, value / Pow2(offset), exponent + offset)
  {
    Pow2Plus(exponent, offset);
    ScaleMore(v, value, Pow2(exponent), Pow2(offset));
  }

  lemma Split(value: nat, q: nat)
    requires q > 0
    ensures value / q * q <= value && value + 1 <= (value / q + 1) * q
  {
  }

  lemma MulMono(a: nat, b: nat, p: nat)
    requires a <= b
    ensures a * p <= b * p
  {
  }

  lemma Regroup(a: nat, p: nat, q: nat)
    ensures a * (p * q) == (a * q) * p
  {
  }

  lemma DivideBounds(value: nat, q: nat)
    requires q > 0 && value >= 0x800 * q
    ensures value / q >= 0x800
    ensures value < 0x800 * (q * q) ==> value / q < 0x800 * q
  {
    Split(value, q);
    if value / q < 0x800 {
      MulMono(value / q + 1, 0x800, q);
    }
    if value / q >= 0x800 * q {
      MulMono(0x800 * q, value / q, q);
      Regroup(0x800, q, q);
    }
  }

  lemma ShiftBounds(value: nat, offset: nat)
    requires value >= 0x800 * Pow2(offset)
    ensures value / Pow2(offset) >= 0x800
    ensures value < 0x800 * Pow2(2 * offset) ==> value / Pow2(offset) < 0x800 * Pow2(offset)
  {
    Pow2Plus(offset, offset);
    DivideBounds(value, Pow2(offset));
  }

  /** A value brought down to its top twelve bits, with the number of shifts, makes the pattern. */
  lemma Packed(v: nat, value: nat, exponent: nat)
    requires ShiftedFrom(v, value, exponent) && 0x800 <= value < 0x1000 && v < MAX_VALUE
    ensures exponent <= MAX_EXPONENT && Encoded(v) == value + exponent * 0x800
  {
    if exponent > MAX_EXPONENT {
      Pow2Values();
      Pow2Plus(MAX_EXPONENT + 1, exponent - (MAX_EXPONENT + 1));
      assert Pow2(MAX_EXPONENT + 1) == 2 * Pow2(MAX_EXPONENT);
      MulMono(1, Pow2(exponent - (MAX_EXPONENT + 1)), Pow2(MAX_EXPONENT + 1));
      MulMono(0x800, value, Pow2(exponent));
      assert false;
    }
    var w: uint16 := value + exponent * 0x800;
    assert w / 0x800 - 1 == exponent && w - exponent * 0x800 == value;
    Spacing(w);
    Distribute(value, Pow2(exponent));
    EncodedBetween(v, w);
  }
}
