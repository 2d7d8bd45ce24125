/** Unsigned integers in network byte order, of any width. */
module BigEndian {

  type byte = x: int | 0 <= x < 256

  function Pow256(n: nat): (r: nat)
    ensures r > 0
  {
    if n == 0 then 1 else 256 * Pow256(n - 1)
  }

  /** The integer a byte string stands for, most significant byte first. */
  function Value(s: seq<byte>): (r: nat)
    ensures r < Pow256(|s|)
  {
    if s == [] then 0 else Value(s[..|s| - 1]) * 256 + s[|s| - 1]
  }

  /** The n low-order bytes of v, most significant first. */
  function Bytes(v: nat, n: nat): (s: seq<byte>)
    ensures |s| == n
  {
    if n == 0 then [] else Bytes(v / 256, n - 1) + [v % 256]
  }

  /** The last n of m bytes are the n low-order bytes. */
  lemma {:induction false} LowBytes(v: nat, m: nat, n: nat)
    requires n <= m
    ensures Bytes(v, m)[m - n..] == Bytes(v, n)
  {
    if n > 0 {
      LowBytes(v / 256, m - 1, n - 1);
      assert Bytes(v, m)[m - n..] == Bytes(v / 256, m - 1)[m - n..] + [v % 256];
    }
  }

  /** Writing n bytes and reading them back keeps v modulo 256^n. */
  lemma {:induction false} ValueBytes(v: nat, n: nat)
    ensures Value(Bytes(v, n)) == v % Pow256(n)
  {
    if n > 0 {
      var p := Pow256(n - 1);
      ValueBytes(v / 256, n - 1);
      assert Bytes(v, n)[..n - 1] == Bytes(v / 256, n - 1);
      ModStep(v, p);
    } else {
      ModUnique(v, 1, v, 0);
    }
  }

  lemma ModStep(v: nat, p: nat)
    requires p > 0
    ensures 256 * p > 0 && v % (256 * p) == v / 256 % p * 256 + v % 256
  {
    var q, r := v / 256 / p, v / 256 % p;
    var pq := p * q;
    assert v / 256 == pq + r;
    assert 256 * p * q == 256 * pq;
    ModUnique(v, 256 * p, q, 256 * r + v % 256);
  }

  lemma {:induction false} BytesValue(s: seq<byte>)
    ensures Bytes(Value(s), |s|) == s
  {
    if s != [] {
      var init := s[..|s| - 1];
      BytesValue(init);
      assert Value(s) / 256 == Value(init) && Value(s) % 256 == s[|s| - 1];
      assert s == init + [s[|s| - 1]];
    }
  }

  /** Values that fit round-trip exactly. */
  lemma ValueBytesExact(v: nat, n: nat)
    requires v < Pow256(n)
    ensures Value(Bytes(v, n)) == v
  {
    ValueBytes(v, n);
    ModUnique(v, Pow256(n), 0, v);
  }

  lemma ModUnique(x: int, m: nat, q: int, r: nat)
    requires m > 0 && x == m * q + r && r < m
    ensures x % m == r && x / m == q
  {
    var d := x / m - q;
    assert x == m * (x / m) + x % m;
    assert m * d == r - x % m;
    if d >= 1 {
      MulMono(m, 1, d);
      assert false;
    } else if d <= -1 {
      MulMono(m, d, -1);
      assert false;
    }
  }

  lemma MulMono(m: nat, a: int, b: int)
    requires a <= b
    ensures m * a <= m * b
  {
  }

  lemma Pow256Values()
    ensures Pow256(1) == 0x100 && Pow256(2) == 0x1_0000 && Pow256(3) == 0x100_0000
    ensures Pow256(4) == 0x1_0000_0000 && Pow256(8) == 0x1_0000_0000_0000_0000
  {
    assert Pow256(2) == 256 * Pow256(1);
    assert Pow256(4) == 256 * Pow256(3);
    assert Pow256(6) == 256 * Pow256(5);
    assert Pow256(8) == 256 * Pow256(7);
  }
}
