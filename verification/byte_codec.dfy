/** The simulator's conversion between register values and little-endian memory bytes
    (`doubleToBytes` and `bytesToDouble`); `Cache.initializeMemory` encodes the same way. */
module ByteCodec {
  import opened JavaInt

  function Pow2(k: nat): (r: nat)
    ensures r >= 1
  {
    if k == 0 then 1 else 2 * Pow2(k - 1)
  }

  function Pow256(n: nat): (r: nat)
    ensures r >= 1
  {
    if n == 0 then 1 else 256 * Pow256(n - 1)
  }

  /** Powers of two add in the exponent. */
  lemma {:induction false} Pow2Add(a: nat, b: nat)
    ensures Pow2(a + b) == Pow2(a) * Pow2(b)
    decreases a
  {
    if a > 0 {
      Pow2Add(a - 1, b);
      assert Pow2(a + b) == 2 * Pow2(a - 1 + b);
    }
  }

  /** A power of 256 is the power of two with eight times the exponent: `n` bytes hold `8 * n` bits. */
  lemma {:induction false} Pow256IsPow2(n: nat)
    ensures Pow256(n) == Pow2(8 * n)
    decreases n
  {
    if n > 0 {
      Pow256IsPow2(n - 1);
      Pow2Add(8, 8 * (n - 1));
      assert 8 * n == 8 + 8 * (n - 1);
      assert Pow2(8) == 256;
    }
  }

  /** Byte `i` of the long `x`: `(x >> (8 * i)) & 0xFF`, where Java masks the shift distance to six bits. */
  function ByteOf(x: int, i: nat): Byte {
    ((x / Pow2((8 * i) % 64)) % 256) as Byte
  }

  /** `doubleToBytes(value, size)`: the value is narrowed to a long, then written least significant byte first. */
  function Encode(value: int, size: nat): (r: seq<Byte>)
    ensures |r| == size
  {
    var x := LongOf(value);
    seq(size, i requires 0 <= i < size => ByteOf(x, i))
  }

  /** The unsigned little-endian number formed by the first `n` bytes. */
  function Unsigned(bytes: seq<Byte>, n: nat): (r: nat)
    requires n <= |bytes|
    ensures r < Pow256(n)
  {
    if n == 0 then 0
    else
      var lo := Unsigned(bytes, n - 1);
      var p := Pow256(n - 1);
      var b := bytes[n - 1] as int;
      assert b * p <= 255 * p by { MulLeq(b, 255, p); }
      lo + b * p
  }

  lemma MulLeq(a: nat, b: nat, c: nat)
    requires a <= b
    ensures a * c <= b * c
  {}

  /** `bytesToDouble(bytes, size)`: at most `size` bytes are or-ed into a long, least significant
      first; eight bytes fill the long, so the top bit is its sign. */
  function Decode(bytes: seq<Byte>, size: int): (r: int)
    requires size <= 8
    ensures LONG_MIN <= r <= LONG_MAX
    ensures size <= 0 ==> r == 0
  {
    var len := Min(size, |bytes|);
    if len <= 0 then 0
    else
      var u := Unsigned(bytes, len);
      assert Pow256(len) <= Pow256(8) by { Pow256Monotone(len, 8); }
      if u > LONG_MAX then u - Pow256(8) else u
  }

  lemma {:induction false} Pow256Monotone(m: nat, n: nat)
    requires m <= n
    ensures Pow256(m) <= Pow256(n)
    decreases n
  {
    if m < n { Pow256Monotone(m, n - 1); }
  }

  lemma {:induction false} Pow2OfBytes(i: nat)
    ensures Pow2(8 * i) == Pow256(i)
  {
    if i > 0 {
      Pow2OfBytes(i - 1);
      assert Pow2(8 * i) == 256 * Pow2(8 * (i - 1)) by {
        var k := 8 * (i - 1);
        assert 8 * i == k + 8;
        assert Pow2(k + 8) == 256 * Pow2(k) by { Pow2Add8(k); }
      }
    }
  }

  lemma Pow2Add8(k: nat)
    ensures Pow2(k + 8) == 256 * Pow2(k)
  {
    assert Pow2(k + 8) == 2 * Pow2(k + 7);
    assert Pow2(k + 7) == 2 * Pow2(k + 6);
    assert Pow2(k + 6) == 2 * Pow2(k + 5);
    assert Pow2(k + 5) == 2 * Pow2(k + 4);
    assert Pow2(k + 4) == 2 * Pow2(k + 3);
    assert Pow2(k + 3) == 2 * Pow2(k + 2);
    assert Pow2(k + 2) == 2 * Pow2(k + 1);
    assert Pow2(k + 1) == 2 * Pow2(k);
  }

  /** Splitting a remainder by a product: the digit at position `a` joins the lower remainder. */
  lemma ModOfProduct(x: int, a: nat, b: nat)
    requires a > 0 && b > 0
    ensures x % (a * b) == x % a + ((x / a) % b) * a
  {
    var q := x / a;
    var r := x % a;
    var lo := r + (q % b) * a;
    assert x == a * q + r;
    assert q == b * (q / b) + q % b;
    assert x == (a * b) * (q / b) + lo by {
      assert a * q == a * (b * (q / b)) + a * (q % b);
      assert a * (b * (q / b)) == (a * b) * (q / b);
    }
    assert 0 <= lo < a * b by {
      assert (q % b) * a <= (b - 1) * a;
      assert (b - 1) * a == a * b - a;
    }
    DivModUnique(x, a * b, q / b, lo);
  }

  lemma DivModUnique(x: int, m: nat, d: int, r: int)
    requires m > 0 && x == m * d + r && 0 <= r < m
    ensures x % m == r
  {
    var k := x / m - d;
    assert m * k == r - x % m;
    MulAwayFromZero(m, k);
  }

  lemma MulAwayFromZero(m: int, k: int)
    requires m > 0
    ensures k >= 1 ==> m * k >= m
    ensures k <= -1 ==> m * k <= -m
  {}

  /** The first `n` (at most eight) encoded bytes spell the long's value modulo 256^n. */
  lemma {:induction false} UnsignedOfEncode(value: int, n: nat)
    requires n <= 8
    ensures Unsigned(Encode(value, n), n) == LongOf(value) % Pow256(n)
  {
    if n > 0 {
      var x := LongOf(value);
      var e := Encode(value, n);
      var e' := Encode(value, n - 1);
      var p := Pow256(n - 1);
      assert e[..n - 1] == e';
      UnsignedPrefix(e, e', n - 1);
      UnsignedOfEncode(value, n - 1);
      assert e[n - 1] as int == (x / p) % 256 by { ByteOfLow(x, n - 1); }
      assert Unsigned(e, n) == x % p + ((x / p) % 256) * p;
      ModOfProduct(x, p, 256);
      assert Pow256(n) == p * 256;
    }
  }

  lemma ByteOfLow(x: int, i: nat)
    requires i < 8
    ensures ByteOf(x, i) as int == (x / Pow256(i)) % 256
  {
    assert (8 * i) % 64 == 8 * i;
    Pow2OfBytes(i);
    var v := (x / Pow256(i)) % 256;
    assert ByteOf(x, i) == v as Byte;
  }

  lemma {:induction false} UnsignedPrefix(a: seq<Byte>, b: seq<Byte>, n: nat)
    requires n <= |a| && n <= |b| && a[..n] == b[..n]
    ensures Unsigned(a, n) == Unsigned(b, n)
  {
    if n > 0 {
      assert a[n - 1] == a[..n][n - 1] == b[..n][n - 1] == b[n - 1];
      assert a[..n - 1] == a[..n][..n - 1];
      assert b[..n - 1] == b[..n][..n - 1];
      UnsignedPrefix(a, b, n - 1);
    }
  }

  /** Storing eight bytes and loading them back returns the (long-narrowed) value, sign included. */
  lemma {:induction false} DecodeEncodeLong(value: int)
    ensures Decode(Encode(value, 8), 8) == LongOf(value)
  {
    var x := LongOf(value);
    UnsignedOfEncode(value, 8);
    assert Pow256(8) == 0x1_0000_0000_0000_0000;
    if x < 0 {
      DivModUnique(x, Pow256(8), -1, x + Pow256(8));
    } else {
      DivModUnique(x, Pow256(8), 0, x);
    }
  }

  /** A value that fits in `size` bytes (and in a long) survives the store/load round trip. */
  lemma {:induction false} DecodeEncode(value: int, size: nat)
    requires size <= 8
    requires 0 <= value < Pow256(size) && value <= LONG_MAX
    ensures Decode(Encode(value, size), size) == value
  {
    UnsignedOfEncode(value, size);
    DivModUnique(value, Pow256(size), 0, value);
  }
}
