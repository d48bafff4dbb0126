/**
 * Java's fixed-width integer semantics, written out over Dafny's unbounded
 * integers: the 32- and 64-bit ranges, the narrowing casts and the
 * truncating `/` and `%` of Java (Dafny's own are Euclidean).
 */
module JavaInts {

  const TWO_32: int := 0x1_0000_0000
  const TWO_64: int := 0x1_0000_0000_0000_0000

  type Int32 = x: int | -0x8000_0000 <= x <= 0x7fff_ffff
  type Int64 = x: int | -0x8000_0000_0000_0000 <= x <= 0x7fff_ffff_ffff_ffff
  type Short = x: int | -0x8000 <= x <= 0x7fff
  type JByte = x: int | -0x80 <= x <= 0x7f

  /** `b & 0xff`: a Java byte read as unsigned. */
  function UnsignedByte(b: JByte): (u: int)
    ensures 0 <= u < 256
    ensures b >= 0 ==> u == b
    ensures b < 0 ==> u == b + 256
  {
    b % 256
  }

  /** Java's `(byte)` cast. */
  function ToJByte(x: int): (r: JByte)
    ensures (r - x) % 256 == 0
  {
    var u := x % 256;
    if u >= 0x80 then u - 256 else u
  }

  predicate IsInt32(x: int) { -0x8000_0000 <= x <= 0x7fff_ffff }

  predicate IsInt64(x: int) { -0x8000_0000_0000_0000 <= x <= 0x7fff_ffff_ffff_ffff }

  /** Java's `(int)` cast of an integral value: keep the low 32 bits, read them signed. */
  function ToInt32(x: int): (r: Int32)
    ensures (r - x) % TWO_32 == 0
    ensures IsInt32(x) ==> r == x
  {
    var u := x % TWO_32;
    if u >= 0x8000_0000 then u - TWO_32 else u
  }

  /** Java's `long` arithmetic: keep the low 64 bits, read them signed. */
  function ToInt64(x: int): (r: Int64)
    ensures (r - x) % TWO_64 == 0
    ensures IsInt64(x) ==> r == x
  {
    var u := x % TWO_64;
    if u >= 0x8000_0000_0000_0000 then u - TWO_64 else u
  }

  /** Values that differ by a multiple of 2^64 have the same 64-bit reading. */
  lemma ToInt64Congruent(a: int, b: int)
    requires (a - b) % TWO_64 == 0
    ensures ToInt64(a) == ToInt64(b)
  {
    assert a % TWO_64 == b % TWO_64 by {
      var k := (a - b) / TWO_64;
      assert a == b + k * TWO_64;
    }
  }

  /** Java's `(short)` cast. */
  function ToShort(x: int): (r: Short)
    ensures (r - x) % 0x1_0000 == 0
    ensures -0x8000 <= x <= 0x7fff ==> r == x
  {
    var u := x % 0x1_0000;
    if u >= 0x8000 then u - 0x1_0000 else u
  }

  /** The 32-bit two's complement pattern of `x`, read as an unsigned number. */
  function Unsigned32(x: Int32): (u: int)
    ensures 0 <= u < TWO_32
    ensures ToInt32(u) == x
  {
    if x < 0 then x + TWO_32 else x
  }

  /** Java's `/` on integers, for the positive divisors the modelled code uses: the quotient truncated toward zero. */
  function TruncDiv(a: int, b: int): int
    requires b > 0
  {
    if a < 0 then -((-a) / b) else a / b
  }

  /** Java's `%` on integers, for positive divisors: the remainder takes the sign of the dividend. */
  function TruncMod(a: int, b: int): int
    requires b > 0
  {
    if a < 0 then -((-a) % b) else a % b
  }

  lemma TruncDivMod(a: int, b: int)
    requires b > 0
    ensures a == TruncDiv(a, b) * b + TruncMod(a, b)
    ensures a >= 0 ==> 0 <= TruncMod(a, b) < b
    ensures a < 0 ==> -b < TruncMod(a, b) <= 0
  {
  }

  /** Values that differ by a multiple of 2^32 have the same 32-bit cast. */
  lemma ToInt32Congruent(a: int, b: int, k: int)
    requires a == b + k * TWO_32
    ensures ToInt32(a) == ToInt32(b)
  {
    assert a % TWO_32 == b % TWO_32;
  }

  /** Two values less than 2^32 apart wrap to the same int only when equal. */
  lemma ToInt32Injective(a: int, b: int)
    requires ToInt32(a) == ToInt32(b) && -TWO_32 < a - b < TWO_32
    ensures a == b
  {
    var u, w := a % TWO_32, b % TWO_32;
    assert u == w;
    assert a == TWO_32 * (a / TWO_32) + u && b == TWO_32 * (b / TWO_32) + w;
    assert a - b == TWO_32 * (a / TWO_32 - b / TWO_32);
  }

  /** Doubling in 32-bit arithmetic step by step agrees with casting the exact double. */
  lemma ToInt32Double(p: int)
    ensures ToInt32(2 * (ToInt32(p) as int)) == ToInt32(2 * p)
  {
    var r := ToInt32(p) as int;
    var k := (r - p) / TWO_32;
    assert r == p + k * TWO_32;
    ToInt32Congruent(2 * r, 2 * p, 2 * k);
  }

  // Small facts of non-linear arithmetic, proved once and called where needed.

  lemma MulMono(x: int, y: int, z: int)
    requires 0 <= x <= y && 0 <= z
    ensures x * z <= y * z
  {
  }

  lemma DivBelow(x: int, d: int, y: int)
    requires d > 0 && 0 <= x <= d * y
    ensures x / d <= y
  {
  }

  lemma DivAbove(x: int, d: int, y: int)
    requires d > 0 && 0 <= y && d * y <= x
    ensures y <= x / d
  {
    var q := x / d;
    assert d * q + x % d == x;
    if q < y {
      MulMono(q + 1, y, d);
      assert false;
    }
  }

  lemma MulDivCancel(n: int, x: int)
    requires n > 0
    ensures n * x / n == x
  {
    var q, r := n * x / n, n * x % n;
    assert n * (x - q) == r;
    if x - q >= 1 {
      MulMono(1, x - q, n);
    } else if x - q <= -1 {
      MulMono(1, q - x, n);
    }
  }
}
