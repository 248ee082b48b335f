/** Go's fixed-width integer conventions, written out for Dafny's unbounded integers:
    the int64 and uint32/uint64 ranges, truncating division and remainder, the right
    shift used for bucket skew, and truncation of a float toward zero. */
module GoInt {

  const MIN_INT64: int := -0x8000_0000_0000_0000
  const MAX_INT64: int := 0x7FFF_FFFF_FFFF_FFFF
  const MAX_UINT64: int := 0xFFFF_FFFF_FFFF_FFFF

  predicate IsInt64(x: int) {
    MIN_INT64 <= x <= MAX_INT64
  }

  /** The result of murmur3's Sum32. */
  type Uint32 = x: int | 0 <= x < 0x1_0000_0000

  /** An 8-bit byte. */
  type Byte = x: int | 0 <= x < 256

  /** A 64-bit unsigned bit pattern; the model carries float64 values this way. */
  type Bits64 = x: int | 0 <= x <= MAX_UINT64

  function Abs(x: int): nat {
    if x < 0 then -x else x
  }

  /** Go's `a / b` on integers: the quotient truncated toward zero. */
  function Quot(a: int, b: int): (q: int)
    requires b != 0
    ensures Abs(q) == Abs(a) / Abs(b)
    ensures (a >= 0) == (b > 0) ==> q >= 0
    ensures (a >= 0) != (b > 0) ==> q <= 0
  {
    var n := Abs(a) / Abs(b);
    DivNonNegative(Abs(a), Abs(b));
    if (a >= 0) == (b > 0) then n else -n
  }

  lemma DivNonNegative(x: int, y: int)
    requires x >= 0 && y > 0
    ensures x / y >= 0
  {
  }

  /** Go's `a % b` on integers: the remainder has the sign of the dividend. */
  function Rem(a: int, b: int): (r: int)
    requires b != 0
    ensures Abs(r) == Abs(a) % Abs(b)
    ensures a >= 0 ==> r >= 0
    ensures a < 0 ==> r <= 0
  {
    if a >= 0 then Abs(a) % Abs(b) else -(Abs(a) % Abs(b))
  }

  /** Quotient and remainder reassemble the dividend, as Go's specification requires. */
  lemma QuotRemIdentity(a: int, b: int)
    requires b != 0
    ensures a == Quot(a, b) * b + Rem(a, b)
  {
    var q, r := Abs(a) / Abs(b), Abs(a) % Abs(b);
    assert Abs(a) == q * Abs(b) + r;
    if a >= 0 && b > 0 {
    } else if a >= 0 {
      assert Quot(a, b) * b == (-q) * b == q * Abs(b);
    } else if b > 0 {
      assert Quot(a, b) * b == (-q) * b == -(q * Abs(b));
    } else {
      assert Quot(a, b) * b == q * b == -(q * Abs(b));
    }
  }

  /** For a non-negative dividend and a positive divisor, Go and Dafny agree. */
  lemma QuotRemNonNegative(a: int, b: int)
    requires a >= 0 && b > 0
    ensures Quot(a, b) == a / b && Rem(a, b) == a % b
    ensures 0 <= Rem(a, b) < b
  {
  }

  /** `int64(h) >> 16` for a 32-bit hash: the upper 16 bits. */
  function Skew(h: Uint32): (s: int)
    ensures 0 <= s <= 65535
    ensures s * 65536 <= h < (s + 1) * 65536
  {
    h / 65536
  }

  /** Go's conversion of a float64 to an integer, which truncates toward zero. */
  function TruncReal(x: real): (n: int)
    ensures Abs(n) as real <= (if x < 0.0 then -x else x) < Abs(n) as real + 1.0
    ensures n != 0 ==> ((n > 0) <==> (x > 0.0))
  {
    if x >= 0.0 then x.Floor else -((-x).Floor)
  }
}
