/** Little-endian byte layout of 64-bit words (encoding/binary.LittleEndian). */
module Binary {
  import opened GoInt

  function Pow256(k: nat): (p: nat)
    ensures p >= 1
  {
    if k == 0 then 1 else 256 * Pow256(k - 1)
  }

  /** The unsigned number whose little-endian bytes are `b`. */
  function LittleEndian(b: seq<Byte>): (n: nat)
    ensures n < Pow256(|b|)
  {
    if b == [] then 0 else b[0] + 256 * LittleEndian(b[1..])
  }

  /** The `k` low-order bytes of `n`, least significant first. */
  function PutLittleEndian(n: nat, k: nat): (b: seq<Byte>)
    ensures |b| == k
  {
    if k == 0 then [] else [n % 256] + PutLittleEndian(n / 256, k - 1)
  }

  lemma {:induction false} LittleEndianRoundTrip(n: nat, k: nat)
    requires n < Pow256(k)
    ensures LittleEndian(PutLittleEndian(n, k)) == n
  {
    if k > 0 {
      var b := PutLittleEndian(n, k);
      assert b[1..] == PutLittleEndian(n / 256, k - 1);
      LittleEndianRoundTrip(n / 256, k - 1);
    }
  }

  const TWO_64: nat := 0x1_0000_0000_0000_0000

  lemma Pow256Eight()
    ensures Pow256(8) == TWO_64
  {
  }

  /** An unsigned 64-bit word read from eight little-endian bytes. */
  function Uint64LE(b: seq<Byte>): (n: Bits64)
    requires |b| == 8
  {
    Pow256Eight();
    LittleEndian(b)
  }

  /** A signed 64-bit word (two's complement) read from eight little-endian bytes. */
  function Int64LE(b: seq<Byte>): (x: int)
    requires |b| == 8
    ensures IsInt64(x)
  {
    var n := Uint64LE(b);
    if n > MAX_INT64 then n - TWO_64 else n
  }

  function PutUint64LE(n: Bits64): (b: seq<Byte>)
    ensures |b| == 8
  {
    PutLittleEndian(n, 8)
  }

  function PutInt64LE(x: int): (b: seq<Byte>)
    requires IsInt64(x)
    ensures |b| == 8
  {
    PutLittleEndian(if x < 0 then x + TWO_64 else x, 8)
  }

  lemma Uint64RoundTrip(n: Bits64)
    ensures Uint64LE(PutUint64LE(n)) == n
  {
    Pow256Eight();
    LittleEndianRoundTrip(n, 8);
  }

  lemma Int64RoundTrip(x: int)
    requires IsInt64(x)
    ensures Int64LE(PutInt64LE(x)) == x
  {
    Pow256Eight();
    LittleEndianRoundTrip(if x < 0 then x + TWO_64 else x, 8);
  }
}
