/** Bytes and the little-endian 32-bit words the binary readers and writers use. */
module Bytes {
  /** An unsigned 8-bit value (`u8`). */
  type byte = x: int | 0 <= x < 256

  const TwoTo32: nat := 0x1_0000_0000

  /** The little-endian `u32` held in four bytes. */
  function U32Le(b: seq<byte>): (n: nat)
    requires |b| == 4
    ensures n < TwoTo32
  {
    b[0] as int + 0x100 * b[1] as int + 0x1_0000 * b[2] as int + 0x100_0000 * b[3] as int
  }

  /** The four little-endian bytes of a `u32`. */
  function U32LeBytes(n: nat): (b: seq<byte>)
    requires n < TwoTo32
    ensures |b| == 4
  {
    [n % 0x100, (n / 0x100) % 0x100, (n / 0x1_0000) % 0x100, n / 0x100_0000]
  }

  /** Writing a word and reading it back gives the word. */
  lemma DecodeEncode(n: nat)
    requires n < TwoTo32
    ensures U32Le(U32LeBytes(n)) == n
  {
    var b := U32LeBytes(n);
    assert n / 0x100 == (n / 0x100) % 0x100 + 0x100 * (n / 0x1_0000);
    assert n / 0x1_0000 == (n / 0x1_0000) % 0x100 + 0x100 * (n / 0x100_0000);
  }

  /** Reading four bytes and writing the word back gives the bytes. */
  lemma EncodeDecode(b: seq<byte>)
    requires |b| == 4
    ensures U32LeBytes(U32Le(b)) == b
  {
    var n := U32Le(b);
    var low1, low2, low3 := b[0] as int, b[0] as int + 0x100 * b[1] as int, b[0] as int + 0x100 * b[1] as int + 0x1_0000 * b[2] as int;
    var high1, high2 := b[1] as int + 0x100 * b[2] as int + 0x1_0000 * b[3] as int, b[2] as int + 0x100 * b[3] as int;
    SplitAt(n, 0x100, high1, low1);
    SplitAt(n, 0x1_0000, high2, low2);
    SplitAt(n, 0x100_0000, b[3], low3);
    SplitAt(high1, 0x100, b[2] as int + 0x100 * b[3] as int, b[1]);
    SplitAt(high2, 0x100, b[3], b[2]);
  }

  /** `n = low + d * high` with `low < d` is the quotient-remainder split of `n` by `d`. */
  lemma SplitAt(n: int, d: int, high: int, low: int)
    requires 0 <= low < d && n == low + d * high
    ensures n / d == high && n % d == low
  {
    var q, r := n / d, n % d;
    assert d * q + r == n;
    Distribute(d, q, high);
    if q > high {
      AtLeastOnce(d, q - high);
    } else if q < high {
      AtLeastOnce(d, high - q);
    }
  }

  lemma Distribute(d: int, a: int, b: int)
    ensures d * a - d * b == d * (a - b)
  {
  }

  lemma AtLeastOnce(d: int, k: int)
    requires d > 0 && k >= 1
    ensures d * k >= d
  {
  }
}
