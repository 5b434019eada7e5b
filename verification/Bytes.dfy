/** Bytes and the fixed-width little-endian integers of encoding/binary. */
module Bytes {

  newtype byte = x: int | 0 <= x < 256
  newtype u32 = x: int | 0 <= x < 0x1_0000_0000

  /** The low 8 bits of `n`. */
  function Low(n: int): byte { (n % 256) as byte }

  const TWO_16 := 0x1_0000
  const TWO_32 := 0x1_0000_0000
  const TWO_63 := 0x8000_0000_0000_0000
  const TWO_64 := 0x1_0000_0000_0000_0000

  function Pow2(k: nat): (n: nat)
    ensures n > 0
  {
    if k == 0 then 1 else 2 * Pow2(k - 1)
  }

  /** The low 16 bits of `n`, low byte first. */
  function Le16(n: int): (b: seq<byte>)
    ensures |b| == 2
  {
    [Low(n), Low(n / 256)]
  }

  /** The low 32 bits of `n`, low byte first; a wider or negative `n` truncates as a Go conversion does. */
  function Le32(n: int): (b: seq<byte>)
    ensures |b| == 4
  {
    [Low(n), Low(n / 256), Low(n / 0x1_0000), Low(n / 0x100_0000)]
  }

  /** The low 64 bits of `n` in two's complement, low byte first. */
  function Le64(n: int): (b: seq<byte>)
    ensures |b| == 8
  {
    Le32(n) + Le32(n / TWO_32)
  }

  function Word16(b: seq<byte>): (n: nat)
    requires |b| >= 2
    ensures n < TWO_16
  {
    b[0] as int + 256 * (b[1] as int)
  }

  function Word32(b: seq<byte>): (n: nat)
    requires |b| >= 4
    ensures n < TWO_32
  {
    b[0] as int + 256 * (b[1] as int) + 0x1_0000 * (b[2] as int) + 0x100_0000 * (b[3] as int)
  }

  function Word64(b: seq<byte>): (n: nat)
    requires |b| >= 8
    ensures n < TWO_64
  {
    Word32(b) + TWO_32 * Word32(b[4..])
  }

  /** uint64 read as int64. */
  function Signed64(n: int): int {
    if n < TWO_63 then n else n - TWO_64
  }

  lemma Word16OfLe16(n: nat, rest: seq<byte>)
    requires n < TWO_16
    ensures Word16(Le16(n) + rest) == n
  {
  }

  lemma Word32OfLe32(n: int, rest: seq<byte>)
    ensures Word32(Le32(n) + rest) == n % TWO_32
  {
    var a := n / 256;
    var b := n / 0x1_0000;
    var c := n / 0x100_0000;
    assert b == a / 256 && c == b / 256;
    assert n == 256 * a + n % 256 && a == 256 * b + a % 256 && b == 256 * c + b % 256;
    assert c == 256 * (n / TWO_32) + c % 256;
  }

  /** A number shifted up by one byte and filled with `low` gives both back. */
  lemma Shift(n: int, high: nat, low: byte)
    requires n == high * 256 + low as int
    ensures n / 256 == high && Low(n) == low
  {
  }

  lemma Le32OfWord32(b: seq<byte>)
    requires |b| >= 4
    ensures Le32(Word32(b)) == b[..4]
  {
    var n := Word32(b);
    var h3 := b[3] as int;
    var h2 := h3 * 256 + b[2] as int;
    var h1 := h2 * 256 + b[1] as int;
    Shift(n, h1, b[0]);
    Shift(h1, h2, b[1]);
    Shift(h2, h3, b[2]);
    assert n / 0x1_0000 == h1 / 256 && n / 0x100_0000 == h2 / 256;
  }

  lemma Halves64(n: int)
    requires -TWO_63 <= n < TWO_63
    ensures Signed64(n % TWO_32 + TWO_32 * (n / TWO_32 % TWO_32)) == n
  {
    var high := n / TWO_32;
    assert n == TWO_32 * high + n % TWO_32;
    assert high % TWO_32 == if high < 0 then high + TWO_32 else high;
  }

  lemma Word64OfHalves(low: seq<byte>, high: seq<byte>)
    requires |low| == 4 && |high| >= 4
    ensures Word64(low + high) == Word32(low) + TWO_32 * Word32(high)
  {
    assert (low + high)[4..] == high;
  }

  lemma Word64OfLe64(n: nat, rest: seq<byte>)
    requires n < TWO_64
    ensures Word64(Le64(n) + rest) == n
  {
    hide Low, Word32;
    var low, high := Le32(n), Le32(n / TWO_32);
    assert Le64(n) + rest == low + (high + rest);
    Word64OfHalves(low, high + rest);
    hide Le32, Word32, Word64;
    Word32OfLe32(n, []);
    assert low + [] == low;
    Word32OfLe32(n / TWO_32, rest);
    assert n / TWO_32 % TWO_32 == n / TWO_32;
  }

  lemma Le16OfWord16(b: seq<byte>)
    requires |b| >= 2
    ensures Le16(Word16(b)) == b[..2]
  {
    Shift(Word16(b), b[1] as int, b[0]);
  }

  lemma Le64OfWord64(b: seq<byte>)
    requires |b| >= 8
    ensures Le64(Word64(b)) == b[..8]
  {
    var n, low, high := Word64(b), Word32(b), Word32(b[4..]);
    Le32OfWord32(b);
    Le32OfWord32(b[4..]);
    Le32OfSum(low, high);
    assert n / TWO_32 == high;
    assert b[..8] == b[..4] + b[4..][..4];
  }

  /** Only the low 32 bits matter to Le32. */
  lemma Le32OfSum(low: nat, high: nat)
    ensures Le32(low + TWO_32 * high) == Le32(low)
  {
    var n := low + TWO_32 * high;
    LowOfSum(low, 0x100_0000 * high);
    LowOfSum(low / 256, 0x1_0000 * high);
    LowOfSum(low / 0x1_0000, 0x100 * high);
    LowOfSum(low / 0x100_0000, high);
    assert n / 256 == low / 256 + 256 * (0x1_0000 * high);
    assert n / 0x1_0000 == low / 0x1_0000 + 256 * (0x100 * high);
    assert n / 0x100_0000 == low / 0x100_0000 + 256 * high;
  }

  lemma LowOfSum(n: nat, k: nat)
    ensures Low(n + 256 * k) == Low(n)
  {
  }

  /** Reading back a signed 64-bit integer gives the integer, whatever follows it. */
  lemma Signed64OfLe64(n: int, rest: seq<byte>)
    requires -TWO_63 <= n < TWO_63
    ensures Signed64(Word64(Le64(n) + rest)) == n
  {
    var low, high := Le32(n), Le32(n / TWO_32);
    assert Le64(n) + rest == low + (high + rest);
    Word64OfHalves(low, high + rest);
    Word32OfLe32(n, []);
    assert low + [] == low;
    Word32OfLe32(n / TWO_32, rest);
    Halves64(n);
  }

  lemma NoMultiple(d: nat, cap: nat, k: int)
    requires 0 < d < cap
    ensures d != cap * k
  {
    if k >= 1 {
      assert cap * k >= cap;
    } else {
      assert cap * k <= 0;
    }
  }

  lemma QuotientIsUnique(n: nat, cap: nat, q: nat, r: nat)
    requires r < cap && n == cap * q + r
    ensures n / cap == q && n % cap == r
  {
    var m := n / cap;
    assert n == cap * m + n % cap;
    assert cap * (m - q) == cap * m - cap * q && cap * (q - m) == cap * q - cap * m;
    if n % cap > r {
      NoMultiple(n % cap - r, cap, q - m);
    } else if n % cap < r {
      NoMultiple(r - n % cap, cap, m - q);
    }
    SameMultiple(cap, m, q);
  }

  lemma SameMultiple(cap: nat, m: nat, q: nat)
    requires cap > 0 && cap * m == cap * q
    ensures m == q
  {
    assert cap * (m - q) == cap * m - cap * q;
  }

  // --- buffers ---------------------------------------------------------

  type Guid = g: seq<byte> | |g| == 16 witness seq(16, _ => 0)

  /** Overwriting a stretch of a buffer: everything outside it stays. */
  function Put(buf: seq<byte>, off: nat, b: seq<byte>): (r: seq<byte>)
    requires off + |b| <= |buf|
    ensures |r| == |buf|
    ensures r[..off] == buf[..off] && r[off..off + |b|] == b && r[off + |b|..] == buf[off + |b|..]
  {
    buf[..off] + b + buf[off + |b|..]
  }

  /** A backfill replaces its own slot and nothing else. */
  lemma PutInto(a: seq<byte>, was: seq<byte>, c: seq<byte>, b: seq<byte>)
    requires |was| == |b|
    ensures Put(a + was + c, |a|, b) == a + b + c
  {
    assert (a + was + c)[|a| + |b|..] == c;
  }
}
