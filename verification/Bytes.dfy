/** Byte strings and the fixed-width integer codes every format of the system is built from. */
module Bytes {

  datatype Option<+T> = None | Some(value: T)
  {
    predicate IsFailure() { None? }
    function PropagateFailure<U>(): Option<U> requires None? { None }
    function Extract(): T requires Some? { value }
  }

  type byte = x: int | 0 <= x < 256
  type bytes = seq<byte>

  function Min(a: nat, b: nat): nat { if a < b then a else b }
  function Max(a: nat, b: nat): nat { if a < b then b else a }

  function Zeros(n: nat): (r: bytes)
    ensures |r| == n && forall i :: 0 <= i < n ==> r[i] == 0
  {
    seq(n, _ => 0)
  }

  /** A BLAKE3 output. */
  type Digest = d: bytes | |d| == 32 witness Zeros(32)

  ghost predicate NoCollision(h: bytes -> Digest, x: bytes, y: bytes) { h(x) == h(y) ==> x == y }

  /** The number of values that fit in `len` bytes. */
  function Range(len: nat): (r: nat)
    ensures r >= 1
  {
    if len == 0 then 1 else 256 * Range(len - 1)
  }

  lemma WordRanges()
    ensures Range(2) == 0x1_0000 && Range(4) == 0x1_0000_0000 && Range(8) == 0x1_0000_0000_0000_0000
  {
    assert Range(1) == 256;
    assert Range(2) == 0x1_0000;
    assert Range(3) == 0x100_0000;
    assert Range(4) == 0x1_0000_0000;
    assert Range(5) == 256 * Range(4);
    assert Range(6) == 256 * Range(5);
    assert Range(7) == 256 * Range(6);
  }

  const U64_RANGE: nat := 0x1_0000_0000_0000_0000
  const U32_RANGE: nat := 0x1_0000_0000
  const U16_RANGE: nat := 0x1_0000

  /** A slice of a slice. */
  lemma SubSlice(f: bytes, lo: nat, hi: nat, a: nat, b: nat)
    requires lo <= a <= b <= hi <= |f|
    ensures f[lo..hi][a - lo..b - lo] == f[a..b]
  {
    var x, y := f[lo..hi][a - lo..b - lo], f[a..b];
    assert |x| == |y|;
    forall i | 0 <= i < |x| ensures x[i] == y[i] {
      assert x[i] == f[lo..hi][a - lo + i] == f[a + i];
    }
  }

  lemma PrefixGrows<T>(s: seq<T>, i: nat)
    requires i < |s|
    ensures s[..i + 1] == s[..i] + [s[i]]
  {
  }

  lemma ConsParts<T>(x: T, s: seq<T>)
    ensures ([x] + s)[0] == x && ([x] + s)[1..] == s
  {
  }

  lemma HeadAndTail<T>(s: seq<T>)
    requires s != []
    ensures s == [s[0]] + s[1..]
  {
  }

  lemma ConsSnoc<T>(s: seq<T>, x: T)
    requires s != []
    ensures s + [x] == [s[0]] + (s[1..] + [x])
  {
  }

  lemma Halves<T>(s: seq<T>, n: nat)
    requires n <= |s|
    ensures s == s[..n] + s[n..]
  {
  }

  lemma SuffixOpens<T>(s: seq<T>, i: nat)
    requires i < |s|
    ensures s[i..] == [s[i]] + s[i + 1..]
  {
  }

  lemma TailAt<T>(s: seq<T>, i: nat)
    requires i + 1 < |s|
    ensures s[1..][i] == s[i + 1]
  {
  }

  lemma SnocParts<T>(s: seq<T>, x: T)
    ensures (s + [x])[|s|] == x && (s + [x])[..|s|] == s
  {
  }

  lemma Regroup(a: bytes, b: bytes, c: bytes)
    ensures (a + b) + c == a + (b + c)
  {
  }

  // ---- big-endian -------------------------------------------------------

  /** The low `len` bytes of `n`, most significant first. */
  function BigEndian(n: nat, len: nat): (r: bytes)
    ensures |r| == len
  {
    if len == 0 then [] else BigEndian(n / 256, len - 1) + [n % 256]
  }

  function FromBigEndian(b: bytes): (n: nat)
    ensures n < Range(|b|)
  {
    if |b| == 0 then 0 else FromBigEndian(b[..|b| - 1]) * 256 + b[|b| - 1]
  }

  lemma {:induction false} BigEndianRoundTrip(n: nat, len: nat)
    requires n < Range(len)
    ensures FromBigEndian(BigEndian(n, len)) == n
  {
    if len != 0 {
      BigEndianRoundTrip(n / 256, len - 1);
      SnocParts(BigEndian(n / 256, len - 1), n % 256);
    }
  }

  lemma {:induction false} BigEndianOnto(b: bytes)
    ensures BigEndian(FromBigEndian(b), |b|) == b
  {
    if |b| != 0 {
      BigEndianOnto(b[..|b| - 1]);
      PrefixGrows(b, |b| - 1);
      assert b[..|b|] == b;
    }
  }

  // ---- little-endian ----------------------------------------------------

  /** The low `len` bytes of `n`, least significant first. */
  function LittleEndian(n: nat, len: nat): (r: bytes)
    ensures |r| == len
  {
    if len == 0 then [] else [n % 256] + LittleEndian(n / 256, len - 1)
  }

  function FromLittleEndian(b: bytes): (n: nat)
    ensures n < Range(|b|)
  {
    if |b| == 0 then 0 else b[0] + 256 * FromLittleEndian(b[1..])
  }

  lemma {:induction false} LittleEndianRoundTrip(n: nat, len: nat)
    requires n < Range(len)
    ensures FromLittleEndian(LittleEndian(n, len)) == n
  {
    if len != 0 {
      LittleEndianRoundTrip(n / 256, len - 1);
      assert LittleEndian(n, len)[1..] == LittleEndian(n / 256, len - 1);
    }
  }

  // ---- words ------------------------------------------------------------

  predicate IsU64(n: int) { 0 <= n < U64_RANGE }

  function U64Be(n: nat): (r: bytes) ensures |r| == 8 { BigEndian(n, 8) }
  function U32Be(n: nat): (r: bytes) ensures |r| == 4 { BigEndian(n, 4) }
  function U16Be(n: nat): (r: bytes) ensures |r| == 2 { BigEndian(n, 2) }
  function U64Le(n: nat): (r: bytes) ensures |r| == 8 { LittleEndian(n, 8) }

  lemma U64BeRoundTrip(n: nat)
    requires IsU64(n)
    ensures FromBigEndian(U64Be(n)) == n
  {
    WordRanges();
    BigEndianRoundTrip(n, 8);
  }

  lemma U32BeRoundTrip(n: nat)
    requires n < U32_RANGE
    ensures FromBigEndian(U32Be(n)) == n
  {
    WordRanges();
    BigEndianRoundTrip(n, 4);
  }

  lemma U16BeRoundTrip(n: nat)
    requires n < U16_RANGE
    ensures FromBigEndian(U16Be(n)) == n
  {
    WordRanges();
    BigEndianRoundTrip(n, 2);
  }

  lemma U64LeRoundTrip(n: nat)
    requires IsU64(n)
    ensures FromLittleEndian(U64Le(n)) == n
  {
    WordRanges();
    LittleEndianRoundTrip(n, 8);
  }

  // ---- division ---------------------------------------------------------

  lemma Distribute(a: int, b: int, c: int)
    ensures (a + b) * c == a * c + b * c
  {
  }

  lemma Product(a: nat, b: nat, x: nat, y: nat)
    requires a <= b && x <= y
    ensures a * x <= b * y
  {
    var p, q := b - a, y - x;
    Distribute(a, p, y);
    Distribute(x, q, a);
    NoLess(p, y);
    NoLess(q, a);
  }

  lemma NoLess(a: nat, b: nat)
    ensures a * b >= 0
  {
  }

  /** Whole multiples of `step` below or at `n`. */
  function FloorTo(n: nat, step: nat): (r: nat)
    requires step > 0
    ensures r <= n < r + step
    ensures r % step == 0
  {
    assert n / step * step + n % step == n;
    MultipleMod(n / step, step);
    n / step * step
  }

  lemma MultipleMod(k: nat, step: nat)
    requires step > 0
    ensures k * step % step == 0
  {
    assert k * step == k * step + 0;
    DivModUnique(k * step, step, k, 0);
  }

  lemma MulMonotone(a: int, b: int, step: int)
    requires step > 0 && a < b
    ensures a * step + step <= b * step
  {
    assert (b - a) * step == b * step - a * step;
    assert b - a >= 1 ==> (b - a) * step >= step;
  }

  lemma DivModUnique(n: int, step: int, q: int, r: int)
    requires step > 0 && 0 <= r < step && n == q * step + r
    ensures n / step == q && n % step == r
  {
    var p := n / step;
    assert n == p * step + n % step;
    if q > p { MulMonotone(p, q, step); }
    if q < p { MulMonotone(q, p, step); }
  }

  /** Two multiples of `step` within one step of each other are equal. */
  lemma MultiplesApart(a: nat, b: nat, step: nat)
    requires step > 0 && a % step == 0 && b % step == 0
    requires a < b + step && b < a + step
    ensures a == b
  {
    var p, q := a / step, b / step;
    assert a == p * step && b == q * step;
    if p > q { MulMonotone(q, p, step); }
    if p < q { MulMonotone(p, q, step); }
  }

  lemma FloorToUnique(n: nat, m: nat, step: nat)
    requires step > 0 && m % step == 0 && m <= n < m + step
    ensures FloorTo(n, step) == m
  {
    MultiplesApart(FloorTo(n, step), m, step);
  }

  lemma MultiplesAdd(a: nat, b: nat, step: nat)
    requires step > 0 && a % step == 0 && b % step == 0
    ensures (a + b) % step == 0
  {
    assert a == a / step * step && b == b / step * step;
    assert a + b == (a / step + b / step) * step;
    MultipleMod(a / step + b / step, step);
  }

  /** Rounded-up quotient. */
  function DivCeil(n: nat, d: nat): (q: nat)
    requires d > 0
    ensures (q == 0) == (n == 0)
    ensures q * d >= n && (q > 0 ==> (q - 1) * d < n)
  {
    assert n == n / d * d + n % d;
    if n % d == 0 then n / d else n / d + 1
  }
}
