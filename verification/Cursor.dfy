/** Bounds-checked reading from the front of a byte string. */
module Cursor {
  import opened Bytes

  /** A decoded value and the bytes after it. */
  datatype Read<+T> = Read(value: T, rest: bytes)

  function Take(b: bytes, n: nat): Option<Read<bytes>> {
    if n <= |b| then Some(Read(b[..n], b[n..])) else None
  }

  function U8(b: bytes): Option<Read<byte>> {
    if |b| < 1 then None else Some(Read(b[0], b[1..]))
  }

  function U16(b: bytes): (x: Option<Read<nat>>)
    ensures x.Some? ==> x.value.value < U16_RANGE
  {
    WordRanges();
    var r :- Take(b, 2);
    Some(Read(FromBigEndian(r.value), r.rest))
  }

  function U64(b: bytes): (x: Option<Read<nat>>)
    ensures x.Some? ==> IsU64(x.value.value)
  {
    WordRanges();
    var r :- Take(b, 8);
    Some(Read(FromBigEndian(r.value), r.rest))
  }

  // ---- reading back what was written ------------------------------------

  lemma TakeBack(x: bytes, rest: bytes)
    ensures Take(x + rest, |x|) == Some(Read(x, rest))
  {
    assert (x + rest)[..|x|] == x && (x + rest)[|x|..] == rest;
  }

  lemma U8Back(x: byte, rest: bytes)
    ensures U8([x] + rest) == Some(Read(x, rest))
  {
  }

  lemma U16Back(n: nat, rest: bytes)
    requires n < U16_RANGE
    ensures U16(U16Be(n) + rest) == Some(Read(n, rest))
  {
    TakeBack(U16Be(n), rest);
    U16BeRoundTrip(n);
  }

  lemma U64Back(n: nat, rest: bytes)
    requires IsU64(n)
    ensures U64(U64Be(n) + rest) == Some(Read(n, rest))
  {
    TakeBack(U64Be(n), rest);
    U64BeRoundTrip(n);
  }

  // ---- and writing back what was read -----------------------------------

  lemma TakeOnto(b: bytes, n: nat)
    requires Take(b, n).Some?
    ensures b == Take(b, n).value.value + Take(b, n).value.rest && |Take(b, n).value.value| == n
  {
  }

  lemma U8Onto(b: bytes)
    requires U8(b).Some?
    ensures b == [b[0]] + b[1..] && U8(b) == Some(Read(b[0], b[1..]))
  {
  }

  lemma U16Onto(b: bytes)
    requires U16(b).Some?
    ensures U16(b).value.value < U16_RANGE && b == U16Be(U16(b).value.value) + U16(b).value.rest
  {
    WordRanges();
    BigEndianOnto(b[..2]);
  }

  lemma U64Onto(b: bytes)
    requires U64(b).Some?
    ensures IsU64(U64(b).value.value) && b == U64Be(U64(b).value.value) + U64(b).value.rest
  {
    WordRanges();
    BigEndianOnto(b[..8]);
  }
}
