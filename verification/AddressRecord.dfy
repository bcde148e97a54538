/** Address records: what a peer publishes, sealed to one width whatever it contains. */
module AddressRecord {
  import opened Bytes
  import opened Cursor
  import opened Spelling
  import opened Codec
  import opened Hints
  import opened VaultCrypto

  const FORMAT_VERSION: byte := 1
  const NONCE_LEN: nat := 24
  const PLAINTEXT_LEN: nat := 640
  const SEALED_LEN: nat := NONCE_LEN + PLAINTEXT_LEN + TAG_LEN
  const MAX_TTL_SECS: nat := 6 * 3600

  type Word64 = n: nat | n < U64_RANGE

  /** A place in the store: the label it is filed under and the key it is sealed with. */
  datatype Slot = Slot(tag: bytes, key: bytes)

  datatype AddressRecord = AddressRecord(hints: seq<Endpoint>, version: Word64, notAfter: Word64)
  {
    predicate Supersedes(newestSeen: Option<nat>) { newestSeen.None? || version > newestSeen.value }

    /** Between one and eight addresses. */
    predicate Publishable() { 0 < |hints| <= MAX_HINTS }

    /** Not expired, and not claiming to live longer than a record may. */
    predicate Current(now: Word64) { now < notAfter <= SaturatingAdd(now, MAX_TTL_SECS) }
  }

  function SaturatingAdd(a: Word64, b: Word64): Word64 { Min(a + b, U64_RANGE - 1) }

  // ---- the body ---------------------------------------------------------

  function Stamp(r: AddressRecord): (b: bytes)
    ensures |b| == 17
  {
    [FORMAT_VERSION] + (U64Be(r.version) + U64Be(r.notAfter))
  }

  function Body(r: AddressRecord): bytes { Stamp(r) + EncodeHints(r.hints) }

  function BodyFree(r: AddressRecord): seq<bool> { Fixed(17) + HintsFree(r.hints) }

  datatype Stamped = Stamped(version: Word64, notAfter: Word64)

  function ReadStamp(b: bytes): Option<Read<Stamped>> {
    var v :- U8(b);
    if v.value != FORMAT_VERSION then None
    else
      var version :- U64(v.rest);
      var notAfter :- U64(version.rest);
      Some(Read(Stamped(version.value, notAfter.value), notAfter.rest))
  }

  function ReadRecord(b: bytes): Option<Read<AddressRecord>> {
    var s :- ReadStamp(b);
    var hints :- DecodeHints(s.rest);
    if hints.value == [] then None
    else Some(Read(AddressRecord(hints.value, s.value.version, s.value.notAfter), hints.rest))
  }

  function RecordCodec(): Codec<AddressRecord> {
    Codec((r: AddressRecord) => r.Publishable(), Body, BodyFree, ReadRecord)
  }

  lemma StampBack(r: AddressRecord, rest: bytes)
    ensures ReadStamp(Stamp(r) + rest) == Some(Read(Stamped(r.version, r.notAfter), rest))
  {
    var r1 := U64Be(r.notAfter) + rest;
    assert Stamp(r) + rest == [FORMAT_VERSION] + (U64Be(r.version) + r1);
    U8Back(FORMAT_VERSION, U64Be(r.version) + r1);
    U64Back(r.version, r1);
    U64Back(r.notAfter, rest);
  }

  lemma StampOnto(b: bytes, r: AddressRecord, rest: bytes)
    requires ReadStamp(b) == Some(Read(Stamped(r.version, r.notAfter), rest))
    ensures b == Stamp(r) + rest
  {
    var version := U64(b[1..]).value;
    U64Onto(b[1..]);
    U64Onto(version.rest);
    assert b == [b[0]] + b[1..];
    assert b == ([b[0]] + (U64Be(r.version) + U64Be(r.notAfter))) + rest;
  }

  lemma RecordBack(r: AddressRecord, e: bytes, rest: bytes)
    requires r.Publishable() && Spells(e, Body(r), BodyFree(r))
    ensures ReadRecord(e + rest) == Some(Read(r, rest))
  {
    HintsSound();
    HintsLengths(r.hints);
    var f := SplitHead(e, Stamp(r), EncodeHints(r.hints), HintsFree(r.hints));
    assert HintsCodec().Back(r.hints, f, rest);
    StampBack(r, f + rest);
    Regroup(Stamp(r), f, rest);
  }

  lemma RecordOnto(b: bytes) returns (e: bytes)
    requires ReadRecord(b).Some?
    ensures var x := ReadRecord(b).value;
      x.value.Publishable() && b == e + x.rest && Spells(e, Body(x.value), BodyFree(x.value))
  {
    var x := ReadRecord(b).value;
    var r := x.value;
    var s := ReadStamp(b).value;
    StampOnto(b, r, s.rest);
    HintsLengths(r.hints);
    var f := HintsOnto(s.rest, r.hints, x.rest);
    e := Stamp(r) + f;
    JoinHead(Stamp(r), f, EncodeHints(r.hints), HintsFree(r.hints));
    Regroup(Stamp(r), f, x.rest);
  }

  lemma RecordSound()
    ensures RecordCodec().Sound()
  {
    var c := RecordCodec();
    forall v, e, rest ensures c.Back(v, e, rest) {
      if v.Publishable() && Spells(e, Body(v), BodyFree(v)) { RecordBack(v, e, rest); }
    }
    forall b ensures c.Onto(b) {
      if ReadRecord(b).Some? { var e := RecordOnto(b); }
    }
    forall v ensures |c.enc(v)| == |c.free(v)| { HintsLengths(v.hints); }
  }

  lemma BodyRoundTrip(r: AddressRecord)
    ensures RecordCodec().Whole(Body(r)) == Some(r) <==> r.Publishable()
  {
    RecordSound();
    HintsLengths(r.hints);
    HintsSpellItself(r.hints);
    JoinHead(Stamp(r), EncodeHints(r.hints), EncodeHints(r.hints), HintsFree(r.hints));
    RecordCodec().WholeExactly(Body(r), r);
  }

  /** What is short enough to seal but not publishable does not read back as anything. */
  lemma Unreadable(r: AddressRecord)
    requires !r.Publishable() && |Body(r)| + 2 <= PLAINTEXT_LEN
    ensures RecordCodec().Whole(Body(r)) == None
  {
    HintsLen(r.hints);
    StampBack(r, EncodeHints(r.hints));
    if r.hints == [] { NoHints(); } else { TooMany(r.hints); }
  }

  // ---- the fixed-width plaintext ----------------------------------------

  /** The body behind its length, with the rest of the width left as random bytes. */
  function Padded(body: bytes, noise: bytes): (p: bytes)
    requires |body| + 2 <= PLAINTEXT_LEN == |noise|
    ensures |p| == PLAINTEXT_LEN
  {
    U16Be(|body|) + body + noise[2 + |body|..]
  }

  method CopyInto(buf: array<byte>, at: nat, src: bytes)
    requires at + |src| <= buf.Length
    modifies buf
    ensures buf[..at] == old(buf[..at]) && buf[at..at + |src|] == src
  {
    for i := 0 to |src|
      invariant buf[..at] == old(buf[..at])
      invariant forall k :: 0 <= k < i ==> buf[at + k] == src[k]
    {
      buf[at + i] := src[i];
    }
  }

  /** `seal` fills the buffer piece by piece. */
  method Fill(body: bytes, noise: bytes) returns (buf: array<byte>)
    requires |body| + 2 <= PLAINTEXT_LEN == |noise|
    ensures fresh(buf) && buf[..] == Padded(body, noise)
  {
    buf := new byte[PLAINTEXT_LEN](_ => 0);
    var len, start := U16Be(|body|), 2 + |body|;
    CopyInto(buf, 0, len);
    CopyInto(buf, 2, body);
    assert buf[..start] == buf[..2] + buf[2..start] == len + body;
    CopyInto(buf, start, noise[start..]);
    assert buf[..] == buf[..start] + buf[start..PLAINTEXT_LEN];
  }

  /** `from_plaintext`. */
  function Unpadded(p: bytes): Option<AddressRecord> {
    if |p| != PLAINTEXT_LEN then None
    else
      var n := FromBigEndian(p[..2]);
      if n + 2 > PLAINTEXT_LEN then None else RecordCodec().Whole(p[2..2 + n])
  }

  lemma UnpaddedPadded(body: bytes, noise: bytes)
    requires |body| + 2 <= PLAINTEXT_LEN == |noise|
    ensures Unpadded(Padded(body, noise)) == RecordCodec().Whole(body)
  {
    var p := Padded(body, noise);
    U16BeRoundTrip(|body|);
    assert p[..2] == U16Be(|body|) && p[2..2 + |body|] == body;
  }

  // ---- sealing ----------------------------------------------------------

  /** "atom-live-rdv-record-v1" */
  const AAD_DOMAIN: bytes :=
    [0x61, 0x74, 0x6f, 0x6d, 0x2d, 0x6c, 0x69, 0x76, 0x65, 0x2d, 0x72, 0x64, 0x76, 0x2d, 0x72, 0x65,
     0x63, 0x6f, 0x72, 0x64, 0x2d, 0x76, 0x31]

  function Aad(slot: Slot): bytes { AAD_DOMAIN + slot.tag }

  /** The random bytes one sealing draws. */
  datatype Drawn = Drawn(noise: bytes, nonce: bytes)
  {
    predicate Valid() { |noise| == PLAINTEXT_LEN && |nonce| == NONCE_LEN }
  }

  function Seal(c: Cipher, slot: Slot, d: Drawn, r: AddressRecord): Option<bytes>
    requires d.Valid()
  {
    if |Body(r)| + 2 > PLAINTEXT_LEN then None
    else Some(d.nonce + c.seal(slot.key, d.nonce, Aad(slot), Padded(Body(r), d.noise)))
  }

  function Open(c: Cipher, slot: Slot, now: Word64, sealed: bytes): Option<AddressRecord> {
    if |sealed| != SEALED_LEN then None
    else
      var plain :- c.open(slot.key, sealed[..NONCE_LEN], Aad(slot), sealed[NONCE_LEN..]);
      var r :- Unpadded(plain);
      if r.Current(now) then Some(r) else None
  }

  /** Up to eight addresses of any kind always seal. */
  lemma SealSucceeds(c: Cipher, slot: Slot, d: Drawn, r: AddressRecord)
    requires d.Valid() && |r.hints| <= MAX_HINTS
    ensures Seal(c, slot, d, r).Some?
  {
    HintsLen(r.hints);
  }

  /** Every sealed record has one width, and opens under its slot to what was sealed if it has one to
      eight addresses and is current, and to nothing otherwise: a record of more addresses may seal,
      but nobody can open it. */
  lemma SealThenOpen(c: Cipher, slot: Slot, d: Drawn, r: AddressRecord, now: Word64)
    requires c.Sound() && d.Valid() && Seal(c, slot, d, r).Some?
    ensures |Seal(c, slot, d, r).value| == SEALED_LEN
    ensures Open(c, slot, now, Seal(c, slot, d, r).value) ==
      if r.Publishable() && r.Current(now) then Some(r) else None
  {
    var p := Padded(Body(r), d.noise);
    var ct := c.seal(slot.key, d.nonce, Aad(slot), p);
    var s := d.nonce + ct;
    assert |ct| == |p| + TAG_LEN;
    assert s[..NONCE_LEN] == d.nonce && s[NONCE_LEN..] == ct;
    UnpaddedPadded(Body(r), d.noise);
    if r.Publishable() { BodyRoundTrip(r); } else { Unreadable(r); }
  }

  /** Whatever opens is publishable and current, whoever wrote it. */
  lemma OpenedIsCurrent(c: Cipher, slot: Slot, now: Word64, sealed: bytes)
    requires Open(c, slot, now, sealed).Some?
    ensures var r := Open(c, slot, now, sealed).value; r.Publishable() && r.Current(now)
  {
    var plain := c.open(slot.key, sealed[..NONCE_LEN], Aad(slot), sealed[NONCE_LEN..]).value;
    var n := FromBigEndian(plain[..2]);
    RecordSound();
    RecordCodec().WholeExactly(plain[2..2 + n], Unpadded(plain).value);
  }

  /** A record of nine IPv4 addresses seals, and opens for nobody at any time. */
  lemma CrowdedRecord(c: Cipher, slot: Slot, d: Drawn, version: Word64, notAfter: Word64, now: Word64)
    requires c.Sound() && d.Valid()
    ensures var r := AddressRecord(seq(9, _ => V4(Zeros(4), 443)), version, notAfter);
      Seal(c, slot, d, r).Some? && Open(c, slot, now, Seal(c, slot, d, r).value) == None
  {
    var r := AddressRecord(seq(9, _ => V4(Zeros(4), 443)), version, notAfter);
    HintsLen(r.hints);
    SealThenOpen(c, slot, d, r, now);
  }
}
