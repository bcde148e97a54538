/** Identity bundles: an Ed25519 key and, for a hybrid identity, an ML-DSA-65 key. */
module Bundle {
  import opened Bytes
  import opened Cursor
  import opened Spelling
  import opened Codec

  const BUNDLE_VERSION: byte := 1
  const PQ_KEY_LEN: nat := 1952

  type PqKey = k: bytes | |k| == PQ_KEY_LEN witness Zeros(PQ_KEY_LEN)

  datatype IdentityBundle = IdentityBundle(classical: bytes, pq: Option<PqKey>)
  {
    predicate IsHybrid() { pq.Some? }
  }

  function PqBytes(b: IdentityBundle): bytes { if b.pq.Some? then b.pq.value else [] }

  /** `IdentityBundle::to_bytes`: both lengths are cut to 16 bits. */
  function Encode(b: IdentityBundle): bytes {
    [BUNDLE_VERSION] + (U16Be(|b.classical|) + (b.classical + (U16Be(|PqBytes(b)|) + PqBytes(b))))
  }

  function DecodePq(b: bytes): Option<Read<Option<PqKey>>> {
    var len :- U16(b);
    if len.value == 0 then Some(Read(None, len.rest))
    else
      var key :- Take(len.rest, len.value);
      if |key.value| != PQ_KEY_LEN then None else Some(Read(Some(key.value), key.rest))
  }

  function Read1(b: bytes): Option<Read<IdentityBundle>> {
    var version :- U8(b);
    if version.value != BUNDLE_VERSION then None
    else
      var len :- U16(version.rest);
      if len.value == 0 then None
      else
        var classical :- Take(len.rest, len.value);
        var pq :- DecodePq(classical.rest);
        Some(Read(IdentityBundle(classical.value, pq.value), pq.rest))
  }

  /** The classical key is present and its length fits 16 bits. */
  predicate Encodable(b: IdentityBundle) { 0 < |b.classical| < U16_RANGE }

  function BundleCodec(): Codec<IdentityBundle> {
    Codec(Encodable, Encode, b => Fixed(|Encode(b)|), Read1)
  }

  /** `IdentityBundle::from_bytes`. */
  function Decode(b: bytes): Option<IdentityBundle> { BundleCodec().Whole(b) }

  // ---- proofs -----------------------------------------------------------

  lemma PqBack(b: IdentityBundle, rest: bytes)
    ensures DecodePq(U16Be(|PqBytes(b)|) + (PqBytes(b) + rest)) == Some(Read(b.pq, rest))
  {
    U16Back(|PqBytes(b)|, PqBytes(b) + rest);
    TakeBack(PqBytes(b), rest);
    if b.pq.None? { assert PqBytes(b) + rest == rest; }
  }

  lemma PqOnto(b: bytes, key: Option<PqKey>, rest: bytes)
    requires DecodePq(b) == Some(Read(key, rest))
    ensures var k := PqBytes(IdentityBundle([], key)); b == U16Be(|k|) + (k + rest)
  {
    U16Onto(b);
    var len := U16(b).value;
    if len.value == 0 {
      assert [] + rest == rest;
    } else {
      TakeOnto(len.rest, len.value);
    }
  }

  lemma ReadsBack(b: IdentityBundle, rest: bytes)
    requires Encodable(b)
    ensures Read1(Encode(b) + rest) == Some(Read(b, rest))
  {
    var r3 := U16Be(|PqBytes(b)|) + (PqBytes(b) + rest);
    var r2 := b.classical + r3;
    var r1 := U16Be(|b.classical|) + r2;
    assert Encode(b) + rest == [BUNDLE_VERSION] + r1;
    U16Back(|b.classical|, r2);
    TakeBack(b.classical, r3);
    PqBack(b, rest);
  }

  lemma ReadsOnto(s: bytes)
    requires Read1(s).Some?
    ensures var r := Read1(s).value; Encodable(r.value) && s == Encode(r.value) + r.rest
  {
    var r := Read1(s).value;
    var len := U16(s[1..]).value;
    var classical := Take(len.rest, len.value).value;
    var pq := DecodePq(classical.rest).value;
    U8Onto(s);
    U16Onto(s[1..]);
    TakeOnto(len.rest, len.value);
    PqOnto(classical.rest, pq.value, pq.rest);
    var k := PqBytes(r.value);
    assert k == PqBytes(IdentityBundle([], pq.value));
    Joined([s[0]], U16Be(len.value), classical.value, U16Be(|k|), k, r.rest);
  }

  lemma Joined(a: bytes, b: bytes, c: bytes, d: bytes, e: bytes, rest: bytes)
    ensures (a + (b + (c + (d + e)))) + rest == a + (b + (c + (d + (e + rest))))
  {
    Regroup(a, b + (c + (d + e)), rest);
    Regroup(b, c + (d + e), rest);
    Regroup(c, d + e, rest);
    Regroup(d, e, rest);
  }

  lemma BundleSound()
    ensures BundleCodec().Sound()
  {
    var c := BundleCodec();
    forall v, e, rest ensures c.Back(v, e, rest) {
      SpellsFixed(e, Encode(v));
      if Encodable(v) { ReadsBack(v, rest); }
    }
    forall s ensures c.Onto(s) {
      if Read1(s).Some? {
        ReadsOnto(s);
        var v := Read1(s).value.value;
        SpellsFixed(Encode(v), Encode(v));
      }
    }
  }

  /** The decoder accepts exactly the encoder's image: encoding after decoding is the identity, and
      a bundle comes back if and only if its classical key has 1 to 65535 bytes. */
  lemma DecodesExactly(s: bytes, b: IdentityBundle)
    ensures Decode(s) == Some(b) <==> Encodable(b) && s == Encode(b)
  {
    BundleSound();
    BundleCodec().WholeExactly(s, b);
    SpellsFixed(s, Encode(b));
  }

  /** No encoding is a strict prefix of another accepted string. */
  lemma PrefixFree(s: bytes, more: bytes)
    requires Decode(s).Some? && Decode(s + more).Some?
    ensures more == []
  {
    BundleSound();
    BundleCodec().PrefixFree(s, more);
  }

  // ---- identifiers ------------------------------------------------------

  /** "atom-live-identity-bundle-v1" */
  const ID_DOMAIN: bytes :=
    [0x61, 0x74, 0x6f, 0x6d, 0x2d, 0x6c, 0x69, 0x76, 0x65, 0x2d, 0x69, 0x64, 0x65, 0x6e, 0x74, 0x69,
     0x74, 0x79, 0x2d, 0x62, 0x75, 0x6e, 0x64, 0x6c, 0x65, 0x2d, 0x76, 0x31]

  function Id(h: bytes -> Digest, b: IdentityBundle): Digest { h(ID_DOMAIN + Encode(b)) }

  /** The identifier covers both keys: bundles that share it without a hash collision are equal. */
  lemma IdSeparates(h: bytes -> Digest, a: IdentityBundle, b: IdentityBundle)
    requires Encodable(a) && Encodable(b) && Id(h, a) == Id(h, b)
    requires NoCollision(h, ID_DOMAIN + Encode(a), ID_DOMAIN + Encode(b))
    ensures a == b
  {
    SameParts(ID_DOMAIN, Encode(a), ID_DOMAIN, Encode(b));
    DecodesExactly(Encode(a), a);
    DecodesExactly(Encode(a), b);
  }
}
