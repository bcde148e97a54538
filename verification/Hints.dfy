/** The address list shared by tickets and address records. */
module Hints {
  import opened Bytes
  import opened Cursor
  import opened Ascii
  import opened Spelling
  import opened Onion
  import opened Codec

  const MAX_HINTS: nat := 8
  const TAG_V4: byte := 4
  const TAG_V6: byte := 6
  const TAG_ONION: byte := 9

  type Quad = a: bytes | |a| == 4 witness Zeros(4)
  type Hexadectet = a: bytes | |a| == 16 witness Zeros(16)

  datatype Endpoint =
    | V4(quad: Quad, port: Port)
    | V6(wide: Hexadectet, port: Port)
    | Hidden(onion: OnionAddress)

  // ---- one hint ---------------------------------------------------------

  function EncodeHint(h: Endpoint): (r: bytes)
    ensures |r| == HintLen(h)
  {
    match h
    case V4(a, p) => [TAG_V4] + (a + U16Be(p))
    case V6(a, p) => [TAG_V6] + (a + U16Be(p))
    case Hidden(o) => [TAG_ONION] + (o.host + U16Be(o.port))
  }

  function HintLen(h: Endpoint): nat {
    match h
    case V4(_, _) => 7
    case V6(_, _) => 19
    case Hidden(_) => 65
  }

  /** The bytes of a hint's code whose case does not matter: the onion host. */
  function HintFree(h: Endpoint): (r: seq<bool>)
    ensures |r| == HintLen(h)
  {
    if h.Hidden? then Fixed(1) + (Free(HOST_LEN) + Fixed(2)) else Fixed(HintLen(h))
  }

  function DecodeHint(b: bytes): Option<Read<Endpoint>> {
    var tag :- U8(b);
    if tag.value == TAG_V4 then
      var a :- Take(tag.rest, 4);
      var p :- U16(a.rest);
      Some(Read(V4(a.value, p.value), p.rest))
    else if tag.value == TAG_V6 then
      var a :- Take(tag.rest, 16);
      var p :- U16(a.rest);
      Some(Read(V6(a.value, p.value), p.rest))
    else if tag.value == TAG_ONION then
      var o :- DecodeOnion(tag.rest);
      Some(Read(Hidden(o.value), o.rest))
    else None
  }

  function DecodeOnion(b: bytes): Option<Read<OnionAddress>> {
    var a :- Take(b, HOST_LEN);
    var p :- U16(a.rest);
    var o :- NewOnion(a.value, p.value);
    Some(Read(o, p.rest))
  }

  // ---- spellings of an onion address ------------------------------------

  function EncodeOnion(o: OnionAddress): (r: bytes)
    ensures |r| == HOST_LEN + 2
  {
    o.host + U16Be(o.port)
  }

  function OnionFree(): (r: seq<bool>)
    ensures |r| == HOST_LEN + 2
  {
    Free(HOST_LEN) + Fixed(2)
  }

  lemma SpellsHost(e: bytes, o: OnionAddress)
    ensures Spells(e, o.host, Free(HOST_LEN)) <==> |e| == HOST_LEN && Lower(e) == o.host
  {
    if |e| == HOST_LEN { FoldFree(e); }
  }

  lemma OnionBack(e: bytes, o: OnionAddress, rest: bytes)
    requires Spells(e, EncodeOnion(o), OnionFree())
    ensures DecodeOnion(e + rest) == Some(Read(o, rest))
  {
    var a, q := e[..HOST_LEN], e[HOST_LEN..];
    assert e == a + q;
    SpellsConcat(a, q, o.host, U16Be(o.port), Free(HOST_LEN), Fixed(2));
    SpellsFixed(q, U16Be(o.port));
    SpellsHost(a, o);
    assert e + rest == a + (q + rest);
    TakeBack(a, q + rest);
    U16Back(o.port, rest);
    FixedWidthOnion(a, o.port, o);
  }

  lemma OnionOnto(b: bytes) returns (e: bytes)
    requires DecodeOnion(b).Some?
    ensures var r := DecodeOnion(b).value; b == e + r.rest && Spells(e, EncodeOnion(r.value), OnionFree())
  {
    var a := Take(b, HOST_LEN).value;
    var p := U16(a.rest).value;
    var o := DecodeOnion(b).value.value;
    TakeOnto(b, HOST_LEN);
    U16Onto(a.rest);
    FixedWidthOnion(a.value, p.value, o);
    SpellsHost(a.value, o);
    e := a.value + U16Be(p.value);
    SpellsFixed(U16Be(p.value), U16Be(p.value));
    SpellsConcat(a.value, U16Be(p.value), o.host, U16Be(o.port), Free(HOST_LEN), Fixed(2));
    assert b == e + p.rest;
  }

  // ---- spellings of a hint ----------------------------------------------

  lemma DirectBack(tag: byte, a: bytes, p: Port, rest: bytes)
    ensures var b := [tag] + (a + U16Be(p)) + rest;
      && U8(b) == Some(Read(tag, a + (U16Be(p) + rest)))
      && Take(a + (U16Be(p) + rest), |a|) == Some(Read(a, U16Be(p) + rest))
      && U16(U16Be(p) + rest) == Some(Read(p, rest))
  {
    assert [tag] + (a + U16Be(p)) + rest == [tag] + (a + (U16Be(p) + rest));
    TakeBack(a, U16Be(p) + rest);
    U16Back(p, rest);
  }

  lemma HiddenBack(e: bytes, o: OnionAddress, rest: bytes)
    requires Spells(e, EncodeHint(Hidden(o)), HintFree(Hidden(o)))
    ensures DecodeHint(e + rest) == Some(Read(Hidden(o), rest))
  {
    var f := e[1..];
    assert e == e[..1] + f;
    SpellsAfter(e[..1], [TAG_ONION], f, EncodeOnion(o), OnionFree());
    OnionBack(f, o, rest);
    assert e + rest == [TAG_ONION] + (f + rest);
    U8Back(TAG_ONION, f + rest);
  }

  lemma HintBack(e: bytes, h: Endpoint, rest: bytes)
    requires Spells(e, EncodeHint(h), HintFree(h))
    ensures DecodeHint(e + rest) == Some(Read(h, rest))
  {
    if h.Hidden? {
      HiddenBack(e, h.onion, rest);
    } else {
      SpellsFixed(e, EncodeHint(h));
      DirectHintBack(h, rest);
    }
  }

  lemma DirectHintBack(h: Endpoint, rest: bytes)
    requires !h.Hidden?
    ensures DecodeHint(EncodeHint(h) + rest) == Some(Read(h, rest))
  {
    match h
    case V4(a, p) => DirectBack(TAG_V4, a, p, rest);
    case V6(a, p) => DirectBack(TAG_V6, a, p, rest);
  }

  lemma DirectOnto(b: bytes, n: nat) returns (e: bytes)
    requires b != [] && Take(b[1..], n).Some? && U16(Take(b[1..], n).value.rest).Some?
    ensures var a := Take(b[1..], n).value; var p := U16(a.rest).value;
      && e == [b[0]] + (a.value + U16Be(p.value)) && b == e + p.rest
  {
    var a := Take(b[1..], n).value;
    var p := U16(a.rest).value;
    TakeOnto(b[1..], n);
    U16Onto(a.rest);
    e := [b[0]] + (a.value + U16Be(p.value));
    assert b == [b[0]] + b[1..];
    assert b == e + p.rest;
  }

  lemma HintOnto(b: bytes) returns (e: bytes)
    requires DecodeHint(b).Some?
    ensures var r := DecodeHint(b).value; b == e + r.rest && Spells(e, EncodeHint(r.value), HintFree(r.value))
  {
    if b[0] == TAG_ONION { e := HiddenOnto(b); } else { e := DirectHintOnto(b); }
  }

  lemma DirectHintOnto(b: bytes) returns (e: bytes)
    requires DecodeHint(b).Some? && b[0] != TAG_ONION
    ensures var r := DecodeHint(b).value; b == e + r.rest && Spells(e, EncodeHint(r.value), HintFree(r.value))
  {
    e := DirectOnto(b, if b[0] == TAG_V4 then 4 else 16);
    SpellsFixed(e, EncodeHint(DecodeHint(b).value.value));
  }

  lemma HiddenOnto(b: bytes) returns (e: bytes)
    requires DecodeHint(b).Some? && b[0] == TAG_ONION
    ensures var r := DecodeHint(b).value; b == e + r.rest && Spells(e, EncodeHint(r.value), HintFree(r.value))
  {
    var h := DecodeHint(b).value.value;
    var f := OnionOnto(b[1..]);
    e := [TAG_ONION] + f;
    SpellsAfter([TAG_ONION], [TAG_ONION], f, EncodeOnion(h.onion), OnionFree());
    U8Onto(b);
    Regroup([TAG_ONION], f, DecodeHint(b).value.rest);
  }

  function HintCodec(): Codec<Endpoint> { Codec(_ => true, EncodeHint, HintFree, DecodeHint) }

  lemma HintSound()
    ensures HintCodec().Sound()
  {
    var c := HintCodec();
    forall v, e, rest ensures c.Back(v, e, rest) {
      if Spells(e, EncodeHint(v), HintFree(v)) { HintBack(e, v, rest); }
    }
    forall b ensures c.Onto(b) {
      if DecodeHint(b).Some? { var e := HintOnto(b); }
    }
  }

  // ---- the list ---------------------------------------------------------

  function EncodeHints(hs: seq<Endpoint>): bytes { EncodeCounted(HintCodec(), hs) }
  function HintsFree(hs: seq<Endpoint>): seq<bool> { FreeCounted(HintCodec(), hs) }
  function DecodeHints(b: bytes): Option<Read<seq<Endpoint>>> { DecodeCounted(HintCodec(), MAX_HINTS, b) }

  function HintsCodec(): Codec<seq<Endpoint>> {
    Codec(hs => |hs| <= MAX_HINTS, EncodeHints, HintsFree, DecodeHints)
  }

  lemma HintsLengths(hs: seq<Endpoint>)
    ensures |EncodeHints(hs)| == |HintsFree(hs)|
  {
    HintSound();
    ListLengths(HintCodec(), hs);
  }

  /** Up to eight addresses, in any case of their onion hosts, read back as themselves; nothing else
      is read. */
  lemma HintsSound()
    ensures HintsCodec().Sound()
  {
    var c := HintsCodec();
    HintSound();
    forall v, e, rest ensures c.Back(v, e, rest) {
      if c.ok(v) && Spells(e, EncodeHints(v), HintsFree(v)) {
        CountedBack(HintCodec(), MAX_HINTS, v, e, rest);
      }
    }
    forall b ensures c.Onto(b) {
      if DecodeHints(b).Some? { var e := CountedOnto(HintCodec(), MAX_HINTS, b); }
    }
    forall v ensures |c.enc(v)| == |c.free(v)| { HintsLengths(v); }
  }

  lemma HintsOnto(b: bytes, hs: seq<Endpoint>, rest: bytes) returns (e: bytes)
    requires DecodeHints(b) == Some(Read(hs, rest))
    ensures |hs| <= MAX_HINTS && b == e + rest && Spells(e, EncodeHints(hs), HintsFree(hs))
  {
    HintSound();
    e := CountedOnto(HintCodec(), MAX_HINTS, b);
  }

  lemma HintSpellsItself(h: Endpoint)
    ensures Spells(EncodeHint(h), EncodeHint(h), HintFree(h))
  {
    if h.Hidden? {
      SpellsOnion(h.onion);
      SpellsAfter([TAG_ONION], [TAG_ONION], EncodeOnion(h.onion), EncodeOnion(h.onion), OnionFree());
    } else {
      SpellsFixed(EncodeHint(h), EncodeHint(h));
    }
  }

  lemma SpellsOnion(o: OnionAddress)
    ensures Spells(EncodeOnion(o), EncodeOnion(o), OnionFree())
  {
    HostIsLower(o.host);
    SpellsHost(o.host, o);
    SpellsFixed(U16Be(o.port), U16Be(o.port));
    SpellsConcat(o.host, U16Be(o.port), o.host, U16Be(o.port), Free(HOST_LEN), Fixed(2));
  }

  lemma HintsSpellItself(hs: seq<Endpoint>)
    ensures Spells(EncodeHints(hs), EncodeHints(hs), HintsFree(hs))
  {
    HintSound();
    forall h: Endpoint ensures Spells(HintCodec().enc(h), HintCodec().enc(h), HintCodec().free(h)) {
      HintSpellsItself(h);
    }
    CountedSpellsItself(HintCodec(), hs);
  }

  /** Seven to sixty-five bytes a hint. */
  lemma {:induction false} HintsLen(hs: seq<Endpoint>)
    ensures 1 + 7 * |hs| <= |EncodeHints(hs)| <= 1 + 65 * |hs|
    decreases |hs|
  {
    if hs != [] { HintsLen(hs[1..]); }
  }

  lemma TooMany(hs: seq<Endpoint>)
    requires MAX_HINTS < |hs| < 256
    ensures DecodeHints(EncodeHints(hs)).None?
  {
  }

  lemma NoHints()
    ensures DecodeHints(EncodeHints([])) == Some(Read([], []))
  {
  }
}
