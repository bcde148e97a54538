/** Server links: a rendezvous endpoint's address, path and certificate pins in one string. */
module ServerLink {
  import opened Bytes
  import opened Cursor
  import opened Ascii
  import opened Spelling
  import opened Codec
  import opened Onion
  import Hints
  import Envelope

  const FORMAT_VERSION: byte := 1
  const MAX_HOST_LEN: nat := 255
  const MAX_PREFIX_LEN: nat := 128
  const MAX_PINS: nat := 8

  datatype ServerKind = Rendezvous | Relay
  datatype Pin = Pin(sha256: Digest)

  datatype Flags = Flags(kind: ServerKind, hasOnion: bool)
  datatype Place = Place(host: bytes, port: Port, prefix: bytes)

  datatype ServerLink = ServerLink(
    kind: ServerKind, host: bytes, port: Port, prefix: bytes, pins: seq<Pin>, onion: Option<OnionAddress>)
  {
    function GetFlags(): Flags { Flags(kind, onion.Some?) }
    function GetPlace(): Place { Place(host, port, prefix) }
  }

  /** Which byte strings are UTF-8, and which texts name a host. */
  datatype Names = Names(utf8: bytes -> bool, usable: bytes -> bool)

  /** `ServerLink::validate`, and that the two strings are strings. */
  predicate Valid(n: Names, l: ServerLink) {
    && n.utf8(l.host) && n.utf8(l.prefix)
    && (l.host != [] || l.onion.Some?)
    && |l.host| <= MAX_HOST_LEN
    && (l.host != [] ==> n.usable(l.host))
    && |l.prefix| <= MAX_PREFIX_LEN
    && 0 < |l.pins| <= MAX_PINS
  }

  // ---- flags ------------------------------------------------------------

  function KindByte(k: ServerKind): byte { if k.Rendezvous? then 1 else 2 }

  function EncodeFlags(f: Flags): bytes {
    [FORMAT_VERSION] + ([KindByte(f.kind)] + [if f.hasOnion then 1 else 0])
  }

  function DecodeFlags(b: bytes): Option<Read<Flags>> {
    var version :- U8(b);
    if version.value != FORMAT_VERSION then None
    else
      var kind :- U8(version.rest);
      if kind.value != 1 && kind.value != 2 then None
      else
        var onion :- U8(kind.rest);
        if onion.value > 1 then None
        else Some(Read(Flags(if kind.value == 1 then Rendezvous else Relay, onion.value == 1), onion.rest))
  }

  lemma FlagsBack(f: Flags, rest: bytes)
    ensures DecodeFlags(EncodeFlags(f) + rest) == Some(Read(f, rest))
  {
    var x: byte := if f.hasOnion then 1 else 0;
    assert EncodeFlags(f) + rest == [FORMAT_VERSION] + ([KindByte(f.kind)] + ([x] + rest));
    U8Back(FORMAT_VERSION, [KindByte(f.kind)] + ([x] + rest));
    U8Back(KindByte(f.kind), [x] + rest);
    U8Back(x, rest);
  }

  lemma FlagsOnto(b: bytes)
    requires DecodeFlags(b).Some?
    ensures var r := DecodeFlags(b).value; b == EncodeFlags(r.value) + r.rest
  {
    U8Onto(b);
    U8Onto(b[1..]);
    U8Onto(b[1..][1..]);
    var x, y, z, rest := b[0], b[1..][0], b[1..][1..][0], b[1..][1..][1..];
    assert b == ([x] + ([y] + [z])) + rest;
  }

  // ---- texts behind a one-byte length -----------------------------------

  /** The length is cut to a byte. */
  function EncodeText(s: bytes): bytes { [|s| % 256] + s }

  function DecodeText(n: Names, b: bytes): Option<Read<bytes>> {
    var len :- U8(b);
    var s :- Take(len.rest, len.value);
    if n.utf8(s.value) then Some(s) else None
  }

  lemma TextBack(n: Names, s: bytes, rest: bytes)
    requires |s| < 256 && n.utf8(s)
    ensures DecodeText(n, EncodeText(s) + rest) == Some(Read(s, rest))
  {
    assert EncodeText(s) + rest == [|s|] + (s + rest);
    U8Back(|s|, s + rest);
    TakeBack(s, rest);
  }

  lemma TextOnto(n: Names, b: bytes)
    requires DecodeText(n, b).Some?
    ensures var r := DecodeText(n, b).value; |r.value| < 256 && n.utf8(r.value) && b == EncodeText(r.value) + r.rest
  {
    TakeOnto(b[1..], b[0]);
    assert b == [b[0]] + b[1..];
  }

  // ---- host, port and path ----------------------------------------------

  function EncodePlace(p: Place): bytes { EncodeText(p.host) + (U16Be(p.port) + EncodeText(p.prefix)) }

  function DecodePlace(n: Names, b: bytes): Option<Read<Place>> {
    var host :- DecodeText(n, b);
    var port :- U16(host.rest);
    var prefix :- DecodeText(n, port.rest);
    Some(Read(Place(host.value, port.value, prefix.value), prefix.rest))
  }

  predicate Placeable(n: Names, p: Place) { n.utf8(p.host) && n.utf8(p.prefix) && |p.host| < 256 && |p.prefix| < 256 }

  lemma PlaceBack(n: Names, p: Place, rest: bytes)
    requires Placeable(n, p)
    ensures DecodePlace(n, EncodePlace(p) + rest) == Some(Read(p, rest))
  {
    var r2 := EncodeText(p.prefix) + rest;
    var r1 := U16Be(p.port) + r2;
    assert EncodePlace(p) + rest == EncodeText(p.host) + r1;
    TextBack(n, p.host, r1);
    U16Back(p.port, r2);
    TextBack(n, p.prefix, rest);
  }

  lemma PlaceOnto(n: Names, b: bytes)
    requires DecodePlace(n, b).Some?
    ensures var r := DecodePlace(n, b).value; Placeable(n, r.value) && b == EncodePlace(r.value) + r.rest
  {
    var host := DecodeText(n, b).value;
    var port := U16(host.rest).value;
    var prefix := DecodeText(n, port.rest).value;
    TextOnto(n, b);
    U16Onto(host.rest);
    TextOnto(n, port.rest);
    assert b == (EncodeText(host.value) + (U16Be(port.value) + EncodeText(prefix.value))) + prefix.rest;
  }

  // ---- pins -------------------------------------------------------------

  function DecodePin(b: bytes): Option<Read<Pin>> {
    var r :- Take(b, 32);
    Some(Read(Pin(r.value), r.rest))
  }

  function PinCodec(): Codec<Pin> { Codec((_: Pin) => true, (p: Pin) => p.sha256, (_: Pin) => Fixed(32), DecodePin) }

  lemma PinSound()
    ensures PinCodec().Sound()
    ensures forall p :: Spells(PinCodec().enc(p), PinCodec().enc(p), PinCodec().free(p))
  {
    var c := PinCodec();
    forall p: Pin, e, rest ensures c.Back(p, e, rest) {
      SpellsFixed(e, p.sha256);
      TakeBack(p.sha256, rest);
    }
    forall b ensures c.Onto(b) {
      if DecodePin(b).Some? {
        var r := Take(b, 32).value;
        TakeOnto(b, 32);
        SpellsFixed(r.value, r.value);
      }
    }
    forall p: Pin ensures Spells(p.sha256, p.sha256, Fixed(32)) { SpellsFixed(p.sha256, p.sha256); }
  }

  function EncodePins(pins: seq<Pin>): bytes { EncodeCounted(PinCodec(), pins) }
  function DecodePins(b: bytes): Option<Read<seq<Pin>>> { DecodeCounted(PinCodec(), MAX_PINS, b) }

  lemma PinsBack(pins: seq<Pin>, rest: bytes)
    requires |pins| <= MAX_PINS
    ensures DecodePins(EncodePins(pins) + rest) == Some(Read(pins, rest))
  {
    PinSound();
    CountedSpellsItself(PinCodec(), pins);
    CountedBack(PinCodec(), MAX_PINS, pins, EncodePins(pins), rest);
  }

  lemma PinsOnto(b: bytes)
    requires DecodePins(b).Some?
    ensures var r := DecodePins(b).value; |r.value| <= MAX_PINS && b == EncodePins(r.value) + r.rest
  {
    PinSound();
    var r := DecodePins(b).value;
    var e := CountedOnto(PinCodec(), MAX_PINS, b);
    AllFixed(r.value);
    SpellsFixed(e, EncodePins(r.value));
  }

  lemma AllFixed(pins: seq<Pin>)
    ensures FreeCounted(PinCodec(), pins) == Fixed(|EncodePins(pins)|)
  {
    ListFixed(pins);
    var n := |EncodeList(PinCodec(), pins)|;
    assert Fixed(1) + Fixed(n) == Fixed(1 + n);
  }

  lemma {:induction false} ListFixed(pins: seq<Pin>)
    ensures FreeList(PinCodec(), pins) == Fixed(|EncodeList(PinCodec(), pins)|)
    decreases |pins|
  {
    if pins != [] {
      ListFixed(pins[1..]);
      var n := |EncodeList(PinCodec(), pins[1..])|;
      assert Fixed(32) + Fixed(n) == Fixed(32 + n);
    }
  }

  // ---- the onion, if the flag says there is one -------------------------

  function EncodeTail(o: Option<OnionAddress>): bytes { if o.Some? then Hints.EncodeOnion(o.value) else [] }
  function TailFree(o: Option<OnionAddress>): seq<bool> { if o.Some? then Hints.OnionFree() else [] }

  function DecodeTail(present: bool, b: bytes): Option<Read<Option<OnionAddress>>> {
    if !present then Some(Read(None, b))
    else
      var o :- Hints.DecodeOnion(b);
      Some(Read(Some(o.value), o.rest))
  }

  lemma TailBack(e: bytes, o: Option<OnionAddress>, rest: bytes)
    requires Spells(e, EncodeTail(o), TailFree(o))
    ensures DecodeTail(o.Some?, e + rest) == Some(Read(o, rest))
  {
    if o.Some? { Hints.OnionBack(e, o.value, rest); } else { assert e + rest == rest; }
  }

  lemma TailOnto(present: bool, b: bytes) returns (e: bytes)
    requires DecodeTail(present, b).Some?
    ensures var r := DecodeTail(present, b).value;
      && r.value.Some? == present && b == e + r.rest
      && Spells(e, EncodeTail(r.value), TailFree(r.value))
  {
    if present { e := Hints.OnionOnto(b); } else { e := []; }
  }

  lemma TailSpellsItself(o: Option<OnionAddress>)
    ensures |EncodeTail(o)| == |TailFree(o)| && Spells(EncodeTail(o), EncodeTail(o), TailFree(o))
  {
    if o.Some? { Hints.SpellsOnion(o.value); }
  }

  // ---- the link ---------------------------------------------------------

  function Head(l: ServerLink): bytes {
    EncodeFlags(l.GetFlags()) + (EncodePlace(l.GetPlace()) + EncodePins(l.pins))
  }

  /** `ServerLink::to_bytes`. */
  function Encode(l: ServerLink): bytes { Head(l) + EncodeTail(l.onion) }

  function CaseFree(l: ServerLink): seq<bool> { Fixed(|Head(l)|) + TailFree(l.onion) }

  function ReadParts(n: Names, b: bytes): Option<Read<ServerLink>> {
    var f :- DecodeFlags(b);
    var p :- DecodePlace(n, f.rest);
    var pins :- DecodePins(p.rest);
    var o :- DecodeTail(f.value.hasOnion, pins.rest);
    Some(Read(
      ServerLink(f.value.kind, p.value.host, p.value.port, p.value.prefix, pins.value, o.value), o.rest))
  }

  function ReadLink(n: Names, b: bytes): Option<Read<ServerLink>> {
    var r :- ReadParts(n, b);
    if Valid(n, r.value) then Some(r) else None
  }

  function LinkCodec(n: Names): Codec<ServerLink> {
    Codec((l: ServerLink) => Valid(n, l), Encode, CaseFree, (b: bytes) => ReadLink(n, b))
  }

  /** `ServerLink::from_bytes`. */
  function Decode(n: Names, b: bytes): Option<ServerLink> { LinkCodec(n).Whole(b) }

  lemma HeadBack(n: Names, l: ServerLink, e: bytes, rest: bytes)
    requires Valid(n, l) && DecodeTail(l.onion.Some?, e) == Some(Read(l.onion, rest))
    ensures ReadLink(n, Head(l) + e) == Some(Read(l, rest))
  {
    var r2 := EncodePins(l.pins) + e;
    var r1 := EncodePlace(l.GetPlace()) + r2;
    Regroup(EncodeFlags(l.GetFlags()), EncodePlace(l.GetPlace()) + EncodePins(l.pins), e);
    Regroup(EncodePlace(l.GetPlace()), EncodePins(l.pins), e);
    FlagsBack(l.GetFlags(), r1);
    PlaceBack(n, l.GetPlace(), r2);
    PinsBack(l.pins, e);
  }

  lemma HeadOnto(n: Names, b: bytes, l: ServerLink, rest: bytes) returns (e: bytes)
    requires ReadParts(n, b) == Some(Read(l, rest))
    ensures exists present :: DecodeTail(present, e) == Some(Read(l.onion, rest))
    ensures b == Head(l) + e
  {
    var f := DecodeFlags(b).value;
    var p := DecodePlace(n, f.rest).value;
    var pins := DecodePins(p.rest).value;
    e := pins.rest;
    assert DecodeTail(f.value.hasOnion, e) == Some(Read(l.onion, rest));
    FlagsOnto(b);
    PlaceOnto(n, f.rest);
    PinsOnto(p.rest);
    assert f.value == l.GetFlags() && p.value == l.GetPlace() && pins.value == l.pins;
    Regroup(EncodePlace(p.value), EncodePins(pins.value), e);
    Regroup(EncodeFlags(f.value), EncodePlace(p.value) + EncodePins(pins.value), e);
  }

  lemma LinkBack(n: Names, l: ServerLink, e: bytes, rest: bytes)
    requires Valid(n, l) && Spells(e, Encode(l), CaseFree(l))
    ensures ReadLink(n, e + rest) == Some(Read(l, rest))
  {
    TailSpellsItself(l.onion);
    var f := SplitHead(e, Head(l), EncodeTail(l.onion), TailFree(l.onion));
    TailBack(f, l.onion, rest);
    HeadBack(n, l, f + rest, rest);
    Regroup(Head(l), f, rest);
  }

  lemma LinkOnto(n: Names, b: bytes) returns (e: bytes)
    requires ReadLink(n, b).Some?
    ensures var r := ReadLink(n, b).value;
      Valid(n, r.value) && b == e + r.rest && Spells(e, Encode(r.value), CaseFree(r.value))
  {
    var r := ReadLink(n, b).value;
    var s := HeadOnto(n, b, r.value, r.rest);
    var present :| DecodeTail(present, s) == Some(Read(r.value.onion, r.rest));
    var f := TailOnto(present, s);
    TailSpellsItself(r.value.onion);
    e := Head(r.value) + f;
    JoinHead(Head(r.value), f, EncodeTail(r.value.onion), TailFree(r.value.onion));
    Regroup(Head(r.value), f, r.rest);
  }

  lemma LinkSound(n: Names)
    ensures LinkCodec(n).Sound()
  {
    var c := LinkCodec(n);
    forall v, e, rest ensures c.Back(v, e, rest) {
      if Valid(n, v) && Spells(e, Encode(v), CaseFree(v)) { LinkBack(n, v, e, rest); }
    }
    forall b ensures c.Onto(b) {
      if ReadLink(n, b).Some? { var e := LinkOnto(n, b); }
    }
    forall v ensures |c.enc(v)| == |c.free(v)| { TailSpellsItself(v.onion); }
  }

  // ---- what the link format promises ------------------------------------

  /** The decoder accepts exactly the encodings of valid links, in any case of the onion host. */
  lemma DecodesExactly(n: Names, b: bytes, l: ServerLink)
    ensures Decode(n, b) == Some(l) <==> Valid(n, l) && Spells(b, Encode(l), CaseFree(l))
  {
    LinkSound(n);
    LinkCodec(n).WholeExactly(b, l);
  }

  /** A link comes back if and only if it passes validation. */
  lemma RoundTrip(n: Names, l: ServerLink)
    ensures Decode(n, Encode(l)) == Some(l) <==> Valid(n, l)
  {
    TailSpellsItself(l.onion);
    JoinHead(Head(l), EncodeTail(l.onion), EncodeTail(l.onion), TailFree(l.onion));
    DecodesExactly(n, Encode(l), l);
  }

  /** Truncations and extensions of an accepted string are refused. */
  lemma PrefixFree(n: Names, b: bytes, more: bytes)
    requires Decode(n, b).Some? && Decode(n, b + more).Some?
    ensures more == []
  {
    LinkSound(n);
    LinkCodec(n).PrefixFree(b, more);
  }

  /** "atom-rdv-1:" */
  const LINK_PREFIX: bytes := [0x61, 0x74, 0x6f, 0x6d, 0x2d, 0x72, 0x64, 0x76, 0x2d, 0x31, 0x3a]

  /** "atom-live-rdv-link-checksum-v1" */
  const CHECKSUM_DOMAIN: bytes :=
    [0x61, 0x74, 0x6f, 0x6d, 0x2d, 0x6c, 0x69, 0x76, 0x65, 0x2d, 0x72, 0x64, 0x76, 0x2d, 0x6c, 0x69,
     0x6e, 0x6b, 0x2d, 0x63, 0x68, 0x65, 0x63, 0x6b, 0x73, 0x75, 0x6d, 0x2d, 0x76, 0x31]

  function Style(h: bytes -> Digest): Envelope.Style { Envelope.Style(LINK_PREFIX, CHECKSUM_DOMAIN, h) }

  function ToText(h: bytes -> Digest, l: ServerLink): bytes { Envelope.Wrap(Style(h), Encode(l)) }

  function FromText(h: bytes -> Digest, n: Names, text: bytes): Option<ServerLink> {
    var payload :- Envelope.Unwrap(Style(h), text);
    Decode(n, payload)
  }

  /** Pasting a link in any ASCII case, with any white space around it, gives it back if and only if
      it passes validation. */
  lemma PasteRoundTrip(
    h: bytes -> Digest, n: Names, l: ServerLink, before: bytes, text: bytes, after: bytes)
    requires Blank(before) && Blank(after) && Lower(text) == ToText(h, l)
    ensures FromText(h, n, before + text + after) == Some(l) <==> Valid(n, l)
  {
    Nonempty(l);
    StyleIsGood(h);
    Envelope.Pasted(Style(h), Encode(l), before, text, after);
    RoundTrip(n, l);
  }

  lemma Nonempty(l: ServerLink)
    ensures Encode(l) != []
  {
  }

  lemma StyleIsGood(h: bytes -> Digest)
    ensures Envelope.GoodPrefix(Style(h).prefix)
  {
    assert Lower(LINK_PREFIX) == LINK_PREFIX;
  }
}
