/** Connection tickets: who the peer is, where to try, and until when. */
module Ticket {
  import opened Bytes
  import opened Cursor
  import opened Ascii
  import opened Spelling
  import opened Codec
  import opened Hints
  import Bundle
  import Envelope

  const FORMAT_VERSION: byte := 1

  /** The one suite there is. */
  datatype Suite = LivePq1
  const SUITE_LIVE_PQ1: byte := 1

  type Seconds = n: nat | n < U64_RANGE

  datatype Ticket = Ticket(
    identity: Bundle.IdentityBundle, hints: seq<Endpoint>, suite: Suite, notAfter: Seconds)

  function EncodeIdentity(i: Bundle.IdentityBundle): bytes {
    U16Be(|Bundle.Encode(i)|) + Bundle.Encode(i)
  }

  function Preamble(notAfter: Seconds): bytes { [FORMAT_VERSION] + ([SUITE_LIVE_PQ1] + U64Be(notAfter)) }

  function Head(t: Ticket): bytes { Preamble(t.notAfter) + EncodeIdentity(t.identity) }

  /** `Ticket::to_bytes`: the identity's length is cut to 16 bits, the hint count to eight. */
  function Encode(t: Ticket): bytes { Head(t) + EncodeHints(t.hints) }

  /** The onion hosts among the hints. */
  function CaseFree(t: Ticket): seq<bool> { Fixed(|Head(t)|) + HintsFree(t.hints) }

  function DecodeIdentity(b: bytes): Option<Read<Bundle.IdentityBundle>> {
    var len :- U16(b);
    if len.value == 0 then None
    else
      var code :- Take(len.rest, len.value);
      var identity :- Bundle.Decode(code.value);
      Some(Read(identity, code.rest))
  }

  function ReadPreamble(b: bytes): Option<Read<Seconds>> {
    var version :- U8(b);
    if version.value != FORMAT_VERSION then None
    else
      var suite :- U8(version.rest);
      if suite.value != SUITE_LIVE_PQ1 then None else U64(suite.rest)
  }

  function ReadTicket(b: bytes): Option<Read<Ticket>> {
    var notAfter :- ReadPreamble(b);
    var identity :- DecodeIdentity(notAfter.rest);
    var hints :- DecodeHints(identity.rest);
    Some(Read(Ticket(identity.value, hints.value, LivePq1, notAfter.value), hints.rest))
  }

  /** The identity is encodable and short enough for its length field. */
  predicate FitsTicket(i: Bundle.IdentityBundle) { Bundle.Encodable(i) && |Bundle.Encode(i)| < U16_RANGE }

  predicate Encodable(t: Ticket) { FitsTicket(t.identity) && |t.hints| <= MAX_HINTS }

  function TicketCodec(): Codec<Ticket> { Codec(Encodable, Encode, CaseFree, ReadTicket) }

  /** `Ticket::from_bytes`. */
  function Decode(b: bytes): Option<Ticket> { TicketCodec().Whole(b) }

  // ---- proofs -----------------------------------------------------------

  lemma IdentityBack(i: Bundle.IdentityBundle, rest: bytes)
    requires FitsTicket(i)
    ensures DecodeIdentity(EncodeIdentity(i) + rest) == Some(Read(i, rest))
  {
    var code := Bundle.Encode(i);
    assert EncodeIdentity(i) + rest == U16Be(|code|) + (code + rest);
    U16Back(|code|, code + rest);
    TakeBack(code, rest);
    Bundle.DecodesExactly(code, i);
  }

  lemma IdentityOnto(b: bytes)
    requires DecodeIdentity(b).Some?
    ensures var r := DecodeIdentity(b).value; FitsTicket(r.value) && b == EncodeIdentity(r.value) + r.rest
  {
    var len := U16(b).value;
    var code := Take(len.rest, len.value).value;
    U16Onto(b);
    TakeOnto(len.rest, len.value);
    Bundle.DecodesExactly(code.value, Bundle.Decode(code.value).value);
    assert b == (U16Be(|code.value|) + code.value) + code.rest;
  }

  lemma PreambleBack(notAfter: Seconds, rest: bytes)
    ensures ReadPreamble(Preamble(notAfter) + rest) == Some(Read(notAfter, rest))
  {
    var r2 := U64Be(notAfter) + rest;
    assert Preamble(notAfter) + rest == [FORMAT_VERSION] + ([SUITE_LIVE_PQ1] + r2);
    U8Back(FORMAT_VERSION, [SUITE_LIVE_PQ1] + r2);
    U8Back(SUITE_LIVE_PQ1, r2);
    U64Back(notAfter, rest);
  }

  lemma PreambleOnto(b: bytes)
    requires ReadPreamble(b).Some?
    ensures var r := ReadPreamble(b).value; b == Preamble(r.value) + r.rest
  {
    U64Onto(b[2..]);
    assert b[1..][1..] == b[2..];
    assert b == [b[0]] + ([b[1]] + b[2..]);
  }

  lemma HeadBack(t: Ticket, e: bytes, rest: bytes)
    requires FitsTicket(t.identity) && DecodeHints(e) == Some(Read(t.hints, rest))
    ensures ReadTicket(Head(t) + e) == Some(Read(t, rest))
  {
    Regroup(Preamble(t.notAfter), EncodeIdentity(t.identity), e);
    PreambleBack(t.notAfter, EncodeIdentity(t.identity) + e);
    IdentityBack(t.identity, e);
    assert t.suite == LivePq1;
  }

  lemma HeadOnto(b: bytes) returns (e: bytes)
    requires ReadTicket(b).Some?
    ensures var r := ReadTicket(b).value;
      && FitsTicket(r.value.identity) && b == Head(r.value) + e
      && DecodeHints(e) == Some(Read(r.value.hints, r.rest))
  {
    var notAfter := ReadPreamble(b).value;
    var identity := DecodeIdentity(notAfter.rest).value;
    PreambleOnto(b);
    IdentityOnto(notAfter.rest);
    e := identity.rest;
    Regroup(Preamble(notAfter.value), EncodeIdentity(identity.value), e);
  }

  lemma TicketBack(t: Ticket, e: bytes, rest: bytes)
    requires Encodable(t) && Spells(e, Encode(t), CaseFree(t))
    ensures ReadTicket(e + rest) == Some(Read(t, rest))
  {
    HintsSound();
    HintsLengths(t.hints);
    var f := SplitHead(e, Head(t), EncodeHints(t.hints), HintsFree(t.hints));
    assert HintsCodec().Back(t.hints, f, rest);
    HeadBack(t, f + rest, rest);
    Regroup(Head(t), f, rest);
  }

  lemma TicketOnto(b: bytes) returns (e: bytes)
    requires ReadTicket(b).Some?
    ensures var r := ReadTicket(b).value;
      Encodable(r.value) && b == e + r.rest && Spells(e, Encode(r.value), CaseFree(r.value))
  {
    var r := ReadTicket(b).value;
    var t := r.value;
    var s := HeadOnto(b);
    HintsLengths(t.hints);
    var f := HintsOnto(s, t.hints, r.rest);
    e := Head(t) + f;
    JoinHead(Head(t), f, EncodeHints(t.hints), HintsFree(t.hints));
    Regroup(Head(t), f, r.rest);
  }

  lemma TicketSound()
    ensures TicketCodec().Sound()
  {
    var c := TicketCodec();
    forall v, e, rest ensures c.Back(v, e, rest) {
      if Encodable(v) && Spells(e, Encode(v), CaseFree(v)) { TicketBack(v, e, rest); }
    }
    forall b ensures c.Onto(b) {
      if ReadTicket(b).Some? { var e := TicketOnto(b); }
    }
    forall v ensures |c.enc(v)| == |c.free(v)| { HintsLengths(v.hints); }
  }

  lemma SpellsItself(t: Ticket)
    ensures Spells(Encode(t), Encode(t), CaseFree(t))
  {
    HintsLengths(t.hints);
    HintsSpellItself(t.hints);
    SpellsAfter(Head(t), Head(t), EncodeHints(t.hints), EncodeHints(t.hints), HintsFree(t.hints));
  }

  // ---- the binary form --------------------------------------------------

  /** The decoder accepts exactly the encodings of encodable tickets, each in any ASCII case of its
      onion hosts: two strings that decode to one ticket differ nowhere else. */
  lemma DecodesExactly(b: bytes, t: Ticket)
    ensures Decode(b) == Some(t) <==> Encodable(t) && Spells(b, Encode(t), CaseFree(t))
  {
    TicketSound();
    TicketCodec().WholeExactly(b, t);
  }

  /** A ticket comes back if and only if its identity fits and it has at most eight hints. */
  lemma RoundTrip(t: Ticket)
    ensures Decode(Encode(t)) == Some(t) <==> Encodable(t)
  {
    SpellsItself(t);
    DecodesExactly(Encode(t), t);
  }

  /** Truncations and extensions of an accepted string are refused. */
  lemma PrefixFree(b: bytes, more: bytes)
    requires Decode(b).Some? && Decode(b + more).Some?
    ensures more == []
  {
    TicketSound();
    TicketCodec().PrefixFree(b, more);
  }

  /** Strings for one ticket agree byte for byte outside the onion hosts, and up to case inside. */
  lemma SameTicket(a: bytes, b: bytes, i: nat)
    requires Decode(a).Some? && Decode(a) == Decode(b) && i < |a|
    ensures |a| == |b| == |CaseFree(Decode(a).value)|
    ensures if CaseFree(Decode(a).value)[i] then LowerByte(a[i]) == LowerByte(b[i]) else a[i] == b[i]
  {
    var t := Decode(a).value;
    DecodesExactly(a, t);
    DecodesExactly(b, t);
    FoldAt(a, CaseFree(t), i);
    FoldAt(b, CaseFree(t), i);
  }

  // ---- the text form ----------------------------------------------------

  /** "atom-live-1:" */
  const TICKET_PREFIX: bytes := [0x61, 0x74, 0x6f, 0x6d, 0x2d, 0x6c, 0x69, 0x76, 0x65, 0x2d, 0x31, 0x3a]

  /** "atom-live-ticket-checksum-v1" */
  const CHECKSUM_DOMAIN: bytes :=
    [0x61, 0x74, 0x6f, 0x6d, 0x2d, 0x6c, 0x69, 0x76, 0x65, 0x2d, 0x74, 0x69, 0x63, 0x6b, 0x65, 0x74,
     0x2d, 0x63, 0x68, 0x65, 0x63, 0x6b, 0x73, 0x75, 0x6d, 0x2d, 0x76, 0x31]

  function Style(h: bytes -> Digest): Envelope.Style { Envelope.Style(TICKET_PREFIX, CHECKSUM_DOMAIN, h) }

  function ToText(h: bytes -> Digest, t: Ticket): bytes { Envelope.Wrap(Style(h), Encode(t)) }

  function FromText(h: bytes -> Digest, text: bytes): Option<Ticket> {
    var payload :- Envelope.Unwrap(Style(h), text);
    Decode(payload)
  }

  /** Pasting a ticket in any ASCII case, with any white space around it, gives it back if and only
      if it is encodable. */
  lemma PasteRoundTrip(h: bytes -> Digest, t: Ticket, before: bytes, text: bytes, after: bytes)
    requires Blank(before) && Blank(after) && Lower(text) == ToText(h, t)
    ensures FromText(h, before + text + after) == Some(t) <==> Encodable(t)
  {
    Nonempty(t);
    StyleIsGood(h);
    Envelope.Pasted(Style(h), Encode(t), before, text, after);
    RoundTrip(t);
  }

  lemma Nonempty(t: Ticket)
    ensures Encode(t) != []
  {
  }

  lemma StyleIsGood(h: bytes -> Digest)
    ensures Envelope.GoodPrefix(Style(h).prefix)
  {
    assert Lower(TICKET_PREFIX) == TICKET_PREFIX;
  }

  /** And nothing else is taken for a ticket: what is accepted is, up to case and outer white space,
      the text of a spelling of the ticket's code. */
  lemma OnlyTickets(h: bytes -> Digest, text: bytes)
    requires FromText(h, text).Some?
    ensures var t := FromText(h, text).value;
      && Encodable(t)
      && exists b :: Spells(b, Encode(t), CaseFree(t)) && Lower(Trim(text)) == Envelope.Wrap(Style(h), b)
  {
    var b := Envelope.Unwrap(Style(h), text).value;
    Envelope.Unwrapped(Style(h), text, b);
    DecodesExactly(b, Decode(b).value);
  }
}
