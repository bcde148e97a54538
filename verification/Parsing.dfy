/** The decoders as the program runs them: one cursor moving through the buffer. */
module Parsing {
  import opened Bytes
  import opened Reading
  import Cursor
  import Codec
  import Onion
  import Hints
  import Bundle
  import Ticket

  /** One address, by its tag. */
  method NextHint(r: Reader) returns (got: Option<Hints.Endpoint>)
    requires r.Valid()
    modifies r
    ensures r.Valid() && Follows(Hints.DecodeHint(old(r.Left())), got, r.Left())
  {
    var tag :- r.U8();
    if tag == Hints.TAG_V4 {
      var a :- r.Take(4);
      var p :- r.U16();
      got := Some(Hints.V4(a, p));
    } else if tag == Hints.TAG_V6 {
      var a :- r.Take(16);
      var p :- r.U16();
      got := Some(Hints.V6(a, p));
    } else if tag == Hints.TAG_ONION {
      var host :- r.Take(Onion.HOST_LEN);
      var p :- r.U16();
      var o :- Onion.NewOnion(host, p);
      got := Some(Hints.Hidden(o));
    } else {
      got := None;
    }
  }

  ghost predicate Continues(
    spec: Option<Cursor.Read<seq<Hints.Endpoint>>>, done: seq<Hints.Endpoint>,
    more: Option<Cursor.Read<seq<Hints.Endpoint>>>)
  {
    match more
    case None => spec.None?
    case Some(t) => spec == Some(Cursor.Read(done + t.value, t.rest))
  }

  lemma ContinuesStep(
    spec: Option<Cursor.Read<seq<Hints.Endpoint>>>, done: seq<Hints.Endpoint>, n: nat, left: bytes)
    requires n > 0 && Continues(spec, done, Codec.DecodeList(Hints.HintCodec(), n, left))
    ensures match Hints.DecodeHint(left)
      case None => spec.None?
      case Some(h) => Continues(spec, done + [h.value], Codec.DecodeList(Hints.HintCodec(), n - 1, h.rest))
  {
    var c := Hints.HintCodec();
    match c.dec(left)
    case None =>
    case Some(h) =>
      match Codec.DecodeList(c, n - 1, h.rest)
      case None =>
      case Some(t) => assert done + ([h.value] + t.value) == (done + [h.value]) + t.value;
  }

  lemma ContinuesEnds(spec: Option<Cursor.Read<seq<Hints.Endpoint>>>, done: seq<Hints.Endpoint>, left: bytes)
    requires Continues(spec, done, Codec.DecodeList(Hints.HintCodec(), 0, left))
    ensures Follows(spec, Some(done), left)
  {
    assert done + [] == done;
  }

  lemma ContinuesStarts(spec: Option<Cursor.Read<seq<Hints.Endpoint>>>)
    ensures Continues(spec, [], spec)
  {
    assert spec.Some? ==> [] + spec.value.value == spec.value.value;
  }

  /** After `done`, `n` more hints from `left` are owed. */
  ghost predicate Owes(spec: Option<Cursor.Read<seq<Hints.Endpoint>>>, done: seq<Hints.Endpoint>, n: nat, left: bytes) {
    Continues(spec, done, Codec.DecodeList(Hints.HintCodec(), n, left))
  }

  method NextCode(
    r: Reader, ghost spec: Option<Cursor.Read<seq<Hints.Endpoint>>>, done: seq<Hints.Endpoint>, ghost n: nat)
    returns (got: Option<seq<Hints.Endpoint>>)
    requires r.Valid() && n > 0 && Owes(spec, done, n, r.Left())
    modifies r
    ensures r.Valid() && (got.None? ==> spec.None?) && (got.Some? ==> Owes(spec, got.value, n - 1, r.Left()))
  {
    ContinuesStep(spec, done, n, r.Left());
    var h :- NextHint(r);
    got := Some(done + [h]);
  }

  method NextCodes(r: Reader, count: nat) returns (got: Option<seq<Hints.Endpoint>>)
    requires r.Valid()
    modifies r
    ensures r.Valid() && Follows(Codec.DecodeList(Hints.HintCodec(), count, old(r.Left())), got, r.Left())
  {
    ghost var spec := Codec.DecodeList(Hints.HintCodec(), count, r.Left());
    var hints: seq<Hints.Endpoint> := [];
    ContinuesStarts(spec);
    for i := 0 to count
      invariant r.Valid() && Owes(spec, hints, count - i, r.Left())
    {
      hints :- NextCode(r, spec, hints, count - i);
    }
    ContinuesEnds(spec, hints, r.Left());
    got := Some(hints);
  }

  /** `decode_hints`. */
  method NextHints(r: Reader) returns (got: Option<seq<Hints.Endpoint>>)
    requires r.Valid()
    modifies r
    ensures r.Valid() && Follows(Hints.DecodeHints(old(r.Left())), got, r.Left())
  {
    var count :- r.U8();
    if count > Hints.MAX_HINTS { return None; }
    got := NextCodes(r, count);
  }

  /** `encode_hints` appends to the buffer it is given. */
  method AppendHints(hs: seq<Hints.Endpoint>, buf: bytes) returns (out: bytes)
    ensures out == buf + Hints.EncodeHints(hs)
  {
    var c := Hints.HintCodec();
    var codes: bytes := [];
    for i := 0 to |hs|
      invariant codes + Codec.EncodeList(c, hs[i..]) == Codec.EncodeList(c, hs)
    {
      assert hs[i..][1..] == hs[i + 1..];
      codes := codes + Hints.EncodeHint(hs[i]);
    }
    assert hs[|hs|..] == [];
    out := buf + ([|hs| % 256] + codes);
  }

  /** `IdentityBundle::from_bytes`. */
  method ParseBundle(b: bytes) returns (got: Option<Bundle.IdentityBundle>)
    ensures got == Bundle.Decode(b)
  {
    var r := new Reader(b);
    var version :- r.U8();
    if version != Bundle.BUNDLE_VERSION { return None; }
    var len :- r.U16();
    if len == 0 { return None; }
    var classical :- r.Take(len);
    var pq := None;
    var pqLen :- r.U16();
    if pqLen != 0 {
      var key :- r.Take(pqLen);
      if |key| != Bundle.PQ_KEY_LEN { return None; }
      pq := Some(key);
    }
    var done := r.IsEmpty();
    got := if done then Some(Bundle.IdentityBundle(classical, pq)) else None;
  }

  /** `Ticket::from_bytes`. */
  method ParseTicket(b: bytes) returns (got: Option<Ticket.Ticket>)
    ensures got == Ticket.Decode(b)
  {
    var r := new Reader(b);
    var version :- r.U8();
    if version != Ticket.FORMAT_VERSION { return None; }
    var suite :- r.U8();
    if suite != Ticket.SUITE_LIVE_PQ1 { return None; }
    var notAfter :- r.U64();
    var len :- r.U16();
    if len == 0 { return None; }
    var code :- r.Take(len);
    var identity :- ParseBundle(code);
    var hints :- NextHints(r);
    var done := r.IsEmpty();
    got := if done then Some(Ticket.Ticket(identity, hints, Ticket.LivePq1, notAfter)) else None;
  }
}
