/** Reading the reflexive address out of a STUN binding response (sections 6 and 15 of RFC 5389). */
module Stun {
  import opened Bytes
  import opened Base32

  const BINDING_SUCCESS: nat := 0x0101
  const MAGIC_COOKIE: bytes := [0x21, 0x12, 0xa4, 0x42]
  const XOR_MAPPED_ADDRESS: nat := 0x0020
  const MAPPED_ADDRESS: nat := 0x0001
  const HEADER_LEN: nat := 20

  type TxId = t: bytes | |t| == 12 witness Zeros(12)
  type Ip = b: bytes | |b| == 4 || |b| == 16 witness Zeros(4)
  datatype SocketAddr = SocketAddr(ip: Ip, port: nat)

  // ---- exclusive or -----------------------------------------------------

  function XorBits(a: bits, b: bits): (r: bits)
    requires |a| == |b|
    ensures |r| == |a|
  {
    seq(|a|, i requires 0 <= i < |a| => a[i] != b[i])
  }

  function Xor(a: byte, b: byte): byte {
    Widths();
    FromBits(XorBits(ToBits(a, 8), ToBits(b, 8)))
  }

  lemma XorTwice(a: byte, b: byte)
    ensures Xor(Xor(a, b), b) == a
  {
    Widths();
    var x, y := ToBits(a, 8), ToBits(b, 8);
    BitsOnto(XorBits(x, y));
    assert XorBits(XorBits(x, y), y) == x;
    BitsRoundTrip(a, 8);
  }

  /** Byte by byte against the front of a key. */
  function Masked(b: bytes, key: bytes): (r: bytes)
    requires |b| <= |key|
    ensures |r| == |b|
  {
    seq(|b|, i requires 0 <= i < |b| => Xor(b[i], key[i]))
  }

  lemma MaskedTwice(b: bytes, key: bytes)
    requires |b| <= |key|
    ensures Masked(Masked(b, key), key) == b
  {
    forall i | 0 <= i < |b| ensures Xor(Xor(b[i], key[i]), key[i]) == b[i] { XorTwice(b[i], key[i]); }
  }

  method MaskInPlace(out: array<byte>, key: bytes)
    requires out.Length <= |key|
    modifies out
    ensures out[..] == Masked(old(out[..]), key)
  {
    for i := 0 to out.Length
      invariant forall k :: 0 <= k < i ==> out[k] == Xor(old(out[k]), key[k])
      invariant forall k :: i <= k < out.Length ==> out[k] == old(out[k])
    {
      out[i] := Xor(out[i], key[i]);
    }
  }

  // ---- address attributes -----------------------------------------------

  /** The cookie, extended with the transaction for IPv6. */
  function Key(txid: TxId): (k: bytes)
    ensures |k| == 16
  {
    MAGIC_COOKIE + txid
  }

  function Unmask(b: bytes, txid: TxId, xored: bool): (r: bytes)
    requires |b| <= 16
    ensures |r| == |b|
  {
    if xored then Masked(b, Key(txid)) else b
  }

  function DecodeAddress(value: bytes, txid: TxId, xored: bool): Option<SocketAddr> {
    if |value| < 4 then None
    else
      var port := FromBigEndian(Unmask(value[2..4], txid, xored));
      if value[1] == 1 && |value| >= 8 then Some(SocketAddr(Unmask(value[4..8], txid, xored), port))
      else if value[1] == 2 && |value| >= 20 then Some(SocketAddr(Unmask(value[4..20], txid, xored), port))
      else None
  }

  method Unmasked(b: bytes, txid: TxId, xored: bool) returns (r: bytes)
    requires |b| <= 16
    ensures r == Unmask(b, txid, xored)
  {
    var out := new byte[|b|](i requires 0 <= i < |b| => b[i]);
    assert out[..] == b;
    if xored { MaskInPlace(out, Key(txid)); }
    r := out[..];
  }

  /** `decode_address`. */
  method ReadAddress(value: bytes, txid: TxId, xored: bool) returns (r: Option<SocketAddr>)
    ensures r == DecodeAddress(value, txid, xored)
  {
    if |value| < 4 { return None; }
    var port := Unmasked(value[2..4], txid, xored);
    var end := if value[1] == 1 then 8 else 20;
    if (value[1] != 1 && value[1] != 2) || |value| < end { return None; }
    var ip := Unmasked(value[4..end], txid, xored);
    r := Some(SocketAddr(ip, FromBigEndian(port)));
  }

  /** The attribute as sections 15.1 and 15.2 of RFC 5389 lay it out; the first byte is not used. */
  function EncodeAddress(unused: byte, a: SocketAddr, txid: TxId, xored: bool): bytes {
    [unused, if |a.ip| == 4 then 1 else 2] + Unmask(U16Be(a.port), txid, xored) + Unmask(a.ip, txid, xored)
  }

  /** Every IPv4 and IPv6 address and port comes back, plain or masked, whatever follows it. */
  lemma AddressRoundTrip(unused: byte, a: SocketAddr, txid: TxId, xored: bool, more: bytes)
    requires a.port < U16_RANGE
    ensures DecodeAddress(EncodeAddress(unused, a, txid, xored) + more, txid, xored) == Some(a)
  {
    var family: byte := if |a.ip| == 4 then 1 else 2;
    Layout(unused, family, Unmask(U16Be(a.port), txid, xored), Unmask(a.ip, txid, xored), more);
    UnmaskTwice(U16Be(a.port), txid, xored);
    UnmaskTwice(a.ip, txid, xored);
    U16BeRoundTrip(a.port);
  }

  lemma UnmaskTwice(b: bytes, txid: TxId, xored: bool)
    requires |b| <= 16
    ensures Unmask(Unmask(b, txid, xored), txid, xored) == b
  {
    MaskedTwice(b, Key(txid));
  }

  lemma Layout(unused: byte, family: byte, port: bytes, ip: bytes, more: bytes)
    requires |port| == 2
    ensures var v := [unused, family] + port + ip + more;
      |v| >= 4 + |ip| && v[1] == family && v[2..4] == port && v[4..4 + |ip|] == ip
  {
  }

  // ---- the attribute list -----------------------------------------------

  datatype Attribute = Attribute(kind: nat, value: bytes)

  /** The attributes of a body, up to one that runs past its end. */
  datatype Listing = Listing(attributes: seq<Attribute>, broken: bool)

  function Padded(n: nat): (r: nat)
    ensures n <= r < n + 4 && r % 4 == 0
  {
    (n + 3) / 4 * 4
  }

  /** An attribute and the room it takes with its padding. */
  datatype Piece = Piece(a: Attribute, size: nat)

  /** The attribute at the front, unless it runs past the end. */
  function Front(body: bytes): (p: Option<Piece>)
    requires |body| >= 4
    ensures p.Some? ==> p.value.size >= 4
  {
    var kind, len := FromBigEndian(body[..2]), FromBigEndian(body[2..4]);
    if 4 + len > |body| then None
    else Some(Piece(Attribute(kind, body[4..4 + len]), 4 + Padded(len)))
  }

  function After(body: bytes, n: nat): bytes { body[Min(n, |body|)..] }

  function Attributes(body: bytes): Listing
    decreases |body|
  {
    if |body| < 4 then Listing([], false)
    else
      match Front(body)
      case None => Listing([], true)
      case Some(p) =>
        var rest := Attributes(After(body, p.size));
        Listing([p.a] + rest.attributes, rest.broken)
  }

  /** The first attribute of a kind. */
  function First(attributes: seq<Attribute>, kind: nat): Option<bytes> {
    if attributes == [] then None
    else if attributes[0].kind == kind then Some(attributes[0].value)
    else First(attributes[1..], kind)
  }

  /** The first XOR-MAPPED-ADDRESS decides; failing one, the first MAPPED-ADDRESS, unless the list is
      broken. */
  function Choose(l: Listing, txid: TxId): Option<SocketAddr> {
    var xor, plain := First(l.attributes, XOR_MAPPED_ADDRESS), First(l.attributes, MAPPED_ADDRESS);
    if xor.Some? then DecodeAddress(xor.value, txid, true)
    else if l.broken || plain.None? then None
    else DecodeAddress(plain.value, txid, false)
  }

  /** A success response to this transaction that is as long as it claims. */
  predicate GoodHeader(msg: bytes, txid: TxId) {
    && |msg| >= HEADER_LEN
    && FromBigEndian(msg[0..2]) == BINDING_SUCCESS
    && msg[4..8] == MAGIC_COOKIE
    && msg[8..20] == txid
    && HEADER_LEN + FromBigEndian(msg[2..4]) <= |msg|
  }

  function Declared(msg: bytes, txid: TxId): bytes
    requires GoodHeader(msg, txid)
  {
    msg[HEADER_LEN..HEADER_LEN + FromBigEndian(msg[2..4])]
  }

  function Response(msg: bytes, txid: TxId): Option<SocketAddr> {
    if !GoodHeader(msg, txid) then None else Choose(Attributes(Declared(msg, txid)), txid)
  }

  // ---- the loop ---------------------------------------------------------

  /** What remains to be decided after some attributes gave `fallback`. */
  function Remaining(l: Listing, fallback: Option<Option<SocketAddr>>, txid: TxId): Option<SocketAddr> {
    var xor, plain := First(l.attributes, XOR_MAPPED_ADDRESS), First(l.attributes, MAPPED_ADDRESS);
    if xor.Some? then DecodeAddress(xor.value, txid, true)
    else if l.broken then None
    else if fallback.Some? then fallback.value
    else if plain.None? then None
    else DecodeAddress(plain.value, txid, false)
  }

  function Noted(a: Attribute, fallback: Option<Option<SocketAddr>>, txid: TxId): Option<Option<SocketAddr>> {
    if a.kind == MAPPED_ADDRESS && fallback.None? then Some(DecodeAddress(a.value, txid, false)) else fallback
  }

  lemma RemainingStep(a: Attribute, l: Listing, fallback: Option<Option<SocketAddr>>, txid: TxId)
    ensures Remaining(Listing([a] + l.attributes, l.broken), fallback, txid) ==
      if a.kind == XOR_MAPPED_ADDRESS then DecodeAddress(a.value, txid, true)
      else Remaining(l, Noted(a, fallback, txid), txid)
  {
    assert ([a] + l.attributes)[1..] == l.attributes;
  }

  /** `parse_response`. */
  method ParseResponse(msg: bytes, txid: TxId) returns (r: Option<SocketAddr>)
    ensures r == Response(msg, txid)
  {
    if !GoodHeader(msg, txid) { return None; }
    Starts(Declared(msg, txid), txid);
    r := ParseBody(Declared(msg, txid), txid, Choose(Attributes(Declared(msg, txid)), txid));
  }

  /** With `left` to be read the loop owes `goal`. */
  ghost predicate Owes(left: bytes, fallback: Option<Option<SocketAddr>>, txid: TxId, goal: Option<SocketAddr>) {
    Remaining(Attributes(left), fallback, txid) == goal
  }

  lemma AttributesFront(left: bytes, p: Piece)
    requires |left| >= 4 && Front(left) == Some(p)
    ensures var rest := Attributes(After(left, p.size)); Attributes(left) == Listing([p.a] + rest.attributes, rest.broken)
  {
  }

  lemma TurnPays(left: bytes, fallback: Option<Option<SocketAddr>>, txid: TxId, p: Piece, goal: Option<SocketAddr>)
    requires |left| >= 4 && Front(left) == Some(p) && Owes(left, fallback, txid, goal)
    ensures if p.a.kind == XOR_MAPPED_ADDRESS then goal == DecodeAddress(p.a.value, txid, true)
      else Owes(After(left, p.size), Noted(p.a, fallback, txid), txid, goal)
  {
    AttributesFront(left, p);
    RemainingStep(p.a, Attributes(After(left, p.size)), fallback, txid);
  }

  lemma BrokenOwesNothing(left: bytes, fallback: Option<Option<SocketAddr>>, txid: TxId, goal: Option<SocketAddr>)
    requires |left| >= 4 && Front(left).None? && Owes(left, fallback, txid, goal)
    ensures goal == None
  {
  }

  lemma EndOwesFallback(left: bytes, fallback: Option<Option<SocketAddr>>, txid: TxId, goal: Option<SocketAddr>)
    requires |left| < 4 && Owes(left, fallback, txid, goal)
    ensures goal == if fallback.Some? then fallback.value else None
  {
  }

  lemma AfterAfter(body: bytes, pos: nat, n: nat)
    ensures After(After(body, pos), n) == After(body, pos + n)
  {
  }

  datatype Progress = Return(r: Option<SocketAddr>) | Continue(size: nat, fallback: Option<Option<SocketAddr>>)

  /** The body of the loop. */
  method OneTurn(left: bytes, fallback: Option<Option<SocketAddr>>, txid: TxId, ghost goal: Option<SocketAddr>)
    returns (p: Progress)
    requires |left| >= 4 && Owes(left, fallback, txid, goal)
    ensures p.Return? ==> p.r == goal
    ensures p.Continue? ==> p.size > 0 && Owes(After(left, p.size), p.fallback, txid, goal)
  {
    var front := Front(left);
    if front.None? {
      BrokenOwesNothing(left, fallback, txid, goal);
      return Return(None);
    }
    var a := front.value.a;
    TurnPays(left, fallback, txid, front.value, goal);
    if a.kind == XOR_MAPPED_ADDRESS {
      var found := ReadAddress(a.value, txid, true);
      return Return(found);
    }
    var kept := fallback;
    if a.kind == MAPPED_ADDRESS && fallback.None? {
      var found := ReadAddress(a.value, txid, false);
      kept := Some(found);
    }
    p := Continue(front.value.size, kept);
  }

  method ParseBody(body: bytes, txid: TxId, ghost goal: Option<SocketAddr>) returns (r: Option<SocketAddr>)
    requires Owes(body, None, txid, goal)
    ensures r == goal
  {
    var pos := 0;
    var fallback: Option<Option<SocketAddr>> := None;
    ghost var left := body;
    while pos + 4 <= |body|
      invariant left == After(body, pos) && Owes(left, fallback, txid, goal)
      decreases |body| - pos
    {
      var p := OneTurn(body[pos..], fallback, txid, goal);
      if p.Return? { return p.r; }
      AfterAfter(body, pos, p.size);
      left := After(left, p.size);
      pos, fallback := pos + p.size, p.fallback;
    }
    EndOwesFallback(left, fallback, txid, goal);
    r := if fallback.Some? then fallback.value else None;
  }

  lemma Starts(body: bytes, txid: TxId)
    ensures Owes(body, None, txid, Choose(Attributes(body), txid))
  {
  }

  // ---- responses as servers write them ----------------------------------

  /** An attribute with the filler bytes behind it. */
  datatype Written = Written(a: Attribute, filler: bytes)

  predicate Writable(w: Written) {
    w.a.kind < U16_RANGE && |w.a.value| < U16_RANGE && |w.a.value| + |w.filler| == Padded(|w.a.value|)
  }

  function Write(ws: seq<Written>): bytes {
    if ws == [] then []
    else U16Be(ws[0].a.kind) + U16Be(|ws[0].a.value|) + ws[0].a.value + ws[0].filler + Write(ws[1..])
  }

  function Listed(ws: seq<Written>): seq<Attribute> {
    if ws == [] then [] else [ws[0].a] + Listed(ws[1..])
  }

  lemma HeadRead(w: Written, rest: bytes)
    requires Writable(w)
    ensures var b := U16Be(w.a.kind) + U16Be(|w.a.value|) + w.a.value + w.filler + rest; var n := |w.a.value|;
      && FromBigEndian(b[..2]) == w.a.kind && FromBigEndian(b[2..4]) == n
      && b[4..4 + n] == w.a.value && 4 + Padded(n) <= |b| && b[4 + Padded(n)..] == rest
  {
    var b := U16Be(w.a.kind) + U16Be(|w.a.value|) + w.a.value + w.filler + rest;
    U16BeRoundTrip(w.a.kind);
    U16BeRoundTrip(|w.a.value|);
    assert b[..2] == U16Be(w.a.kind) && b[2..4] == U16Be(|w.a.value|);
  }

  /** Any list of attributes with any filler is read back whole. */
  lemma {:induction false} ListRoundTrip(ws: seq<Written>)
    requires forall i :: 0 <= i < |ws| ==> Writable(ws[i])
    ensures Attributes(Write(ws)) == Listing(Listed(ws), false)
    decreases |ws|
  {
    if ws != [] {
      HeadRead(ws[0], Write(ws[1..]));
      ListRoundTrip(ws[1..]);
    }
  }

  function Message(txid: TxId, body: bytes, trailing: bytes): bytes {
    U16Be(BINDING_SUCCESS) + U16Be(|body|) + MAGIC_COOKIE + txid + body + trailing
  }

  lemma MessageRead(txid: TxId, body: bytes, trailing: bytes)
    requires |body| < U16_RANGE
    ensures var m := Message(txid, body, trailing); GoodHeader(m, txid) && Declared(m, txid) == body
  {
    var m := Message(txid, body, trailing);
    U16BeRoundTrip(BINDING_SUCCESS);
    U16BeRoundTrip(|body|);
    assert m[0..2] == U16Be(BINDING_SUCCESS) && m[2..4] == U16Be(|body|);
    assert m[4..8] == MAGIC_COOKIE && m[8..20] == txid && m[20..20 + |body|] == body;
  }

  /** A response to the transaction yields the first masked address it lists, and with none the first
      plain one; every other transaction gets nothing from it. */
  lemma ResponseExactly(txid: TxId, other: TxId, ws: seq<Written>, trailing: bytes)
    requires |Write(ws)| < U16_RANGE && forall i :: 0 <= i < |ws| ==> Writable(ws[i])
    ensures Response(Message(txid, Write(ws), trailing), other) ==
      if other == txid then Choose(Listing(Listed(ws), false), txid) else None
  {
    var m := Message(txid, Write(ws), trailing);
    MessageRead(txid, Write(ws), trailing);
    ListRoundTrip(ws);
    assert m[8..20] == txid;
  }

  /** In particular an address put in masked form anywhere in the list, ahead of any other masked one,
      is the one that is found. */
  lemma ReflexiveAddress(
    txid: TxId, before: seq<Written>, unused: byte, a: SocketAddr, filler: bytes, after: seq<Written>, trailing: bytes)
    requires a.port < U16_RANGE
    requires var w := Written(Attribute(XOR_MAPPED_ADDRESS, EncodeAddress(unused, a, txid, true)), filler);
      && (forall i :: 0 <= i < |before + [w] + after| ==> Writable((before + [w] + after)[i]))
      && |Write(before + [w] + after)| < U16_RANGE
    requires forall i :: 0 <= i < |before| ==> before[i].a.kind != XOR_MAPPED_ADDRESS
    ensures var w := Written(Attribute(XOR_MAPPED_ADDRESS, EncodeAddress(unused, a, txid, true)), filler);
      Response(Message(txid, Write(before + [w] + after), trailing), txid) == Some(a)
  {
    var w := Written(Attribute(XOR_MAPPED_ADDRESS, EncodeAddress(unused, a, txid, true)), filler);
    ResponseExactly(txid, txid, before + [w] + after, trailing);
    FirstBehind(before, w, after);
    AddressRoundTrip(unused, a, txid, true, []);
    assert w.a.value + [] == w.a.value;
  }

  lemma {:induction false} FirstBehind(before: seq<Written>, w: Written, after: seq<Written>)
    requires forall i :: 0 <= i < |before| ==> before[i].a.kind != w.a.kind
    ensures First(Listed(before + [w] + after), w.a.kind) == Some(w.a.value)
    decreases |before|
  {
    var all := before + [w] + after;
    if before == [] {
      assert all[0] == w;
    } else {
      assert all[0] == before[0] && all[1..] == before[1..] + [w] + after;
      FirstBehind(before[1..], w, after);
    }
  }

  // ---- lists that end in an overrun -------------------------------------

  /** An attribute that claims more than is left. */
  datatype Overrun = Overrun(kind: nat, claimed: nat, left: bytes)

  predicate Overruns(o: Overrun) { o.kind < U16_RANGE && o.claimed < U16_RANGE && |o.left| < o.claimed }

  function WriteOverrun(o: Overrun): bytes { U16Be(o.kind) + U16Be(o.claimed) + o.left }

  lemma OverrunRead(o: Overrun)
    requires Overruns(o)
    ensures Attributes(WriteOverrun(o)) == Listing([], true)
  {
    var b := WriteOverrun(o);
    U16BeRoundTrip(o.claimed);
    assert b[2..4] == U16Be(o.claimed);
    assert Front(b) == None;
  }

  /** The attributes before the overrun are listed, and the list is broken. */
  lemma {:induction false} BrokenList(ws: seq<Written>, o: Overrun)
    requires Overruns(o) && forall i :: 0 <= i < |ws| ==> Writable(ws[i])
    ensures Attributes(Write(ws) + WriteOverrun(o)) == Listing(Listed(ws), true)
    decreases |ws|
  {
    if ws == [] {
      OverrunRead(o);
      assert Write(ws) + WriteOverrun(o) == WriteOverrun(o);
    } else {
      var head := U16Be(ws[0].a.kind) + U16Be(|ws[0].a.value|) + ws[0].a.value + ws[0].filler;
      Regroup(head, Write(ws[1..]), WriteOverrun(o));
      HeadRead(ws[0], Write(ws[1..]) + WriteOverrun(o));
      BrokenList(ws[1..], o);
    }
  }

  /** A response whose list ends in an overrun still yields the first masked address before it, and
      otherwise nothing, whatever plain addresses it lists. */
  lemma BrokenResponse(txid: TxId, ws: seq<Written>, o: Overrun, trailing: bytes)
    requires Overruns(o) && |Write(ws) + WriteOverrun(o)| < U16_RANGE && forall i :: 0 <= i < |ws| ==> Writable(ws[i])
    ensures Response(Message(txid, Write(ws) + WriteOverrun(o), trailing), txid) == Choose(Listing(Listed(ws), true), txid)
    ensures First(Listed(ws), XOR_MAPPED_ADDRESS) == None ==>
      Response(Message(txid, Write(ws) + WriteOverrun(o), trailing), txid) == None
  {
    MessageRead(txid, Write(ws) + WriteOverrun(o), trailing);
    BrokenList(ws, o);
  }

  /** So a plain address is found if the list ends properly, and lost, though already decoded, if it
      ends in an overrun. */
  lemma FallbackIsLost(txid: TxId, unused: byte, a: SocketAddr, o: Overrun, trailing: bytes)
    requires a.port < U16_RANGE && Overruns(o)
    requires var w := Written(Attribute(MAPPED_ADDRESS, EncodeAddress(unused, a, txid, false)), []);
      |Write([w]) + WriteOverrun(o)| < U16_RANGE
    ensures var w := Written(Attribute(MAPPED_ADDRESS, EncodeAddress(unused, a, txid, false)), []);
      && Response(Message(txid, Write([w]), trailing), txid) == Some(a)
      && Response(Message(txid, Write([w]) + WriteOverrun(o), trailing), txid) == None
  {
    var w := Written(Attribute(MAPPED_ADDRESS, EncodeAddress(unused, a, txid, false)), []);
    assert [w][1..] == [] && Listed([w]) == [w.a];
    OnlyPlain(w.a);
    AddressRoundTrip(unused, a, txid, false, []);
    assert w.a.value + [] == w.a.value;
    ResponseExactly(txid, txid, [w], trailing);
    BrokenResponse(txid, [w], o, trailing);
  }

  lemma OnlyPlain(a: Attribute)
    requires a.kind == MAPPED_ADDRESS
    ensures First([a], XOR_MAPPED_ADDRESS) == None && First([a], MAPPED_ADDRESS) == Some(a.value)
  {
    assert [a][1..] == [];
  }
}
