/** The frames of the live transfer: `[tag][content_len u32 BE][content][zero padding]`. */
module Wire {
  import opened Bytes

  const HEADER_LEN: nat := 5
  const MAX_FRAME_LEN: nat := 16 * 1024 * 1024

  const OFFER: byte := 1
  const RESUME: byte := 2
  const START: byte := 3
  const DATA: byte := 4
  const DONE: byte := 5
  const ACK: byte := 6
  const COVER: byte := 7
  const FINISH: byte := 8

  datatype Parsed = Parsed(tag: byte, content: bytes)

  function FrameSize(contentLen: nat, frameLen: nat): nat {
    Max(frameLen, contentLen + HEADER_LEN)
  }

  function Frame(tag: byte, content: bytes, frameLen: nat): bytes {
    [tag] + U32Be(|content|) + content + Zeros(FrameSize(|content|, frameLen) - HEADER_LEN - |content|)
  }

  function Parse(raw: bytes): Option<Parsed> {
    if |raw| < HEADER_LEN then None
    else
      var len := FromBigEndian(raw[1..5]);
      if HEADER_LEN + len > |raw| then None
      else Some(Parsed(raw[0], raw[HEADER_LEN..HEADER_LEN + len]))
  }

  /** A built frame has the agreed size, and parsing it drops exactly the padding. */
  lemma ParseFrame(tag: byte, content: bytes, frameLen: nat)
    requires |content| < U32_RANGE
    ensures |Frame(tag, content, frameLen)| == FrameSize(|content|, frameLen)
    ensures Parse(Frame(tag, content, frameLen)) == Some(Parsed(tag, content))
  {
    var raw := Frame(tag, content, frameLen);
    assert raw[1..5] == U32Be(|content|);
    U32BeRoundTrip(|content|);
    assert raw[HEADER_LEN..HEADER_LEN + |content|] == content;
  }

  /** The buffer the implementation allocates, zeroes and fills in place. */
  method BuildFrame(tag: byte, content: bytes, frameLen: nat) returns (v: array<byte>)
    ensures fresh(v) && v[..] == Frame(tag, content, frameLen)
  {
    v := new byte[FrameSize(|content|, frameLen)](_ => 0);
    v[0] := tag;
    var len := U32Be(|content|);
    forall i | 0 <= i < 4 { v[1 + i] := len[i]; }
    forall i | 0 <= i < |content| { v[HEADER_LEN + i] := content[i]; }
    var want := Frame(tag, content, frameLen);
    assert |v[..]| == |want|;
    assert forall i :: 0 <= i < |want| ==> v[i] == want[i];
  }

  // ---- decoders ---------------------------------------------------------

  /** Receive one frame that must carry tag `want`. */
  function Expect(raw: bytes, want: byte): Option<bytes> {
    match Parse(raw)
    case Some(p) => if p.tag == want then Some(p.content) else None
    case None => None
  }

  function DecodeWord(content: bytes): Option<nat> {
    if |content| == 8 then Some(FromBigEndian(content)) else None
  }

  function DecodeOffer(raw: bytes): Option<nat> {
    match Expect(raw, OFFER)
    case Some(c) => DecodeWord(c)
    case None => None
  }

  function DecodeStart(raw: bytes): Option<nat> {
    match Expect(raw, START)
    case Some(c) => DecodeWord(c)
    case None => None
  }

  function ResumeBody(have: nat, prefix: Digest): bytes { U64Be(have) + prefix }

  function DecodeResume(raw: bytes): Option<(nat, Digest)> {
    match Expect(raw, RESUME)
    case Some(c) => if |c| == 40 then Some((FromBigEndian(c[..8]), c[8..40])) else None
    case None => None
  }

  lemma WordFrame(tag: byte, n: nat, frameLen: nat)
    requires IsU64(n)
    ensures Parse(Frame(tag, U64Be(n), frameLen)) == Some(Parsed(tag, U64Be(n)))
    ensures DecodeWord(U64Be(n)) == Some(n)
  {
    ParseFrame(tag, U64Be(n), frameLen);
    U64BeRoundTrip(n);
  }

  lemma ResumeFrame(have: nat, prefix: Digest, frameLen: nat)
    requires IsU64(have)
    ensures DecodeResume(Frame(RESUME, ResumeBody(have, prefix), frameLen)) == Some((have, prefix))
  {
    var c := ResumeBody(have, prefix);
    ParseFrame(RESUME, c, frameLen);
    U64BeRoundTrip(have);
    assert c[..8] == U64Be(have) && c[8..40] == prefix;
  }
}
