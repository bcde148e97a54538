/** The pasteable text form of a binary code: a prefix, then the base32 of the code and its checksum,
    in lower case. */
module Envelope {
  import opened Bytes
  import opened Ascii
  import Base32

  const CHECKSUM_LEN: nat := 4

  /** A prefix that is lower case already and begins with no white space. */
  predicate GoodPrefix(p: bytes) { p != [] && Lower(p) == p && !IsSpace(p[0]) }

  /** What distinguishes one text form from another: prefix, checksum domain, and the hash. */
  datatype Style = Style(prefix: bytes, domain: bytes, hash: bytes -> Digest)

  function Checksum(s: Style, payload: bytes): (r: bytes)
    ensures |r| == CHECKSUM_LEN
  {
    s.hash(s.domain + payload)[..CHECKSUM_LEN]
  }

  function Summed(s: Style, payload: bytes): bytes { payload + Checksum(s, payload) }

  function Unsummed(s: Style, b: bytes): Option<bytes> {
    if |b| <= CHECKSUM_LEN then None
    else
      var k := |b| - CHECKSUM_LEN;
      if b[k..] != Checksum(s, b[..k]) then None else Some(b[..k])
  }

  function Wrap(s: Style, payload: bytes): bytes { s.prefix + Lower(Base32.Encode(Summed(s, payload))) }

  function Unwrap(s: Style, text: bytes): Option<bytes> {
    var lowered := Lower(Trim(text));
    if |lowered| < |s.prefix| || lowered[..|s.prefix|] != s.prefix then None
    else
      var b :- Base32.Decode(Upper(lowered[|s.prefix|..]));
      Unsummed(s, b)
  }

  // ---- case of base32 text ----------------------------------------------

  lemma UpperLower(payload: bytes)
    ensures Upper(Lower(Base32.Encode(payload))) == Base32.Encode(payload)
  {
    var t := Base32.Encode(payload);
    forall i | 0 <= i < |t| ensures UpperByte(LowerByte(t[i])) == t[i] {
      Base32.EncodeLetters(payload, i);
    }
  }

  lemma LowerUpper(text: bytes)
    ensures Lower(Upper(Lower(text))) == Lower(text)
  {
  }

  // ---- both directions --------------------------------------------------

  lemma SummedBack(s: Style, payload: bytes)
    requires payload != []
    ensures Unsummed(s, Summed(s, payload)) == Some(payload)
  {
    var b := Summed(s, payload);
    assert b[..|payload|] == payload && b[|payload|..] == Checksum(s, payload);
  }

  lemma SummedOnto(s: Style, b: bytes, payload: bytes)
    requires Unsummed(s, b) == Some(payload)
    ensures b == Summed(s, payload)
  {
    var k := |b| - CHECKSUM_LEN;
    assert b == b[..k] + b[k..];
  }

  lemma Opens(s: Style, payload: bytes, text: bytes)
    requires payload != [] && Lower(Trim(text)) == Wrap(s, payload)
    ensures Unwrap(s, text) == Some(payload)
  {
    var body := Lower(Base32.Encode(Summed(s, payload)));
    Cut(s.prefix, body);
    UpperLower(Summed(s, payload));
    Base32.DecodeEncode(Summed(s, payload));
    SummedBack(s, payload);
  }

  lemma Cut(a: bytes, b: bytes)
    ensures (a + b)[..|a|] == a && (a + b)[|a|..] == b
  {
  }

  lemma Body(body: bytes, b: bytes)
    requires Lower(body) == body && Base32.Decode(Upper(body)) == Some(b)
    ensures body == Lower(Base32.Encode(b))
  {
    Base32.EncodeDecode(Upper(body));
    LowerUpper(body);
  }

  lemma LowerTwice(text: bytes, k: nat)
    requires k <= |text|
    ensures Lower(Lower(text)[k..]) == Lower(text)[k..]
  {
  }

  /** Only the text of a payload yields it. */
  lemma Unwrapped(s: Style, text: bytes, payload: bytes)
    requires Unwrap(s, text) == Some(payload)
    ensures Lower(Trim(text)) == Wrap(s, payload)
  {
    var lowered, n := Lower(Trim(text)), |s.prefix|;
    var b := Base32.Decode(Upper(lowered[n..])).value;
    LowerTwice(Trim(text), n);
    Body(lowered[n..], b);
    SummedOnto(s, b, payload);
    Halves(lowered, n);
  }

  lemma NoSpaceAtEnds(s: Style, payload: bytes, text: bytes)
    requires GoodPrefix(s.prefix) && Lower(text) == Wrap(s, payload)
    ensures text != [] && !IsSpace(text[0]) && !IsSpace(text[|text| - 1])
  {
    var whole := Summed(s, payload);
    var body := Lower(Base32.Encode(whole));
    Base32.EncodeNonempty(whole);
    Base32.EncodeLetters(whole, |body| - 1);
    var w := Wrap(s, payload);
    assert w[0] == s.prefix[0] && w[|w| - 1] == body[|body| - 1];
  }

  /** In any ASCII case and with any white space around it, the text opens to its payload. */
  lemma Pasted(s: Style, payload: bytes, before: bytes, text: bytes, after: bytes)
    requires GoodPrefix(s.prefix) && payload != []
    requires Blank(before) && Blank(after) && Lower(text) == Wrap(s, payload)
    ensures Unwrap(s, before + text + after) == Some(payload)
  {
    NoSpaceAtEnds(s, payload, text);
    TrimPadded(before, text, after);
    Opens(s, payload, before + text + after);
  }
}
