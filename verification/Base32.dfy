/** Base32 without padding (section 6 of RFC 4648), with a strict decoder: a length
    no encoding has, or a nonzero bit past the last whole byte, is an error. */
module Base32 {
  import opened Bytes

  type bits = seq<bool>

  // ---- numbers as bits, most significant first --------------------------

  function ToBits(n: nat, width: nat): (r: bits)
    ensures |r| == width
  {
    if width == 0 then [] else ToBits(n / 2, width - 1) + [n % 2 == 1]
  }

  function Power(width: nat): (p: nat)
    ensures p >= 1
  {
    if width == 0 then 1 else 2 * Power(width - 1)
  }

  function FromBits(b: bits): (n: nat)
    ensures n < Power(|b|)
  {
    if b == [] then 0 else 2 * FromBits(b[..|b| - 1]) + (if b[|b| - 1] then 1 else 0)
  }

  lemma {:induction false} BitsRoundTrip(n: nat, width: nat)
    requires n < Power(width)
    ensures FromBits(ToBits(n, width)) == n
  {
    if width > 0 {
      BitsRoundTrip(n / 2, width - 1);
      assert ToBits(n, width)[..width - 1] == ToBits(n / 2, width - 1);
    }
  }

  lemma {:induction false} BitsOnto(b: bits)
    ensures ToBits(FromBits(b), |b|) == b
    decreases |b|
  {
    if b != [] {
      BitsOnto(b[..|b| - 1]);
      assert b == b[..|b| - 1] + [b[|b| - 1]];
    }
  }

  lemma Widths()
    ensures Power(5) == 32 && Power(8) == 256
  {
    assert Power(1) == 2 && Power(2) == 4 && Power(3) == 8 && Power(4) == 16;
    assert Power(5) == 32 && Power(6) == 64 && Power(7) == 128;
  }

  // ---- bytes to bits and back -------------------------------------------

  function Spread(b: bytes): (r: bits)
    ensures |r| == 8 * |b|
  {
    if b == [] then [] else ToBits(b[0], 8) + Spread(b[1..])
  }

  function Gather(s: bits): (r: bytes)
    requires |s| % 8 == 0
    ensures 8 * |r| == |s|
    decreases |s|
  {
    if s == [] then [] else Widths(); [FromBits(s[..8])] + Gather(s[8..])
  }

  lemma {:induction false} GatherSpread(b: bytes)
    ensures Gather(Spread(b)) == b
    decreases |b|
  {
    if b != [] {
      var s := Spread(b);
      assert s[..8] == ToBits(b[0], 8) && s[8..] == Spread(b[1..]);
      Widths();
      BitsRoundTrip(b[0], 8);
      GatherSpread(b[1..]);
    }
  }

  lemma {:induction false} SpreadGather(s: bits)
    requires |s| % 8 == 0
    ensures Spread(Gather(s)) == s
    decreases |s|
  {
    if s != [] {
      BitsOnto(s[..8]);
      SpreadGather(s[8..]);
      var g := Gather(s);
      assert g[1..] == Gather(s[8..]) && g[0] == FromBits(s[..8]);
      assert s == s[..8] + s[8..];
    }
  }

  // ---- bits to five-bit symbols and back --------------------------------

  type Symbol = x: int | 0 <= x < 32

  function Falses(n: nat): (r: bits)
    ensures |r| == n && forall i :: 0 <= i < n ==> !r[i]
  {
    seq(n, _ => false)
  }

  /** Zero bits that fill the last symbol. */
  function Fill(n: nat): (k: nat)
    ensures k < 5 && (n + k) % 5 == 0
  {
    (5 - n % 5) % 5
  }

  function Symbols(s: bits): (r: seq<Symbol>)
    requires |s| % 5 == 0
    ensures 5 * |r| == |s|
    decreases |s|
  {
    if s == [] then [] else Widths(); [FromBits(s[..5])] + Symbols(s[5..])
  }

  function Unfold(q: seq<Symbol>): (r: bits)
    ensures |r| == 5 * |q|
  {
    if q == [] then [] else ToBits(q[0], 5) + Unfold(q[1..])
  }

  lemma {:induction false} UnfoldSymbols(s: bits)
    requires |s| % 5 == 0
    ensures Unfold(Symbols(s)) == s
    decreases |s|
  {
    if s != [] {
      BitsOnto(s[..5]);
      UnfoldSymbols(s[5..]);
      var q := Symbols(s);
      assert q[1..] == Symbols(s[5..]) && q[0] == FromBits(s[..5]);
      assert s == s[..5] + s[5..];
    }
  }

  lemma {:induction false} SymbolsUnfold(q: seq<Symbol>)
    ensures Symbols(Unfold(q)) == q
    decreases |q|
  {
    if q != [] {
      var s := Unfold(q);
      assert s[..5] == ToBits(q[0], 5) && s[5..] == Unfold(q[1..]);
      Widths();
      BitsRoundTrip(q[0], 5);
      SymbolsUnfold(q[1..]);
    }
  }

  // ---- the alphabet -----------------------------------------------------

  /** 'A'..'Z' then '2'..'7'. */
  function Letter(x: Symbol): byte { if x < 26 then 0x41 + x else 0x32 + (x - 26) }

  function Value(c: byte): Option<Symbol> {
    if 0x41 <= c <= 0x5a then Some(c - 0x41)
    else if 0x32 <= c <= 0x37 then Some(c - 0x32 + 26)
    else None
  }

  function Letters(q: seq<Symbol>): (r: bytes)
    ensures |r| == |q|
  {
    seq(|q|, i requires 0 <= i < |q| => Letter(q[i]))
  }

  function Values(t: bytes): (r: Option<seq<Symbol>>)
    ensures r.Some? ==> |r.value| == |t|
  {
    if t == [] then Some([])
    else
      var x :- Value(t[0]);
      var q :- Values(t[1..]);
      Some([x] + q)
  }

  lemma {:induction false} ValuesLetters(q: seq<Symbol>)
    ensures Values(Letters(q)) == Some(q)
    decreases |q|
  {
    if q != [] {
      assert Letters(q)[1..] == Letters(q[1..]);
      ValuesLetters(q[1..]);
      assert q == [q[0]] + q[1..];
    }
  }

  lemma {:induction false} LettersValues(t: bytes)
    requires Values(t).Some?
    ensures Letters(Values(t).value) == t
    decreases |t|
  {
    if t != [] {
      LettersValues(t[1..]);
      var q := Values(t).value;
      assert q == [Value(t[0]).value] + Values(t[1..]).value;
      assert q[1..] == Values(t[1..]).value;
      assert Letters(q)[1..] == Letters(q[1..]);
      assert t == [t[0]] + t[1..];
    }
  }

  // ---- the code ---------------------------------------------------------

  function Encode(b: bytes): bytes {
    var s := Spread(b);
    Letters(Symbols(s + Falses(Fill(|s|))))
  }

  /** The whole bytes of a bit string, if what is left over could only be fill. */
  function Whole(s: bits): Option<bytes> {
    var n := s[|s| - |s| % 8..];
    if |n| >= 5 || n != Falses(|n|) then None else Some(Gather(s[..|s| - |s| % 8]))
  }

  function Decode(t: bytes): Option<bytes> {
    var q :- Values(t);
    Whole(Unfold(q))
  }

  lemma WholeFilled(b: bytes, k: nat)
    requires k < 5
    ensures Whole(Spread(b) + Falses(k)) == Some(b)
  {
    var s := Spread(b);
    var padded := s + Falses(k);
    assert |padded| % 8 == k;
    assert padded[..|s|] == s && padded[|s|..] == Falses(k);
    GatherSpread(b);
  }

  lemma WholeOnto(s: bits)
    requires Whole(s).Some? && |s| % 5 == 0
    ensures var t := Spread(Whole(s).value); s == t + Falses(Fill(|t|))
  {
    var n, k := |s| - |s| % 8, |s| % 8;
    FilledOnto(s, s[..n], k);
  }

  lemma FilledOnto(s: bits, t: bits, k: nat)
    requires |t| % 8 == 0 && k < 5 && |s| == |t| + k && |s| % 5 == 0 && s[..|t|] == t && s[|t|..] == Falses(k)
    ensures var u := Spread(Gather(t)); s == u + Falses(Fill(|u|))
  {
    SpreadGather(t);
    FillUnique(|t|, k);
    Halves(s, |t|);
  }

  lemma FillUnique(n: nat, k: nat)
    requires k < 5 && (n + k) % 5 == 0
    ensures Fill(n) == k
  {
  }

  /** Decoding an encoding gives the bytes back. */
  lemma DecodeEncode(b: bytes)
    ensures Decode(Encode(b)) == Some(b)
  {
    var s := Spread(b);
    var padded := s + Falses(Fill(|s|));
    ValuesLetters(Symbols(padded));
    UnfoldSymbols(padded);
    WholeFilled(b, Fill(|s|));
  }

  /** The decoder accepts nothing but encodings. */
  lemma EncodeDecode(t: bytes)
    requires Decode(t).Some?
    ensures Encode(Decode(t).value) == t
  {
    var q := Values(t).value;
    WholeOnto(Unfold(q));
    SymbolsUnfold(q);
    LettersValues(t);
  }

  /** An encoding is made of the letters of the alphabet. */
  lemma EncodeLetters(b: bytes, i: nat)
    requires i < |Encode(b)|
    ensures Value(Encode(b)[i]).Some?
  {
    var s := Spread(b);
    var q := Symbols(s + Falses(Fill(|s|)));
    assert Encode(b)[i] == Letter(q[i]);
  }

  lemma EncodeNonempty(b: bytes)
    requires b != []
    ensures Encode(b) != []
  {
    DecodeEncode(b);
    DecodeEncode([]);
    assert Encode([]) == [];
  }
}
