/** Case and white space of ASCII text. */
module Ascii {
  import opened Bytes

  function LowerByte(c: byte): byte { if 0x41 <= c <= 0x5a then c + 0x20 else c }
  function UpperByte(c: byte): byte { if 0x61 <= c <= 0x7a then c - 0x20 else c }

  function Lower(s: bytes): (r: bytes)
    ensures |r| == |s| && forall i :: 0 <= i < |s| ==> r[i] == LowerByte(s[i])
  {
    seq(|s|, i requires 0 <= i < |s| => LowerByte(s[i]))
  }

  function Upper(s: bytes): (r: bytes)
    ensures |r| == |s| && forall i :: 0 <= i < |s| ==> r[i] == UpperByte(s[i])
  {
    seq(|s|, i requires 0 <= i < |s| => UpperByte(s[i]))
  }

  predicate IsSpace(c: byte) { 0x09 <= c <= 0x0d || c == 0x20 }

  predicate Blank(s: bytes) { forall i :: 0 <= i < |s| ==> IsSpace(s[i]) }

  function TrimStart(s: bytes): (r: bytes)
    ensures |r| <= |s| && s[|s| - |r|..] == r
    ensures r != [] ==> !IsSpace(r[0])
    ensures Blank(s[..|s| - |r|])
  {
    if s != [] && IsSpace(s[0]) then
      var r := TrimStart(s[1..]);
      assert s[..|s| - |r|] == [s[0]] + s[1..][..|s| - 1 - |r|];
      r
    else s
  }

  function TrimEnd(s: bytes): (r: bytes)
    ensures |r| <= |s| && s[..|r|] == r
    ensures r != [] ==> !IsSpace(r[|r| - 1])
    ensures Blank(s[|r|..])
  {
    if s != [] && IsSpace(s[|s| - 1]) then
      var r := TrimEnd(s[..|s| - 1]);
      assert s[|r|..] == s[..|s| - 1][|r|..] + [s[|s| - 1]];
      r
    else s
  }

  function Trim(s: bytes): (r: bytes)
    ensures |r| <= |s|
  {
    TrimEnd(TrimStart(s))
  }

  /** Trimming finds the text between any white space put around it. */
  lemma TrimPadded(before: bytes, s: bytes, after: bytes)
    requires Blank(before) && Blank(after)
    requires s != [] && !IsSpace(s[0]) && !IsSpace(s[|s| - 1])
    ensures Trim(before + s + after) == s
  {
    TrimStartPadded(before, s + after);
    assert before + s + after == before + (s + after);
    TrimEndPadded(s, after);
  }

  lemma {:induction false} TrimStartPadded(before: bytes, s: bytes)
    requires Blank(before) && s != [] && !IsSpace(s[0])
    ensures TrimStart(before + s) == s
    decreases |before|
  {
    var x := before + s;
    if before == [] {
      assert x == s;
    } else {
      assert x[0] == before[0] && x[1..] == before[1..] + s;
      TrimStartPadded(before[1..], s);
    }
  }

  lemma {:induction false} TrimEndPadded(s: bytes, after: bytes)
    requires Blank(after) && s != [] && !IsSpace(s[|s| - 1])
    ensures TrimEnd(s + after) == s
    decreases |after|
  {
    var x, n := s + after, |after|;
    if after == [] {
      assert x == s;
    } else {
      assert x[|x| - 1] == after[n - 1] && x[..|x| - 1] == s + after[..n - 1];
      TrimEndPadded(s, after[..n - 1]);
    }
  }

  lemma TrimKeepsLength(s: bytes)
    requires |Trim(s)| == |s|
    ensures Trim(s) == s
  {
    assert |TrimStart(s)| == |s|;
  }
}
