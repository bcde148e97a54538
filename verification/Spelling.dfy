/** Byte strings that agree with a canonical one up to ASCII case at marked places. */
module Spelling {
  import opened Bytes
  import opened Ascii

  /** Lower case at the marked places, every other byte as it is. */
  function Fold(e: bytes, free: seq<bool>): (r: bytes)
    requires |e| == |free|
    ensures |r| == |e|
  {
    if e == [] then [] else [if free[0] then LowerByte(e[0]) else e[0]] + Fold(e[1..], free[1..])
  }

  predicate Spells(e: bytes, canon: bytes, free: seq<bool>) {
    |e| == |free| && Fold(e, free) == canon
  }

  function Fixed(n: nat): (r: seq<bool>)
    ensures |r| == n
  {
    seq(n, _ => false)
  }

  function Free(n: nat): (r: seq<bool>)
    ensures |r| == n
  {
    seq(n, _ => true)
  }

  lemma {:induction false} SpellsFixed(e: bytes, canon: bytes)
    ensures Spells(e, canon, Fixed(|canon|)) <==> e == canon
    decreases |e|
  {
    if |e| == |canon| { FoldFixed(e); }
  }

  lemma {:induction false} FoldFixed(e: bytes)
    ensures Fold(e, Fixed(|e|)) == e
    decreases |e|
  {
    if e != [] {
      assert Fixed(|e|)[1..] == Fixed(|e| - 1);
      FoldFixed(e[1..]);
      assert e == [e[0]] + e[1..];
    }
  }

  lemma {:induction false} FoldFree(e: bytes)
    ensures Fold(e, Free(|e|)) == Lower(e)
    decreases |e|
  {
    if e != [] {
      assert Free(|e|)[1..] == Free(|e| - 1);
      FoldFree(e[1..]);
      assert Lower(e) == [LowerByte(e[0])] + Lower(e[1..]);
    }
  }

  lemma {:induction false} FoldConcat(e: bytes, f: bytes, m: seq<bool>, n: seq<bool>)
    requires |e| == |m| && |f| == |n|
    ensures Fold(e + f, m + n) == Fold(e, m) + Fold(f, n)
    decreases |e|
  {
    if e == [] {
      assert e + f == f && m + n == n;
    } else {
      assert (e + f)[1..] == e[1..] + f && (m + n)[1..] == m[1..] + n;
      FoldConcat(e[1..], f, m[1..], n);
    }
  }

  /** The fixed places hold the canonical bytes themselves, the marked ones up to case. */
  lemma {:induction false} FoldAt(e: bytes, free: seq<bool>, i: nat)
    requires |e| == |free| && i < |e|
    ensures Fold(e, free)[i] == if free[i] then LowerByte(e[i]) else e[i]
    decreases |e|
  {
    if i > 0 { FoldAt(e[1..], free[1..], i - 1); }
  }

  lemma SpellsConcat(e: bytes, f: bytes, c: bytes, d: bytes, m: seq<bool>, n: seq<bool>)
    requires |e| == |c| == |m| && |d| == |n|
    ensures Spells(e + f, c + d, m + n) <==> Spells(e, c, m) && Spells(f, d, n)
  {
    if |f| == |n| {
      FoldConcat(e, f, m, n);
      SameParts(Fold(e, m), Fold(f, n), c, d);
    }
  }

  lemma SameParts(a: bytes, b: bytes, c: bytes, d: bytes)
    requires |a| == |c|
    ensures a + b == c + d <==> a == c && b == d
  {
    if a + b == c + d {
      assert a == (a + b)[..|a|] && c == (c + d)[..|a|];
      assert b == (a + b)[|a|..] && d == (c + d)[|a|..];
    }
  }

  /** A fixed head, then a part in any spelling. */
  lemma SpellsAfter(e: bytes, head: bytes, f: bytes, d: bytes, n: seq<bool>)
    requires |d| == |n| && |e| == |head|
    ensures Spells(e + f, head + d, Fixed(|head|) + n) <==> e == head && Spells(f, d, n)
  {
    SpellsConcat(e, f, head, d, Fixed(|head|), n);
    SpellsFixed(e, head);
  }

  lemma SplitHead(e: bytes, head: bytes, d: bytes, n: seq<bool>) returns (f: bytes)
    requires |d| == |n| && Spells(e, head + d, Fixed(|head|) + n)
    ensures e == head + f && Spells(f, d, n)
  {
    f := e[|head|..];
    assert e == e[..|head|] + f;
    SpellsAfter(e[..|head|], head, f, d, n);
  }

  lemma JoinHead(head: bytes, f: bytes, d: bytes, n: seq<bool>)
    requires |d| == |n| && Spells(f, d, n)
    ensures Spells(head + f, head + d, Fixed(|head|) + n)
  {
    SpellsAfter(head, head, f, d, n);
  }
}
