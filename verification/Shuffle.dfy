/** The order in which a lookup asks the substrates: Fisher-Yates, in place. */
module Shuffle {
  import opened Bytes

  function Swapped<T>(s: seq<T>, i: nat, j: nat): (r: seq<T>)
    requires i < |s| && j < |s|
    ensures |r| == |s|
  {
    s[i := s[j]][j := s[i]]
  }

  lemma SwapKeeps<T>(s: seq<T>, i: nat, j: nat)
    requires i < |s| && j < |s|
    ensures multiset(Swapped(s, i, j)) == multiset(s)
  {
  }

  /** Positions `n - 1` down to 1 each swap with a drawn one at or below them. */
  function Mixed<T>(s: seq<T>, draws: seq<nat>, n: nat): (r: seq<T>)
    requires n <= |s| == |draws|
    ensures |r| == |s|
    decreases n
  {
    if n < 2 then s else Mixed(Swapped(s, n - 1, draws[n - 1] % n), draws, n - 1)
  }

  /** Eight bytes of noise a position. */
  function Draws(noise: bytes): (d: seq<nat>)
    ensures |d| == |noise| / 8
  {
    seq(|noise| / 8, i requires 0 <= i < |noise| / 8 => FromBigEndian(noise[8 * i..8 * i + 8]))
  }

  function Shuffled<T>(s: seq<T>, noise: bytes): seq<T>
    requires |noise| == 8 * |s|
  {
    Mixed(s, Draws(noise), |s|)
  }

  method SwapAt<T>(a: array<T>, i: nat, j: nat)
    requires i < a.Length && j < a.Length
    modifies a
    ensures a[..] == Swapped(old(a[..]), i, j)
  {
    a[i], a[j] := a[j], a[i];
  }

  /** `shuffled`, on its working copy. */
  method ShuffleInPlace<T>(a: array<T>, noise: bytes)
    requires |noise| == 8 * a.Length
    modifies a
    ensures a[..] == Shuffled(old(a[..]), noise)
  {
    ghost var goal, draws := Shuffled(a[..], noise), Draws(noise);
    var i := a.Length;
    while i > 1
      invariant 0 <= i <= a.Length
      invariant Mixed(a[..], draws, i) == goal
    {
      i := i - 1;
      var j := FromBigEndian(noise[8 * i..8 * i + 8]) % (i + 1);
      assert draws[i] == FromBigEndian(noise[8 * i..8 * i + 8]);
      SwapAt(a, i, j);
    }
  }

  /** The order is a permutation of the substrates. */
  lemma {:induction false} MixedIsPermutation<T>(s: seq<T>, draws: seq<nat>, n: nat)
    requires n <= |s| == |draws|
    ensures multiset(Mixed(s, draws, n)) == multiset(s)
    decreases n
  {
    if n >= 2 {
      SwapKeeps(s, n - 1, draws[n - 1] % n);
      MixedIsPermutation(Swapped(s, n - 1, draws[n - 1] % n), draws, n - 1);
    }
  }

  lemma ShuffleIsPermutation<T>(s: seq<T>, noise: bytes)
    requires |noise| == 8 * |s|
    ensures multiset(Shuffled(s, noise)) == multiset(s)
  {
    MixedIsPermutation(s, Draws(noise), |s|);
  }

  // ---- every order can come up ------------------------------------------

  /** Only the draws below `n` matter. */
  lemma {:induction false} MixedReads<T>(s: seq<T>, d: seq<nat>, e: seq<nat>, n: nat)
    requires n <= |s| == |d| == |e| && d[..n] == e[..n]
    ensures Mixed(s, d, n) == Mixed(s, e, n)
    decreases n
  {
    if n >= 2 {
      assert d[n - 1] == d[..n][n - 1] == e[..n][n - 1] == e[n - 1];
      assert d[..n - 1] == d[..n][..n - 1] == e[..n - 1];
      MixedReads(Swapped(s, n - 1, d[n - 1] % n), d, e, n - 1);
    }
  }

  lemma Cancel<T>(x: multiset<T>, y: multiset<T>, z: multiset<T>)
    requires x + z == y + z
    ensures x == y
  {
    forall e ensures x[e] == y[e] { assert (x + z)[e] == x[e] + z[e] && (y + z)[e] == y[e] + z[e]; }
  }

  lemma PrefixMultisets<T>(s: seq<T>, t: seq<T>, n: nat)
    requires n <= |s| == |t| && s[n..] == t[n..] && multiset(s) == multiset(t)
    ensures multiset(s[..n]) == multiset(t[..n])
  {
    assert s == s[..n] + s[n..] && t == t[..n] + t[n..];
    Cancel(multiset(s[..n]), multiset(t[..n]), multiset(s[n..]));
  }

  /** The position below `n` that holds what belongs at `n - 1`. */
  lemma Locate<T>(s: seq<T>, t: seq<T>, n: nat) returns (j: nat)
    requires 0 < n <= |s| == |t| && s[n..] == t[n..] && multiset(s) == multiset(t)
    ensures j < n && s[j] == t[n - 1]
  {
    PrefixMultisets(s, t, n);
    assert t[..n][n - 1] in multiset(t[..n]);
    assert t[n - 1] in multiset(s[..n]);
    j :| j < n && s[..n][j] == t[n - 1];
  }

  /** One swap puts it there. */
  lemma Settle<T>(s: seq<T>, t: seq<T>, n: nat) returns (j: nat)
    requires 0 < n <= |s| == |t| && s[n..] == t[n..] && multiset(s) == multiset(t)
    ensures j < n
    ensures var u := Swapped(s, n - 1, j); u[n - 1..] == t[n - 1..] && multiset(u) == multiset(t)
  {
    j := Locate(s, t, n);
    SwapKeeps(s, n - 1, j);
    var u := Swapped(s, n - 1, j);
    assert u[n - 1] == t[n - 1] && u[n..] == s[n..];
    assert u[n - 1..] == [u[n - 1]] + u[n..];
    assert t[n - 1..] == [t[n - 1]] + t[n..];
  }

  lemma Nothing<T>(s: seq<T>, t: seq<T>, n: nat)
    requires n < 2 && n <= |s| == |t| && s[n..] == t[n..] && multiset(s) == multiset(t)
    ensures s == t
  {
    if n == 1 {
      var j := Locate(s, t, 1);
      assert s == [s[0]] + s[1..] && t == [t[0]] + t[1..];
    } else {
      assert s == s[0..] && t == t[0..];
    }
  }

  lemma Redraw<T>(s: seq<T>, d: seq<nat>, n: nat, j: nat)
    requires 2 <= n <= |s| == |d| && j < n
    ensures Mixed(s, d[n - 1 := j], n) == Mixed(Swapped(s, n - 1, j), d, n - 1)
  {
    var e := d[n - 1 := j];
    assert e[n - 1] % n == j;
    assert e[..n - 1] == d[..n - 1];
    MixedReads(Swapped(s, n - 1, j), d, e, n - 1);
  }

  predicate InReach(draws: seq<nat>) { forall i :: 0 <= i < |draws| ==> draws[i] <= i }

  lemma {:induction false} Reach<T>(s: seq<T>, t: seq<T>, n: nat) returns (draws: seq<nat>)
    requires n <= |s| == |t| && s[n..] == t[n..] && multiset(s) == multiset(t)
    ensures |draws| == |s| && InReach(draws) && Mixed(s, draws, n) == t
    decreases n
  {
    if n < 2 {
      draws := seq(|s|, _ => 0);
      Nothing(s, t, n);
    } else {
      var j := Settle(s, t, n);
      var u := Swapped(s, n - 1, j);
      var d := Reach(u, t, n - 1);
      draws := d[n - 1 := j];
      Redraw(s, d, n, j);
    }
  }

  lemma {:induction false} NoiseFor(draws: seq<nat>) returns (noise: bytes)
    requires forall i :: 0 <= i < |draws| ==> IsU64(draws[i])
    ensures |noise| == 8 * |draws| && Draws(noise) == draws
    decreases |draws|
  {
    if draws == [] {
      noise := [];
    } else {
      var n := |draws| - 1;
      var m := NoiseFor(draws[..n]);
      noise := m + U64Be(draws[n]);
      U64BeRoundTrip(draws[n]);
      forall i | 0 <= i <= n ensures Draws(noise)[i] == draws[i] {
        if i < n {
          assert noise[8 * i..8 * i + 8] == m[8 * i..8 * i + 8];
          assert Draws(noise)[i] == Draws(m)[i] == draws[..n][i];
        } else {
          assert noise[8 * n..8 * n + 8] == U64Be(draws[n]);
        }
      }
    }
  }

  /** No order is favoured by construction: some noise produces any one of them. */
  lemma EveryOrder<T>(s: seq<T>, t: seq<T>)
    requires multiset(s) == multiset(t) && |s| <= U64_RANGE
    ensures exists noise: bytes :: |noise| == 8 * |s| && Shuffled(s, noise) == t
  {
    assert |s| == |multiset(s)| == |multiset(t)| == |t|;
    assert s[|s|..] == t[|s|..];
    var draws := Reach(s, t, |s|);
    var noise := NoiseFor(draws);
    assert Shuffled(s, noise) == t;
  }
}
