/** Length-prefixed message framing over a byte stream that reads may fragment in any way. */
module Framing {
  import opened Bytes
  import opened Wire

  /** The bytes put on the wire for one message, or a refusal. */
  function WriteFrame(msg: bytes): Option<bytes> {
    if |msg| > MAX_FRAME_LEN then None else Some(U32Be(|msg|) + msg)
  }

  /** What one read of a frame comes to, given all the bytes still to arrive. */
  datatype Got = CleanEnd | Broken | Message(msg: bytes, rest: bytes)

  function ReadFrame(data: bytes): Got {
    if data == [] then CleanEnd
    else if |data| < 4 then Broken
    else
      var len := FromBigEndian(data[..4]);
      if len > MAX_FRAME_LEN || |data| < 4 + len then Broken
      else Message(data[4..4 + len], data[4 + len..])
  }

  /** A stream whose reads return at least one byte unless it has ended, and otherwise as few or as
      many as `sizes` dictates. */
  class Stream {
    var data: bytes
    var sizes: seq<nat>

    constructor (d: bytes, s: seq<nat>)
      ensures data == d && sizes == s
    {
      data, sizes := d, s;
    }

    method Read(max: nat) returns (b: bytes)
      modifies this
      ensures |b| <= max && old(data) == b + data
      ensures max > 0 ==> (b == [] <==> old(data) == [])
    {
      var n := Min(max, |data|);
      if sizes != [] {
        n := Min(n, Max(1, sizes[0]));
        sizes := sizes[1..];
      }
      b := data[..n];
      data := data[n..];
    }

    /** Read until `n` bytes are there; `got` falls short only if the stream ended first. */
    method ReadUpTo(n: nat) returns (got: bytes)
      modifies this
      ensures |got| <= n && old(data) == got + data && (|got| < n ==> data == [])
    {
      got := [];
      while |got| < n
        invariant |got| <= n && old(data) == got + data
      {
        var b := Read(n - |got|);
        if b == [] { return; }
        got := got + b;
      }
    }

    /** `read_frame_opt`: whatever the fragmentation, the outcome is that of the bytes alone. */
    method ReadFrameOpt() returns (g: Got)
      modifies this
      ensures g == ReadFrame(old(data)) && (g.Message? ==> data == g.rest)
    {
      var prefix := ReadUpTo(4);
      assert old(data)[..|prefix|] == prefix;
      if |prefix| < 4 {
        assert old(data) == prefix;
        return if prefix == [] then CleanEnd else Broken;
      }
      var len := FromBigEndian(prefix);
      if len > MAX_FRAME_LEN { return Broken; }
      ghost var after := data;
      assert old(data)[4..] == after;
      var body := ReadUpTo(len);
      if |body| < len {
        assert after == body;
        return Broken;
      }
      assert after[..len] == body && after[len..] == data;
      assert old(data)[4..4 + len] == after[..len] && old(data)[4 + len..] == after[len..];
      g := Message(body, data);
    }
  }

  // ---- whole streams ----------------------------------------------------

  function WriteAll(msgs: seq<bytes>): bytes {
    if msgs == [] then [] else U32Be(|msgs[0]|) + msgs[0] + WriteAll(msgs[1..])
  }

  predicate Sendable(msgs: seq<bytes>) {
    forall i :: 0 <= i < |msgs| ==> WriteFrame(msgs[i]).Some?
  }

  datatype Transcript = Transcript(msgs: seq<bytes>, clean: bool)

  /** Read frames until the stream ends or breaks. */
  function ReadAll(data: bytes): Transcript
    decreases |data|
  {
    match ReadFrame(data)
    case CleanEnd => Transcript([], true)
    case Broken => Transcript([], false)
    case Message(msg, rest) =>
      var t := ReadAll(rest);
      Transcript([msg] + t.msgs, t.clean)
  }

  lemma ReadsBack(msg: bytes, rest: bytes)
    requires WriteFrame(msg).Some?
    ensures ReadFrame(U32Be(|msg|) + msg + rest) == Message(msg, rest)
  {
    var data := U32Be(|msg|) + msg + rest;
    U32BeRoundTrip(|msg|);
    assert data[..4] == U32Be(|msg|) && data[4..4 + |msg|] == msg && data[4 + |msg|..] == rest;
  }

  /** A frame cut anywhere inside it is broken, not a tidy end. */
  lemma CutFrameBreaks(msg: bytes, rest: bytes, k: nat)
    requires WriteFrame(msg).Some? && 0 < k < 4 + |msg|
    ensures ReadFrame((U32Be(|msg|) + msg + rest)[..k]) == Broken
  {
    var data := U32Be(|msg|) + msg + rest;
    U32BeRoundTrip(|msg|);
    if k >= 4 {
      assert data[..k][..4] == U32Be(|msg|);
    }
  }

  ghost predicate OnBoundary(msgs: seq<bytes>, k: nat) {
    exists j :: 0 <= j <= |msgs| && k == |WriteAll(msgs[..j])|
  }

  /** `t` holds the whole messages among the first `k` bytes, all of them, and says whether the cut is
      between two. */
  ghost predicate LongestPrefix(msgs: seq<bytes>, k: nat, t: Transcript) {
    && t.msgs <= msgs && |WriteAll(t.msgs)| <= k
    && (t.clean <==> OnBoundary(msgs, k))
    && (t.clean ==> |WriteAll(t.msgs)| == k)
    && (|t.msgs| < |msgs| ==> |WriteAll(msgs[..|t.msgs| + 1])| > k)
  }

  /** Any list of messages within the limit, cut after any number of bytes and fragmented in any way,
      reads back as its longest prefix of whole messages; the end is clean if and only if the cut
      fell on a frame boundary. */
  lemma {:induction false} CutAnywhere(msgs: seq<bytes>, k: nat)
    requires Sendable(msgs) && k <= |WriteAll(msgs)|
    ensures LongestPrefix(msgs, k, ReadAll(WriteAll(msgs)[..k]))
    decreases |msgs|
  {
    var data := WriteAll(msgs);
    if k == 0 {
      assert data[..0] == [] && msgs[..0] == [];
      assert OnBoundary(msgs, 0);
      if msgs != [] { WriteAllPrefix(msgs, 1); }
    } else {
      var m, rest := msgs[0], WriteAll(msgs[1..]);
      assert data == U32Be(|m|) + m + rest;
      var n := 4 + |m|;
      if k < n {
        CutFrameBreaks(m, rest, k);
        NotOnBoundary(msgs, k);
        WriteAllPrefix(msgs, 1);
      } else {
        assert data[..k] == U32Be(|m|) + m + rest[..k - n];
        ReadsBack(m, rest[..k - n]);
        CutAnywhere(msgs[1..], k - n);
        LongestStep(msgs, k, ReadAll(rest[..k - n]));
      }
    }
  }

  lemma LongestStep(msgs: seq<bytes>, k: nat, t: Transcript)
    requires msgs != [] && k >= 4 + |msgs[0]| && LongestPrefix(msgs[1..], k - 4 - |msgs[0]|, t)
    ensures LongestPrefix(msgs, k, Transcript([msgs[0]] + t.msgs, t.clean))
  {
    BoundaryStep(msgs, k);
    assert ([msgs[0]] + t.msgs)[1..] == t.msgs;
    if |t.msgs| < |msgs[1..]| { WriteAllPrefix(msgs, |t.msgs| + 2); }
  }

  lemma WriteAllPrefix(msgs: seq<bytes>, j: nat)
    requires 0 < j <= |msgs|
    ensures |WriteAll(msgs[..j])| == 4 + |msgs[0]| + |WriteAll(msgs[1..][..j - 1])|
  {
    assert msgs[..j][1..] == msgs[1..][..j - 1];
  }

  lemma NotOnBoundary(msgs: seq<bytes>, k: nat)
    requires msgs != [] && 0 < k < 4 + |msgs[0]|
    ensures !OnBoundary(msgs, k)
  {
    forall j | 0 <= j <= |msgs| ensures k != |WriteAll(msgs[..j])| {
      if j > 0 { WriteAllPrefix(msgs, j); } else { assert msgs[..0] == []; }
    }
  }

  lemma BoundaryStep(msgs: seq<bytes>, k: nat)
    requires msgs != [] && k >= 4 + |msgs[0]|
    ensures OnBoundary(msgs, k) <==> OnBoundary(msgs[1..], k - 4 - |msgs[0]|)
  {
    if OnBoundary(msgs, k) {
      var j :| 0 <= j <= |msgs| && k == |WriteAll(msgs[..j])|;
      WriteAllPrefix(msgs, j);
      assert 0 <= j - 1 <= |msgs[1..]| && k - 4 - |msgs[0]| == |WriteAll(msgs[1..][..j - 1])|;
    }
    if OnBoundary(msgs[1..], k - 4 - |msgs[0]|) {
      var j :| 0 <= j <= |msgs[1..]| && k - 4 - |msgs[0]| == |WriteAll(msgs[1..][..j])|;
      WriteAllPrefix(msgs, j + 1);
      assert k == |WriteAll(msgs[..j + 1])|;
    }
  }

  /** The whole stream reads back as the whole list, and then ends cleanly. */
  lemma {:induction false} WholeStream(msgs: seq<bytes>)
    requires Sendable(msgs)
    ensures ReadAll(WriteAll(msgs)) == Transcript(msgs, true)
    decreases |msgs|
  {
    if msgs != [] {
      ReadsBack(msgs[0], WriteAll(msgs[1..]));
      WholeStream(msgs[1..]);
    }
  }
}
