/** The mutual post-quantum proof over an established session, and the roles that orient it. */
module PqAuth {
  import opened Bytes
  import opened Bundle
  import Spelling

  // ---- roles ------------------------------------------------------------

  /** Byte-wise lexicographic order. */
  predicate Less(a: bytes, b: bytes) {
    b != [] && (a == [] || a[0] < b[0] || (a[0] == b[0] && Less(a[1..], b[1..])))
  }

  lemma {:induction false} LessIsTotal(a: bytes, b: bytes)
    ensures (if a == b then 1 else 0) + (if Less(a, b) then 1 else 0) + (if Less(b, a) then 1 else 0) == 1
    decreases |a|
  {
    if a != [] && b != [] {
      LessIsTotal(a[1..], b[1..]);
      assert a == [a[0]] + a[1..] && b == [b[0]] + b[1..];
    }
  }

  datatype Role = Dialer | Accepter
  datatype Side = Initiator | Responder
  {
    function Peer(): Side { if Initiator? then Responder else Initiator }
  }

  function RoleFor(local: Digest, peer: Digest): Role { if Less(local, peer) then Dialer else Accepter }

  function SideOf(r: Role): Side { if r.Dialer? then Initiator else Responder }

  /** The two ends take opposite roles if and only if their identifiers differ; a peer pointed at
      itself accepts on both ends. */
  lemma RolesComplement(a: Digest, b: Digest)
    ensures SideOf(RoleFor(b, a)) == SideOf(RoleFor(a, b)).Peer() <==> a != b
    ensures a == b ==> RoleFor(a, b).Accepter?
  {
    LessIsTotal(a, b);
  }

  // ---- transcripts ------------------------------------------------------

  type Exporter = x: bytes | |x| == 32 witness Zeros(32)

  /** "atom-live-pq-auth-transcript-v1" */
  const TRANSCRIPT_DOMAIN: bytes :=
    [0x61, 0x74, 0x6f, 0x6d, 0x2d, 0x6c, 0x69, 0x76, 0x65, 0x2d, 0x70, 0x71, 0x2d, 0x61, 0x75, 0x74,
     0x68, 0x2d, 0x74, 0x72, 0x61, 0x6e, 0x73, 0x63, 0x72, 0x69, 0x70, 0x74, 0x2d, 0x76, 0x31]

  /** "initiator" and "responder" */
  const INITIATOR: bytes := [0x69, 0x6e, 0x69, 0x74, 0x69, 0x61, 0x74, 0x6f, 0x72]
  const RESPONDER: bytes := [0x72, 0x65, 0x73, 0x70, 0x6f, 0x6e, 0x64, 0x65, 0x72]

  function SideName(s: Side): (r: bytes)
    ensures |r| == 9
  {
    if s.Initiator? then INITIATOR else RESPONDER
  }

  /** What a proof is about: the channel, the end it comes from, and the two identities. */
  datatype Claim = Claim(exporter: Exporter, side: Side, signer: Digest, peer: Digest)

  function Preimage(c: Claim): bytes {
    TRANSCRIPT_DOMAIN + (SideName(c.side) + (c.signer + (c.peer + c.exporter)))
  }

  function Transcript(h: bytes -> Digest, c: Claim): Digest { h(Preimage(c)) }

  lemma PreimageInjective(c: Claim, d: Claim)
    requires Preimage(c) == Preimage(d)
    ensures c == d
  {
    Spelling.SameParts(TRANSCRIPT_DOMAIN, SideName(c.side) + (c.signer + (c.peer + c.exporter)),
      TRANSCRIPT_DOMAIN, SideName(d.side) + (d.signer + (d.peer + d.exporter)));
    Spelling.SameParts(SideName(c.side), c.signer + (c.peer + c.exporter),
      SideName(d.side), d.signer + (d.peer + d.exporter));
    Spelling.SameParts(c.signer, c.peer + c.exporter, d.signer, d.peer + d.exporter);
    Spelling.SameParts(c.peer, c.exporter, d.peer, d.exporter);
    assert INITIATOR[0] != RESPONDER[0];
  }

  // ---- signatures -------------------------------------------------------

  datatype Scheme = Scheme(sign: (PqKey, Digest) -> bytes, verify: (PqKey, Digest, bytes) -> bool)
  {
    /** What a key signs verifies under it. */
    ghost predicate Correct() { forall k, m :: verify(k, m, sign(k, m)) }

    /** Nothing else does, and a signature tells key and message. */
    ghost predicate Ideal() {
      && (forall k, m, s :: verify(k, m, s) <==> s == sign(k, m))
      && forall k, m, k', m' :: sign(k, m) == sign(k', m') ==> k == k' && m == m'
    }
  }

  const OpenScheme := Scheme((k: PqKey, m: Digest) => k + m, (k: PqKey, m: Digest, s: bytes) => s == k + m)

  /** The ideal is not empty. */
  lemma IdealSchemeExists()
    ensures OpenScheme.Ideal() && OpenScheme.Correct()
  {
    forall k: PqKey, m: Digest, k': PqKey, m': Digest | k + m == k' + m' ensures k == k' && m == m' {
      Spelling.SameParts(k, m, k', m');
    }
  }

  /** A proof made for another channel, end, pair of identities or key is not accepted. */
  lemma ProofIsBound(h: bytes -> Digest, s: Scheme, k: PqKey, c: Claim, k': PqKey, d: Claim)
    requires s.Ideal() && NoCollision(h, Preimage(c), Preimage(d))
    ensures s.verify(k, Transcript(h, c), s.sign(k', Transcript(h, d))) <==> k == k' && c == d
  {
    if s.verify(k, Transcript(h, c), s.sign(k', Transcript(h, d))) {
      PreimageInjective(c, d);
    }
  }

  // ---- one end ----------------------------------------------------------

  /** An end's own bundle, the pinned bundle of the other end, and its view of the session. */
  datatype End = End(
    hash: bytes -> Digest, scheme: Scheme, exporter: Exporter, side: Side,
    local: IdentityBundle, peer: IdentityBundle)
  {
    function Own(): Digest { Transcript(hash, Claim(exporter, side, Id(hash, local), Id(hash, peer))) }
    function Expected(): Digest { Transcript(hash, Claim(exporter, side.Peer(), Id(hash, peer), Id(hash, local))) }
  }

  datatype Pc = Begin | Waiting | Accepted(proved: bool) | Refused

  /** What one step does: where it leads, what it sends, how many frames it takes. */
  datatype Moved = Moved(pc: Pc, sent: seq<bytes>, taken: nat)

  /** `authenticate`: write first, then read if a proof is required. */
  function Move(e: End, pc: Pc, inbox: seq<bytes>): (m: Moved)
    ensures m.taken <= |inbox|
  {
    match pc
    case Begin =>
      if !e.peer.IsHybrid() && !e.local.IsHybrid() then Moved(Accepted(false), [], 0)
      else
        var sent := if e.local.IsHybrid() then [e.scheme.sign(e.local.pq.value, e.Own())] else [];
        Moved(if e.peer.IsHybrid() then Waiting else Accepted(false), sent, 0)
    case Waiting =>
      if inbox == [] || !e.peer.IsHybrid() then Moved(Waiting, [], 0)
      else if e.scheme.verify(e.peer.pq.value, e.Expected(), inbox[0]) then Moved(Accepted(true), [], 1)
      else Moved(Refused, [], 1)
    case Accepted(_) => Moved(pc, [], 0)
    case Refused => Moved(pc, [], 0)
  }

  /** One end alone, its inbox filled by anyone: frames arrive one by one or it moves. */
  datatype Turn = Arrive(frame: bytes) | Go

  datatype Solo = Solo(pc: Pc, inbox: seq<bytes>, seen: seq<bytes>)

  function Alone(e: End, s: Solo, turns: seq<Turn>): Solo
    decreases |turns|
  {
    if turns == [] then s
    else
      match turns[0]
      case Arrive(f) => Alone(e, Solo(s.pc, s.inbox + [f], s.seen + [f]), turns[1..])
      case Go =>
        var m := Move(e, s.pc, s.inbox);
        Alone(e, Solo(m.pc, s.inbox[m.taken..], s.seen), turns[1..])
  }

  /** Acceptance says what the pinned bundle demands: proved exactly when it is hybrid, and then some
      frame received is a valid proof by the pinned key for this channel. */
  ghost predicate Warranted(e: End, s: Solo) {
    && (forall f :: f in s.inbox ==> f in s.seen)
    && (s.pc.Waiting? ==> e.peer.IsHybrid())
    && (s.pc.Accepted? ==> s.pc.proved == e.peer.IsHybrid())
    && (s.pc == Accepted(true) ==> HasProof(e, s.seen))
  }

  ghost predicate HasProof(e: End, frames: seq<bytes>) {
    e.peer.IsHybrid() && exists f :: f in frames && e.scheme.verify(e.peer.pq.value, e.Expected(), f)
  }

  /** No sequence of frames from anybody makes an end accept a hybrid peer without its proof: the
      requirement cannot be downgraded. */
  lemma {:induction false} NoDowngrade(e: End, s: Solo, turns: seq<Turn>)
    requires Warranted(e, s)
    ensures Warranted(e, Alone(e, s, turns))
    decreases |turns|
  {
    if turns != [] {
      match turns[0]
      case Arrive(f) => NoDowngrade(e, Solo(s.pc, s.inbox + [f], s.seen + [f]), turns[1..]);
      case Go =>
        var m := Move(e, s.pc, s.inbox);
        GoWarranted(e, s);
        NoDowngrade(e, Solo(m.pc, s.inbox[m.taken..], s.seen), turns[1..]);
    }
  }

  lemma GoWarranted(e: End, s: Solo)
    requires Warranted(e, s)
    ensures var m := Move(e, s.pc, s.inbox); Warranted(e, Solo(m.pc, s.inbox[m.taken..], s.seen))
  {
    var m := Move(e, s.pc, s.inbox);
    if m.taken == 1 { assert s.inbox[0] in s.inbox && s.inbox[0] in s.seen; }
  }

  // ---- two honest ends --------------------------------------------------

  /** Both ends of one session, who hold each other's true bundles. */
  datatype Session = Session(hash: bytes -> Digest, scheme: Scheme, exporter: Exporter, a: IdentityBundle, b: IdentityBundle)
  {
    function EndA(): End {
      End(hash, scheme, exporter, SideOf(RoleFor(Id(hash, a), Id(hash, b))), a, b)
    }
    function EndB(): End {
      End(hash, scheme, exporter, SideOf(RoleFor(Id(hash, b), Id(hash, a))), b, a)
    }
  }

  datatype Both = Both(pcA: Pc, pcB: Pc, toA: seq<bytes>, toB: seq<bytes>)

  const Opening := Both(Begin, Begin, [], [])

  function Step(s: Session, x: Both, moveA: bool): Both {
    if moveA then
      var m := Move(s.EndA(), x.pcA, x.toA);
      Both(m.pc, x.pcB, x.toA[m.taken..], x.toB + m.sent)
    else
      var m := Move(s.EndB(), x.pcB, x.toB);
      Both(x.pcA, m.pc, x.toA + m.sent, x.toB[m.taken..])
  }

  function Run(s: Session, x: Both, schedule: seq<bool>): Both
    decreases |schedule|
  {
    if schedule == [] then x else Run(s, Step(s, x, schedule[0]), schedule[1..])
  }

  function Proof(e: End): seq<bytes> {
    if e.local.IsHybrid() then [e.scheme.sign(e.local.pq.value, e.Own())] else []
  }

  /** A frame is under way exactly while its sender has moved and its reader has not taken it. */
  ghost predicate Balanced(sender: End, ps: Pc, reader: End, pr: Pc, queue: seq<bytes>) {
    && (pr.Accepted? ==> pr.proved == reader.peer.IsHybrid())
    && !pr.Refused?
    && (pr.Waiting? ==> reader.peer.IsHybrid())
    && (ps.Begin? ==> pr != Accepted(true))
    && queue == if ps.Begin? || pr == Accepted(true) then [] else Proof(sender)
  }

  ghost predicate Inv(s: Session, x: Both) {
    Balanced(s.EndA(), x.pcA, s.EndB(), x.pcB, x.toB) && Balanced(s.EndB(), x.pcB, s.EndA(), x.pcA, x.toA)
  }

  /** The sender's own transcript is the one the reader expects. */
  ghost predicate Agreed(sender: End, reader: End) {
    && sender.scheme == reader.scheme && sender.scheme.Correct()
    && reader.peer == sender.local && reader.local == sender.peer
    && sender.Own() == reader.Expected()
  }

  lemma SenderMoves(sender: End, ps: Pc, reader: End, pr: Pc, queue: seq<bytes>, inbox: seq<bytes>)
    requires Agreed(sender, reader) && Balanced(sender, ps, reader, pr, queue)
    requires ps.Waiting? ==> sender.peer.IsHybrid()
    ensures Balanced(sender, Move(sender, ps, inbox).pc, reader, pr, queue + Move(sender, ps, inbox).sent)
  {
    var m := Move(sender, ps, inbox);
    assert queue + [] == queue;
    if ps.Begin? { assert queue + m.sent == m.sent; }
  }

  lemma ReaderMoves(sender: End, ps: Pc, reader: End, pr: Pc, queue: seq<bytes>)
    requires Agreed(sender, reader) && Balanced(sender, ps, reader, pr, queue)
    ensures var m := Move(reader, pr, queue); Balanced(sender, ps, reader, m.pc, queue[m.taken..])
  {
  }

  lemma EndsAgree(s: Session)
    requires s.scheme.Correct() && Id(s.hash, s.a) != Id(s.hash, s.b)
    ensures Agreed(s.EndA(), s.EndB()) && Agreed(s.EndB(), s.EndA())
  {
    RolesComplement(Id(s.hash, s.a), Id(s.hash, s.b));
    RolesComplement(Id(s.hash, s.b), Id(s.hash, s.a));
  }

  lemma StepKeeps(s: Session, x: Both, moveA: bool)
    requires s.scheme.Correct() && Id(s.hash, s.a) != Id(s.hash, s.b) && Inv(s, x)
    ensures Inv(s, Step(s, x, moveA))
  {
    EndsAgree(s);
    if moveA {
      SenderMoves(s.EndA(), x.pcA, s.EndB(), x.pcB, x.toB, x.toA);
      ReaderMoves(s.EndB(), x.pcB, s.EndA(), x.pcA, x.toA);
    } else {
      SenderMoves(s.EndB(), x.pcB, s.EndA(), x.pcA, x.toA, x.toB);
      ReaderMoves(s.EndA(), x.pcA, s.EndB(), x.pcB, x.toB);
    }
  }

  lemma {:induction false} RunKeeps(s: Session, x: Both, schedule: seq<bool>)
    requires s.scheme.Correct() && Id(s.hash, s.a) != Id(s.hash, s.b) && Inv(s, x)
    ensures Inv(s, Run(s, x, schedule))
    decreases |schedule|
  {
    if schedule != [] {
      StepKeeps(s, x, schedule[0]);
      RunKeeps(s, Step(s, x, schedule[0]), schedule[1..]);
    }
  }

  function Weight(p: Pc): nat { match p case Begin => 2 case Waiting => 1 case Accepted(_) => 0 case Refused => 0 }

  predicate Finished(x: Both) { Weight(x.pcA) == 0 && Weight(x.pcB) == 0 }

  /** Two honest peers with distinct identifiers, hybrid or classical in any combination, in every
      interleaving of their steps: neither ever refuses; an end that finishes reports exactly
      whether the pinned peer is hybrid; when both have finished, every frame sent was taken. */
  lemma EveryInterleaving(s: Session, schedule: seq<bool>)
    requires s.scheme.Correct() && Id(s.hash, s.a) != Id(s.hash, s.b)
    ensures var x := Run(s, Opening, schedule);
      && !x.pcA.Refused? && !x.pcB.Refused?
      && (x.pcA.Accepted? ==> x.pcA.proved == s.b.IsHybrid())
      && (x.pcB.Accepted? ==> x.pcB.proved == s.a.IsHybrid())
      && (Finished(x) ==> x.toA == [] && x.toB == [])
  {
    RunKeeps(s, Opening, schedule);
  }

  /** Until both have finished, one of them can get on: no deadlock in any reachable state, and so at
      most four productive steps. */
  lemma AlwaysProgress(s: Session, schedule: seq<bool>)
    requires s.scheme.Correct() && Id(s.hash, s.a) != Id(s.hash, s.b)
    requires !Finished(Run(s, Opening, schedule))
    ensures var x := Run(s, Opening, schedule);
      exists who :: Lighter(x, Step(s, x, who))
  {
    var x := Run(s, Opening, schedule);
    RunKeeps(s, Opening, schedule);
    if x.pcA.Begin? { BeginMoves(s, x, true); }
    else if x.pcB.Begin? { BeginMoves(s, x, false); }
    else if x.pcA.Waiting? { ProofIsTaken(s.EndB(), x.pcB, s.EndA(), x.pcA, x.toA); assert Lighter(x, Step(s, x, true)); }
    else { ProofIsTaken(s.EndA(), x.pcA, s.EndB(), x.pcB, x.toB); assert Lighter(x, Step(s, x, false)); }
  }

  predicate Lighter(x: Both, y: Both) { Weight(y.pcA) + Weight(y.pcB) < Weight(x.pcA) + Weight(x.pcB) }

  lemma BeginMoves(s: Session, x: Both, who: bool)
    requires if who then x.pcA.Begin? else x.pcB.Begin?
    ensures Lighter(x, Step(s, x, who))
  {
  }

  /** A reader that waits for a sender who has moved has its frame, and takes it. */
  lemma ProofIsTaken(sender: End, ps: Pc, reader: End, pr: Pc, queue: seq<bytes>)
    requires Balanced(sender, ps, reader, pr, queue) && pr.Waiting? && !ps.Begin? && reader.peer == sender.local
    ensures Weight(Move(reader, pr, queue).pc) == 0
  {
  }
}
