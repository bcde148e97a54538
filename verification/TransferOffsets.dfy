/** Resume offsets from session to session: exactly when they never decrease. */
module TransferOffsets {
  import opened Bytes
  import opened Wire
  import opened Transfer
  import opened TransferSafety
  import opened TransferSession
  import opened TransferResume
  import opened TransferExact

  // ---- sessions that end in a power cut ---------------------------------

  /** The next session after a power cut left `left`, up to its first frame boundary. */
  lemma Again(cfg: Config, s: System, left: bytes) returns (es: seq<Event>)
    requires cfg.Valid() && cfg.Accepts(cfg.Total()) && s.disk.MayCrashTo(left) && !s.receiver.pc.RSyncDue?
    ensures var t, d := Run(cfg, s, es), s.disk.(cur := left);
      var offset := StartOffset(cfg, d);
      && Undisturbed(cfg, s, es) && Started(cfg, t, offset) && CutTo(d, offset, t.disk)
      && t.starts == s.starts + [offset]
  {
    var u := Apply(cfg, s, Crash(left));
    RunOne(cfg, s, Crash(left));
    Then(cfg, s, [Crash(left)], Reconnect);
    var head := [Crash(left)] + [Reconnect];
    var rest := Begun(cfg, Run(cfg, s, head));
    RunConcat(cfg, s, head, rest);
    es := head + rest;
  }

  /** The next session after the process stopped, with no power cut. */
  lemma Killed(cfg: Config, s: System) returns (es: seq<Event>)
    requires cfg.Valid() && cfg.Accepts(cfg.Total()) && s.disk.Valid()
    ensures var t := Run(cfg, s, es); var offset := StartOffset(cfg, s.disk);
      && Started(cfg, t, offset) && CutTo(s.disk, offset, t.disk) && t.starts == s.starts + [offset]
      && (!s.receiver.pc.RSyncDue? ==> Undisturbed(cfg, s, es))
  {
    var u := Apply(cfg, s, Reconnect);
    var rest := Begun(cfg, u);
    es := [Reconnect] + rest;
    ConsParts(Reconnect, rest);
  }

  lemma Falls(starts: seq<nat>, a: nat, b: nat)
    requires a > b
    ensures !NonDecreasing(starts + [a] + [b])
  {
    var q := starts + [a] + [b];
    assert q[|starts|] == a && q[|starts| + 1] == b;
  }

  lemma TwoRuns(cfg: Config, s: System, a: seq<Event>, b: seq<Event>)
    requires cfg.chunk > 0 && cfg.ckpt > 0
    ensures Run(cfg, s, a + b) == Run(cfg, Run(cfg, s, a), b)
    ensures Undisturbed(cfg, s, a) && Undisturbed(cfg, Run(cfg, s, a), b) ==> Undisturbed(cfg, s, a + b)
  {
    RunConcat(cfg, s, a, b);
  }

  /** Two sessions on end, each after a power cut, the second starting lower. */
  lemma TwiceAgain(cfg: Config, s: System, left: bytes, left': bytes) returns (es: seq<Event>)
    requires cfg.Valid() && cfg.Accepts(cfg.Total()) && s.disk.MayCrashTo(left) && !s.receiver.pc.RSyncDue?
    requires var a := StartOffset(cfg, s.disk.(cur := left));
      var d := Disk(left[..a], Min(s.disk.durable, a), s.disk.high, s.disk.placed);
      d.MayCrashTo(left') && StartOffset(cfg, d.(cur := left')) < a
    ensures var a := StartOffset(cfg, s.disk.(cur := left));
      var d := Disk(left', Min(s.disk.durable, a), s.disk.high, s.disk.placed);
      Run(cfg, s, es).starts == s.starts + [a] + [StartOffset(cfg, d)]
    ensures Undisturbed(cfg, s, es) && !NonDecreasing(Run(cfg, s, es).starts)
  {
    var first := Again(cfg, s, left);
    var t := Run(cfg, s, first);
    var second := Again(cfg, t, left');
    TwoRuns(cfg, s, first, second);
    Falls(s.starts, StartOffset(cfg, s.disk.(cur := left)), StartOffset(cfg, t.disk.(cur := left')));
    es := first + second;
  }

  // ---- where a session starts -------------------------------------------

  /** A file that is the source as far as it is credited starts there. */
  lemma StartsAtCredit(cfg: Config, d: Disk, have: nat)
    requires cfg.Valid() && have == Min(Credit(cfg, |d.cur|), cfg.Total()) && d.cur[..have] == cfg.source[..have]
    ensures StartOffset(cfg, d) == have
  {
  }

  /** One that is not starts at 0. */
  lemma StartsAtZero(cfg: Config, d: Disk, have: nat)
    requires cfg.Valid() && NoPrefixCollision(cfg)
    requires have == Min(Credit(cfg, |d.cur|), cfg.Total()) && d.cur[..have] != cfg.source[..have]
    ensures StartOffset(cfg, d) == 0
  {
  }

  lemma CreditOfMultiple(cfg: Config, n: nat)
    requires cfg.ckpt > 0 && n % cfg.ckpt == 0
    ensures Credit(cfg, n) == n
  {
    FloorToUnique(n, n, cfg.ckpt);
  }

  // ---- disks from which offsets fall ------------------------------------

  /** Nothing durable, and a checkpoint's worth may come back: luck, and then none. */
  lemma UpAndDown(cfg: Config, s: System) returns (es: seq<Event>)
    requires cfg.Valid() && cfg.Accepts(cfg.Total()) && cfg.Total() > 0 && s.disk.Valid() && !s.receiver.pc.RSyncDue?
    requires s.disk.durable == 0 && s.disk.high >= cfg.ckpt
    ensures Undisturbed(cfg, s, es) && !NonDecreasing(Run(cfg, s, es).starts)
  {
    var h := Min(cfg.ckpt, cfg.Total());
    var left := cfg.source[..h] + Zeros(cfg.ckpt - h);
    assert left[..h] == cfg.source[..h] && left[..0] == s.disk.cur[..0] == [];
    MultipleMod(1, cfg.ckpt);
    CreditOfMultiple(cfg, cfg.ckpt);
    StartsAtCredit(cfg, s.disk.(cur := left), h);
    es := TwiceAgain(cfg, s, left, []);
  }

  /** The first session rewinds to nothing, and then as above. */
  lemma RewoundThenFalls(cfg: Config, s: System, left: bytes) returns (es: seq<Event>)
    requires cfg.Valid() && cfg.Accepts(cfg.Total()) && cfg.Total() > 0 && !s.receiver.pc.RSyncDue?
    requires s.disk.MayCrashTo(left) && StartOffset(cfg, s.disk.(cur := left)) == 0 && s.disk.high >= cfg.ckpt
    ensures Undisturbed(cfg, s, es) && !NonDecreasing(Run(cfg, s, es).starts)
  {
    var first := Again(cfg, s, left);
    var second := UpAndDown(cfg, Run(cfg, s, first));
    TwoRuns(cfg, s, first, second);
    es := first + second;
  }

  /** The whole source is durable and ends on a checkpoint. */
  ghost predicate WholeAndEven(cfg: Config, d: Disk)
    requires cfg.ckpt > 0
  {
    d.Valid() && cfg.Total() <= d.durable && cfg.Total() % cfg.ckpt == 0 && d.cur[..cfg.Total()] == cfg.source
  }

  /** What a power cut may leave that is as short as can be. */
  function Shortest(d: Disk): bytes
    requires d.Valid()
  {
    d.cur[..d.durable]
  }

  /** The credited bytes are not the source's. */
  lemma ForeignFalls(cfg: Config, s: System) returns (es: seq<Event>)
    requires cfg.Valid() && cfg.Accepts(cfg.Total()) && NoPrefixCollision(cfg) && s.disk.Valid() && !s.receiver.pc.RSyncDue?
    requires var h := Min(Credit(cfg, s.disk.durable), cfg.Total()); s.disk.cur[..h] != cfg.source[..h]
    ensures Undisturbed(cfg, s, es) && !NonDecreasing(Run(cfg, s, es).starts)
  {
    var d := s.disk;
    var h := Min(Credit(cfg, d.durable), cfg.Total());
    assert Shortest(d)[..h] == d.cur[..h];
    StartsAtZero(cfg, d.(cur := Shortest(d)), h);
    assert d.cur[..0] == cfg.source[..0];
    if d.durable < cfg.ckpt { FloorToUnique(d.durable, 0, cfg.ckpt); }
    es := RewoundThenFalls(cfg, s, Shortest(d));
  }

  /** All of the source is durable, and does not end on a checkpoint. */
  lemma UnevenFalls(cfg: Config, s: System) returns (es: seq<Event>)
    requires cfg.Valid() && cfg.Accepts(cfg.Total()) && s.disk.Valid() && !s.receiver.pc.RSyncDue?
    requires cfg.Total() <= Credit(cfg, s.disk.durable) && cfg.Total() % cfg.ckpt != 0
    requires s.disk.cur[..cfg.Total()] == cfg.source
    ensures Undisturbed(cfg, s, es) && !NonDecreasing(Run(cfg, s, es).starts)
  {
    var d, total := s.disk, cfg.Total();
    var left := Shortest(d);
    assert left[..total] == d.cur[..total] == cfg.source == cfg.source[..total];
    StartsAtCredit(cfg, d.(cur := left), total);
    var k := Credit(cfg, total);
    assert cfg.source[..k] == cfg.source[..total][..k];
    var t := Disk(left[..total], total, d.high, d.placed);
    assert cfg.source[..total] == cfg.source;
    assert t.MayCrashTo(cfg.source);
    StartsAtCredit(cfg, t.(cur := cfg.source), k);
    es := TwiceAgain(cfg, s, left, cfg.source);
  }

  /** More may come back than is durable, and there is more of the source to come: the first session
      goes by what is durable, and the second finds rubbish past it. */
  lemma LooseFalls(cfg: Config, s: System) returns (es: seq<Event>)
    requires cfg.Valid() && cfg.Accepts(cfg.Total()) && NoPrefixCollision(cfg) && s.disk.Valid() && !s.receiver.pc.RSyncDue?
    requires var k := Credit(cfg, s.disk.durable);
      k < cfg.Total() && s.disk.cur[..k] == cfg.source[..k] && s.disk.high >= k + cfg.ckpt
    ensures Undisturbed(cfg, s, es) && !NonDecreasing(Run(cfg, s, es).starts)
  {
    var d := s.disk;
    var k := Credit(cfg, d.durable);
    var left := Shortest(d);
    assert left[..k] == d.cur[..k];
    StartsAtCredit(cfg, d.(cur := left), k);
    if k == 0 {
      es := RewoundThenFalls(cfg, s, left);
    } else {
      var bad := Rubbish(cfg, k);
      assert left[..k] == cfg.source[..k];
      var t := Disk(left[..k], k, d.high, d.placed);
      assert t.MayCrashTo(bad);
      es := TwiceAgain(cfg, s, left, bad);
    }
  }

  /** The source up to a checkpoint, and then one checkpoint that is not the source's. */
  lemma Rubbish(cfg: Config, k: nat) returns (left: bytes)
    requires cfg.Valid() && NoPrefixCollision(cfg) && k % cfg.ckpt == 0 && k < cfg.Total()
    ensures |left| == k + cfg.ckpt && left[..k] == cfg.source[..k]
    ensures forall d: Disk :: d.cur == left ==> StartOffset(cfg, d) == 0
  {
    var wrong: byte := if cfg.source[k] == 0 then 1 else 0;
    left := cfg.source[..k] + seq(cfg.ckpt, _ => wrong);
    assert left[..k] == cfg.source[..k];
    MultipleMod(1, cfg.ckpt);
    MultiplesAdd(k, cfg.ckpt, cfg.ckpt);
    CreditOfMultiple(cfg, k + cfg.ckpt);
    var have := Min(k + cfg.ckpt, cfg.Total());
    assert left[..have][k] == wrong != cfg.source[..have][k];
    forall d: Disk | d.cur == left ensures StartOffset(cfg, d) == 0 { StartsAtZero(cfg, d, have); }
  }

  /** Every disk that is neither sheltered nor holds the whole source up to a checkpoint has an undisturbed
      run in which a later session starts lower than an earlier one; for any sizes. */
  lemma UnshelteredFalls(cfg: Config, s: System) returns (es: seq<Event>)
    requires cfg.Valid() && cfg.Accepts(cfg.Total()) && NoPrefixCollision(cfg) && Initial(s)
    requires !Sheltered(cfg, s.disk) && !WholeAndEven(cfg, s.disk)
    ensures Undisturbed(cfg, s, es) && !NonDecreasing(Run(cfg, s, es).starts)
  {
    var d, total := s.disk, cfg.Total();
    var k := Credit(cfg, d.durable);
    var h := Min(k, total);
    if d.cur[..h] != cfg.source[..h] {
      es := ForeignFalls(cfg, s);
    } else if k < total {
      es := LooseFalls(cfg, s);
    } else {
      assert cfg.source[..total] == cfg.source;
      es := UnevenFalls(cfg, s);
    }
  }

  // ---- the whole source already there -----------------------------------

  /** Every session starts, and has started, at the end, until the file is put in place. */
  ghost predicate AtTheEnd(cfg: Config, s: System)
    requires cfg.chunk > 0 && cfg.ckpt > 0
  {
    && SessionInv(cfg, s) && Agreed(cfg, s) && WholeAndEven(cfg, s.disk) && s.receiver.done.None? && !s.receiver.pc.RSyncDue?
    && (s.receiver.pc.RAwaitStart? || s.receiver.pc.RLoop? ==> s.receiver.have == cfg.Total() == |s.disk.cur|)
    && (forall i :: 0 <= i < |s.starts| ==> s.starts[i] == cfg.Total())
  }

  lemma EndOffer(cfg: Config, s: System)
    requires cfg.Valid() && AtTheEnd(cfg, s) && s.receiver.pc.RAwaitOffer? && s.fwd.Ready()
    ensures AtTheEnd(cfg, Apply(cfg, s, ReceiverReads))
  {
    var raw := s.fwd.log[s.fwd.next];
    ReceiverFollows(cfg, s);
    ReadIsAbsorbed(cfg, s);
    assert OnScript(cfg, s.sender.offset, 0, raw);
    EndOffered(cfg, s.receiver, s.disk, raw);
    var o := OnOffer(cfg, s.receiver, s.disk, raw);
    AbsorbAgreed(cfg, s, o);
    AbsorbShape(s, o);
  }

  lemma EndOffered(cfg: Config, r: Receiver, d: Disk, raw: bytes)
    requires cfg.Valid() && WholeAndEven(cfg, d) && r.done.None? && r.have <= cfg.Total()
    requires raw == Frame(OFFER, U64Be(cfg.Total()), cfg.FrameLen())
    ensures var o := OnOffer(cfg, r, d, raw);
      && WholeAndEven(cfg, o.disk) && o.disk.placed == d.placed && o.r.done.None? && o.r.have <= cfg.Total()
      && (o.r.pc.RFailed? || (o.r.pc.RAwaitStart? && o.r.have == cfg.Total() == |o.disk.cur|))
      && (o.reply.Some? ==> o.reply.value == Frame(RESUME, ResumeBody(o.r.have, cfg.hash(cfg.source[..o.r.have])), o.r.frameLen))
      && (o.reply.Some? || o.r.pc.RFailed?)
  {
    var total := cfg.Total();
    WordFrame(OFFER, total, cfg.FrameLen());
    CreditOfMultiple(cfg, total);
    CreditMonotone(cfg, total, |d.cur|);
    assert cfg.source[..total] == cfg.source;
  }

  lemma EndStart(cfg: Config, s: System)
    requires cfg.Valid() && AtTheEnd(cfg, s) && s.receiver.pc.RAwaitStart? && s.fwd.Ready()
    ensures AtTheEnd(cfg, Apply(cfg, s, ReceiverReads))
  {
    var raw, total := s.fwd.log[s.fwd.next], cfg.Total();
    ReceiverFollows(cfg, s);
    ReadIsAbsorbed(cfg, s);
    assert OnScript(cfg, s.sender.offset, 1, raw);
    WordFrame(START, total, cfg.FrameLen());
    var o := OnStart(s.receiver, s.disk, raw);
    assert s.disk.cur[..total] == s.disk.cur;
    assert o.r.pc.RLoop? && o.r.offset == total && o.disk == s.disk;
    AbsorbAgreed(cfg, s, o);
    AbsorbShape(s, o);
  }

  /** Nothing is left to be sent but the digest, which is right; so the file is put in place, unless the
      chunk is too short for the digest. */
  lemma EndDone(cfg: Config, s: System)
    requires cfg.Valid() && AtTheEnd(cfg, s) && s.receiver.pc.RLoop? && s.fwd.Ready()
    ensures var t := Apply(cfg, s, ReceiverReads); AtTheEnd(cfg, t) || ResumeInv(cfg, t)
  {
    var r, d, raw, total := s.receiver, s.disk, s.fwd.log[s.fwd.next], cfg.Total();
    ReceiverFollows(cfg, s);
    ReadIsAbsorbed(cfg, s);
    assert OnScript(cfg, s.sender.offset, s.fwd.next, raw);
    assert s.sender.offset == total && s.fwd.next == 2;
    ParseFrame(DONE, cfg.hash(cfg.source), cfg.FrameLen());
    var o := OnFrame(cfg, r, d, raw);
    LoopReplies(cfg, r, d, raw);
    AbsorbAgreed(cfg, s, o);
    AbsorbShape(s, o);
    if o.r.done.Some? {
      FloorToUnique(0, 0, cfg.ckpt);
      AbsorbStarts(cfg, s.(starts := []), o);
    }
  }

  lemma EndOther(cfg: Config, s: System, e: Event)
    requires cfg.Valid() && AtTheEnd(cfg, s) && Enabled(cfg, s, e) && !e.ReceiverReads? && !Disturbs(s, e)
    ensures AtTheEnd(cfg, Apply(cfg, s, e))
  {
    StepFollows(cfg, s, e);
    if e.SendStart? { StartAgreed(cfg, s, e.planned); }
    else if !e.Reconnect? { AgreedKept(cfg, s, e); }
    EndElsewhere(cfg, s, e);
  }

  lemma EndElsewhere(cfg: Config, s: System, e: Event)
    requires cfg.Valid() && WholeAndEven(cfg, s.disk) && !s.receiver.pc.RSyncDue? && Enabled(cfg, s, e) && !e.ReceiverReads?
    ensures var t := Apply(cfg, s, e);
      && WholeAndEven(cfg, t.disk) && t.starts == s.starts
      && ((t.receiver == s.receiver && t.disk == s.disk) || t.receiver == s.receiver.(pc := RFailed) || t.receiver == FreshReceiver)
  {
    var total := cfg.Total();
    if e.Crash? { assert e.left[..total] == e.left[..s.disk.durable][..total] == s.disk.cur[..total]; }
  }

  lemma EndStep(cfg: Config, s: System, e: Event)
    requires cfg.Valid() && AtTheEnd(cfg, s) && !Disturbs(s, e)
    ensures var t := Apply(cfg, s, e); AtTheEnd(cfg, t) || ResumeInv(cfg, t)
  {
    if Enabled(cfg, s, e) {
      if !e.ReceiverReads? { EndOther(cfg, s, e); }
      else if s.receiver.pc.RAwaitOffer? { EndOffer(cfg, s); }
      else if s.receiver.pc.RAwaitStart? { EndStart(cfg, s); }
      else { EndDone(cfg, s); }
    }
  }

  lemma {:induction false} EndRun(cfg: Config, s: System, es: seq<Event>)
    requires cfg.Valid() && Aligned(cfg.chunk, cfg.ckpt) && (AtTheEnd(cfg, s) || ResumeInv(cfg, s)) && Undisturbed(cfg, s, es)
    ensures NonDecreasing(Run(cfg, s, es).starts)
    decreases |es|
  {
    if es != [] {
      if AtTheEnd(cfg, s) { EndStep(cfg, s, es[0]); } else { StepKeepsResume(cfg, s, es[0]); }
      EndRun(cfg, Apply(cfg, s, es[0]), es[1..]);
    }
  }

  // ---- exactly when ------------------------------------------------------

  /** In every undisturbed run from `s` no session starts lower than one before it, counting from the last
      time the file was put in place. */
  ghost predicate NeverFalls(cfg: Config, s: System)
    requires cfg.chunk > 0 && cfg.ckpt > 0
  {
    forall es: seq<Event> | Undisturbed(cfg, s, es) :: NonDecreasing(Run(cfg, s, es).starts)
  }

  lemma ShelterKeepsOffsets(cfg: Config, s: System)
    requires cfg.Valid() && Aligned(cfg.chunk, cfg.ckpt) && Initial(s) && Sheltered(cfg, s.disk)
    ensures NeverFalls(cfg, s)
  {
    forall es: seq<Event> | Undisturbed(cfg, s, es) ensures NonDecreasing(Run(cfg, s, es).starts) {
      ResumeNeverLosesGround(cfg, s, es);
    }
  }

  lemma EndKeepsOffsets(cfg: Config, s: System)
    requires cfg.Valid() && Aligned(cfg.chunk, cfg.ckpt) && Initial(s) && WholeAndEven(cfg, s.disk)
    ensures NeverFalls(cfg, s)
  {
    forall es: seq<Event> | Undisturbed(cfg, s, es) ensures NonDecreasing(Run(cfg, s, es).starts) {
      EndRun(cfg, s, es);
    }
  }

  lemma RefusalKeepsOffsets(cfg: Config, s: System)
    requires cfg.Valid() && !cfg.Accepts(cfg.Total()) && Initial(s)
    ensures NeverFalls(cfg, s)
  {
    forall es: seq<Event> | Undisturbed(cfg, s, es) ensures NonDecreasing(Run(cfg, s, es).starts) {
      NeverStarts(cfg, s, es);
    }
  }

  /** With aligned sizes, for every disk whatever: resume offsets never decrease over undisturbed runs if
      and only if the disk is sheltered, or the whole source is durable on it and ends on a checkpoint,
      or the offer is over the receiver's limit. */
  lemma OffsetsExactlyByDisk(cfg: Config, s: System)
    requires cfg.Valid() && Aligned(cfg.chunk, cfg.ckpt) && NoPrefixCollision(cfg) && Initial(s)
    ensures NeverFalls(cfg, s) <==>
      Sheltered(cfg, s.disk) || WholeAndEven(cfg, s.disk) || !cfg.Accepts(cfg.Total())
  {
    if !cfg.Accepts(cfg.Total()) { RefusalKeepsOffsets(cfg, s); }
    else if Sheltered(cfg, s.disk) { ShelterKeepsOffsets(cfg, s); }
    else if WholeAndEven(cfg, s.disk) { EndKeepsOffsets(cfg, s); }
    else { var es := UnshelteredFalls(cfg, s); }
  }

  /** For every digest and every pair of sizes that is not aligned there are a payload and an undisturbed
      run from no partial in which offsets fall: the process stops where more was written than fsynced,
      the next session goes by all of it, and then the power fails. */
  lemma MisalignedFalls(chunk: nat, ckpt: nat, hash: bytes -> Digest) returns (cfg: Config, es: seq<Event>)
    requires 1 <= chunk <= MAX_FRAME_LEN - HEADER_LEN && 1 <= ckpt && !Aligned(chunk, ckpt)
    ensures cfg.Valid() && cfg.chunk == chunk && cfg.ckpt == ckpt && cfg.hash == hash
    ensures Undisturbed(cfg, FreshSystem, es) && !NonDecreasing(Run(cfg, FreshSystem, es).starts)
  {
    var n;
    cfg, n := MisalignedPayload(chunk, ckpt, hash);
    var head := Steady(cfg, n);
    var t := Run(cfg, FreshSystem, head);
    var rest := KilledThenCut(cfg, t, Pos(cfg, 0, n), Synced(cfg, n));
    TwoRuns(cfg, FreshSystem, head, rest);
    es := head + rest;
  }

  /** `written` bytes of the source are there and only `durable` are fsynced, with a multiple of the
      checkpoint between: a stop and then a power cut. */
  lemma KilledThenCut(cfg: Config, s: System, written: nat, durable: nat) returns (es: seq<Event>)
    requires cfg.Valid() && cfg.Accepts(cfg.Total()) && durable < Credit(cfg, written) && written <= cfg.Total()
    requires s.disk.cur == cfg.source[..written] && s.disk.durable == durable && s.disk.high == written
    ensures Run(cfg, s, es).starts == s.starts + [Credit(cfg, written)] + [Credit(cfg, durable)]
    ensures !NonDecreasing(Run(cfg, s, es).starts) && (!s.receiver.pc.RSyncDue? ==> Undisturbed(cfg, s, es))
  {
    var a, b, left := Credit(cfg, written), Credit(cfg, durable), cfg.source[..durable];
    assert s.disk.cur[..a] == cfg.source[..a] && left[..b] == cfg.source[..b];
    StartsAtCredit(cfg, s.disk, a);
    var first := Killed(cfg, s);
    var t := Run(cfg, s, first);
    assert t.disk.cur[..durable] == cfg.source[..durable];
    StartsAtCredit(cfg, t.disk.(cur := left), b);
    var second := Again(cfg, t, left);
    TwoRuns(cfg, s, first, second);
    Falls(s.starts, a, b);
    es := first + second;
  }

  /** The sizes and the digest are such that offsets never fall, for every payload and sheltered disk. */
  ghost predicate ShelterKeeps(chunk: nat, ckpt: nat, hash: bytes -> Digest)
    requires chunk > 0 && ckpt > 0
  {
    forall cfg: Config, s: System |
      cfg.Valid() && cfg.chunk == chunk && cfg.ckpt == ckpt && cfg.hash == hash && Initial(s) && Sheltered(cfg, s.disk)
      :: NeverFalls(cfg, s)
  }

  /** For each digest: from every sheltered disk, for every payload, resume offsets never decrease over
      undisturbed runs if and only if the sizes are aligned. */
  lemma OffsetsExactlyBySizes(chunk: nat, ckpt: nat, hash: bytes -> Digest)
    requires 1 <= chunk <= MAX_FRAME_LEN - HEADER_LEN && 1 <= ckpt
    ensures ShelterKeeps(chunk, ckpt, hash) <==> Aligned(chunk, ckpt)
  {
    if Aligned(chunk, ckpt) {
      forall cfg: Config, s: System |
        cfg.Valid() && cfg.chunk == chunk && cfg.ckpt == ckpt && cfg.hash == hash && Initial(s) && Sheltered(cfg, s.disk)
        ensures NeverFalls(cfg, s)
      {
        ShelterKeepsOffsets(cfg, s);
      }
    } else {
      var cfg, es := MisalignedFalls(chunk, ckpt, hash);
      EmptyIsSheltered(cfg);
    }
  }

  // ---- at particular inputs ---------------------------------------------

  /** A partial that is the first checkpoint of the source, not yet fsynced: the first session goes by it,
      and after a power cut the second has nothing. */
  lemma UnsyncedPartialFalls(cfg: Config) returns (es: seq<Event>)
    requires cfg.Valid() && cfg.Accepts(cfg.Total()) && cfg.ckpt <= cfg.Total()
    ensures var s := FreshSystem.(disk := Disk(cfg.source[..cfg.ckpt], 0, cfg.ckpt, []));
      Undisturbed(cfg, s, es) && Run(cfg, s, es).starts == [cfg.ckpt, 0]
  {
    var left := cfg.source[..cfg.ckpt];
    var s := FreshSystem.(disk := Disk(left, 0, cfg.ckpt, []));
    MultipleMod(1, cfg.ckpt);
    CreditOfMultiple(cfg, cfg.ckpt);
    assert left[..cfg.ckpt] == left;
    StartsAtCredit(cfg, s.disk, cfg.ckpt);
    es := TwiceAgain(cfg, s, left, []);
  }

  /** From no partial, for every chunk size of at least 8 and every checkpoint: the process stops between
      the write that ends block `j` and its fsync, the next session goes by all that was written, the
      power fails, and the one after that starts over. */
  lemma KillThenCutFalls(cfg: Config, j: nat, left: bytes) returns (es: seq<Event>)
    requires cfg.Valid() && cfg.Accepts(cfg.Total()) && cfg.chunk >= 8 && Garbled(cfg, j, left)
    ensures Run(cfg, FreshSystem, es).starts == [0, Credit(cfg, (j + 1) * Block(cfg)), 0]
    ensures !NonDecreasing(Run(cfg, FreshSystem, es).starts)
  {
    var n := BlockEnd(cfg, j);
    var durable, written := j * Block(cfg), (j + 1) * Block(cfg);
    var head := ReachWindow(cfg, j);
    var s := Run(cfg, FreshSystem, head);
    var a := Credit(cfg, written);
    assert s.disk.cur[..a] == cfg.source[..a];
    StartsAtCredit(cfg, s.disk, a);
    var first := Killed(cfg, s);
    var t := Run(cfg, s, first);
    assert t.disk.cur[..durable] == cfg.source[..durable];
    assert StartOffset(cfg, t.disk.(cur := left)) == 0;
    var second := Again(cfg, t, left);
    TwoRuns(cfg, FreshSystem, head, first);
    TwoRuns(cfg, FreshSystem, head + first, second);
    es := head + first + second;
    Falls([0], a, 0);
    assert [0] + [a] + [0] == [0, a, 0];
  }

  /** There is such a thing to come back, for every block of every payload. */
  lemma GarbledExists(cfg: Config, j: nat) returns (left: bytes)
    requires cfg.Valid() && NoPrefixCollision(cfg) && (j + 1) * Block(cfg) <= cfg.Total()
    ensures Garbled(cfg, j, left)
  {
    var n := BlockEnd(cfg, j);
    var durable, written := j * Block(cfg), (j + 1) * Block(cfg);
    var have := Credit(cfg, written);
    var wrong: byte := if cfg.source[durable] == 0 then 1 else 0;
    left := cfg.source[..durable] + seq(written - durable, _ => wrong);
    assert left[..durable] == cfg.source[..durable];
    assert left[..have][durable] == wrong != cfg.source[..have][durable];
  }

  // ---- every run whatever -----------------------------------------------

  /** Nothing the file may come back with is credited, and nothing ever was. */
  ghost predicate NothingCredited(cfg: Config, s: System)
    requires cfg.chunk > 0
  {
    && SessionInv(cfg, s) && s.disk.high < cfg.ckpt
    && (forall i :: 0 <= i < |s.starts| ==> s.starts[i] == 0)
    && (s.receiver.pc.RAwaitStart? ==> s.receiver.have == 0)
  }

  lemma NothingRead(cfg: Config, s: System)
    requires cfg.Valid() && (cfg.chunk < 8 || cfg.Total() < cfg.ckpt)
    requires NothingCredited(cfg, s) && Enabled(cfg, s, ReceiverReads)
    ensures NothingCredited(cfg, Apply(cfg, s, ReceiverReads))
  {
    var r, d, i, offset := s.receiver, s.disk, s.fwd.next, s.sender.offset;
    var raw := s.fwd.log[i];
    ReceiverFollows(cfg, s);
    ReadIsAbsorbed(cfg, s);
    assert OnScript(cfg, offset, i, raw);
    if r.pc.RLoop? { NothingWritten(cfg, r, d, offset, i, raw); } else { NothingOpened(cfg, r, d, raw); }
    NothingAbsorbed(cfg, s, OnNext(cfg, r, d, raw));
  }

  /** The read leaves nothing to be credited, and if it starts a session it is at 0. */
  ghost predicate NothingGained(cfg: Config, r: Receiver, o: Outcome) {
    && o.disk.high < cfg.ckpt && (o.r.pc.RAwaitStart? ==> o.r.have == 0)
    && (r.pc.RAwaitStart? && o.r.pc.RLoop? ==> o.r.offset == 0)
  }

  lemma NothingOpened(cfg: Config, r: Receiver, d: Disk, raw: bytes)
    requires cfg.Valid() && d.Valid() && d.high < cfg.ckpt && (r.pc.RAwaitOffer? || r.pc.RAwaitStart?)
    requires r.pc.RAwaitStart? ==> r.have == 0
    ensures NothingGained(cfg, r, OnNext(cfg, r, d, raw))
  {
    FloorToUnique(|d.cur|, 0, cfg.ckpt);
  }

  lemma NothingAbsorbed(cfg: Config, s: System, o: Outcome)
    requires cfg.Valid() && NothingCredited(cfg, s) && SessionInv(cfg, Absorb(s, o)) && NothingGained(cfg, s.receiver, o)
    ensures NothingCredited(cfg, Absorb(s, o))
  {
    AbsorbShape(s, o);
  }

  lemma NothingWritten(cfg: Config, r: Receiver, d: Disk, offset: nat, i: nat, raw: bytes)
    requires cfg.Valid() && (cfg.chunk < 8 || cfg.Total() < cfg.ckpt) && d.high < cfg.ckpt && d.Valid() && ReceiverInv(cfg, r, d)
    requires r.pc.RLoop? && OnScript(cfg, offset, i, raw) && Reading(cfg, r, offset, i)
    ensures NothingGained(cfg, r, OnFrame(cfg, r, d, raw))
  {
    PosStep(cfg, offset, i - 2);
    if i - 2 < RealFrames(cfg, offset) {
      ParseFrame(DATA, cfg.source[Pos(cfg, offset, i - 2)..Pos(cfg, offset, i - 1)], cfg.FrameLen());
    }
  }

  lemma {:induction false} NothingEver(cfg: Config, s: System, es: seq<Event>)
    requires cfg.Valid() && (cfg.chunk < 8 || cfg.Total() < cfg.ckpt) && NothingCredited(cfg, s)
    ensures NothingCredited(cfg, Run(cfg, s, es))
    decreases |es|
  {
    if es != [] {
      if !Enabled(cfg, s, es[0]) { assert Apply(cfg, s, es[0]) == s; }
      else if es[0].ReceiverReads? { NothingRead(cfg, s); }
      else { NothingElse(cfg, s, es[0]); }
      NothingEver(cfg, Apply(cfg, s, es[0]), es[1..]);
    }
  }

  lemma NothingElse(cfg: Config, s: System, e: Event)
    requires cfg.Valid() && NothingCredited(cfg, s) && Enabled(cfg, s, e) && !e.ReceiverReads?
    ensures NothingCredited(cfg, Apply(cfg, s, e))
  {
    StepFollows(cfg, s, e);
    Elsewhere(cfg, s, e);
  }

  /** Only a read lengthens the file or starts a session. */
  lemma Elsewhere(cfg: Config, s: System, e: Event)
    requires cfg.Valid() && s.disk.Valid() && Enabled(cfg, s, e) && !e.ReceiverReads?
    ensures var t := Apply(cfg, s, e);
      t.starts == s.starts && t.disk.high <= s.disk.high && (t.receiver.pc.RAwaitStart? ==> t.receiver == s.receiver)
  {
  }

  /** A payload of at least a checkpoint, stopped at the first write that makes an fsync due, and cut. */
  lemma FirstWindowFalls(cfg: Config) returns (es: seq<Event>)
    requires cfg.Valid() && cfg.Accepts(cfg.Total()) && cfg.chunk >= 8 && cfg.Total() >= cfg.ckpt
    ensures !NonDecreasing(Run(cfg, FreshSystem, es).starts)
  {
    var n := FirstDue(cfg);
    var written := Pos(cfg, 0, n + 1);
    var head := Steady(cfg, n);
    var s := Run(cfg, FreshSystem, head);
    FrameWritten(cfg, s, 0, 0, n);
    var pair := TwoOrThree(cfg, s, SendData, ReceiverReads, false);
    var rest := KilledThenCut(cfg, Run(cfg, s, pair), written, 0);
    TwoRuns(cfg, s, pair, rest);
    TwoRuns(cfg, FreshSystem, head, pair + rest);
    es := head + (pair + rest);
  }

  /** The first frame that makes an fsync due. */
  lemma FirstDue(cfg: Config) returns (n: nat)
    requires cfg.Valid() && cfg.Total() >= cfg.ckpt
    ensures n < RealFrames(cfg, 0) && Synced(cfg, n) == 0 && Pos(cfg, 0, n) <= Pos(cfg, 0, n + 1)
    ensures 0 < Credit(cfg, Pos(cfg, 0, n + 1))
  {
    var m := DivCeil(cfg.ckpt, cfg.chunk);
    n := m - 1;
    assert Synced(cfg, 0) == 0 == 0 * cfg.chunk;
    NoSyncBefore(cfg, m, 0, n);
    PosStep(cfg, 0, n);
    MultipleMod(1, cfg.ckpt);
    CreditOfMultiple(cfg, cfg.ckpt);
    CreditMonotone(cfg, cfg.ckpt, Pos(cfg, 0, m));
  }

  /** From no partial, over every run whatever, stopped and cut anywhere: resume offsets never decrease if
      and only if chunks carry no data, or the payload is shorter than a checkpoint, or the offer is over
      the receiver's limit. */
  lemma OffsetsExactlyInAnyRun(cfg: Config)
    requires cfg.Valid()
    ensures (forall es: seq<Event> :: NonDecreasing(Run(cfg, FreshSystem, es).starts)) <==>
      cfg.chunk < 8 || cfg.Total() < cfg.ckpt || !cfg.Accepts(cfg.Total())
  {
    if !cfg.Accepts(cfg.Total()) {
      forall es: seq<Event> ensures NonDecreasing(Run(cfg, FreshSystem, es).starts) { NeverStarts(cfg, FreshSystem, es); }
    } else if cfg.chunk < 8 || cfg.Total() < cfg.ckpt {
      forall es: seq<Event> ensures NonDecreasing(Run(cfg, FreshSystem, es).starts) { NothingEver(cfg, FreshSystem, es); }
    } else {
      var es := FirstWindowFalls(cfg);
    }
  }
}
