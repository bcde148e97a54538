/** A session that nothing interrupts, from any contents of the partial: it ends, with the same
    summary on both sides, and its shape on the wire depends on the planned frame count alone. */
module TransferClean {
  import opened Bytes
  import opened Wire
  import opened Transfer
  import opened TransferSafety
  import opened TransferSession
  import opened TransferExact
  import Pacing

  /** What each end reports. */
  datatype Summary = Summary(total: nat, resumedFrom: nat, hash: Digest, coverFrames: nat)

  function SenderSummary(cfg: Config, sn: Sender): Summary {
    Summary(cfg.Total(), sn.offset, sn.digest, sn.covers)
  }

  function ReceiverSummary(r: Receiver): Summary
    requires r.done.Some?
  {
    Summary(r.total, r.offset, r.done.value, r.covers)
  }

  /** The events of a session without cut, cancel or crash whose plan is `planned`. */
  predicate Clean(planned: nat, e: Event) {
    || e.SendOffer? || e == SendStart(planned) || e.SendData? || e.SendDone? || e.SendCover?
    || e == SendFinish(false) || e.ReadAck? || e.ReceiverReads? || e.ReceiverSyncs?
  }

  /** 32 bytes hold every content the sender must fit into a uniform frame. */
  ghost predicate Roomy(cfg: Config, start: nat, planned: nat) {
    && cfg.Valid() && cfg.chunk >= 32 && cfg.Accepts(cfg.Total()) && NoPrefixCollision(cfg)
    && start <= cfg.Total() && planned >= RealFrames(cfg, start)
  }

  predicate Past(sn: Sender) { sn.pc.SAwaitAck? || sn.pc.SOk? }

  /** Everything after DONE is cover, and then FINISH. */
  ghost predicate Tail(cfg: Config, s: System)
    requires cfg.chunk > 0 && s.sender.offset <= cfg.Total()
  {
    forall i :: 3 + RealFrames(cfg, s.sender.offset) <= i < |s.fwd.log| ==>
      s.fwd.log[i] == Frame(if Past(s.sender) && i == |s.fwd.log| - 1 then FINISH else COVER, [], cfg.FrameLen())
  }

  /** What the receiver has sent back, and how much of it the sender has read. */
  ghost predicate Replies(cfg: Config, s: System) {
    var r, b := s.receiver, s.back;
    && (r.pc.RAwaitOffer? ==> b.log == [] && (s.sender.pc.SIdle? || s.sender.pc.SAwaitResume?))
    && (r.pc.RAwaitStart? ==> |b.log| == 1 && r.fed == s.disk.cur)
    && (r.pc.RLoop? || r.pc.RSyncDue? ==> |b.log| == 1)
    && (r.pc.ROk? ==> |b.log| == 2 && b.log[1] == Frame(ACK, [], cfg.FrameLen()) && Past(s.sender))
    && (s.sender.pc.SIdle? ==> r.pc.RAwaitOffer? && b.next == 0)
    && (s.sender.pc.SAwaitResume? ==>
          && b.next == 0 && (r.pc.RAwaitOffer? || r.pc.RAwaitStart?)
          && (r.pc.RAwaitStart? ==> b.log[0] == Frame(RESUME, ResumeBody(r.have, cfg.hash(r.fed)), r.frameLen)))
    && (s.sender.pc.SSending? || s.sender.pc.SCovering? || s.sender.pc.SAwaitAck? ==> b.next == 1)
    && (s.sender.pc.SOk? ==> r.pc.ROk? && b.next == 2)
    && (|b.log| >= 1 ==> |b.log[0]| == FrameSize(40, cfg.FrameLen()))
  }

  /** The prefix the receiver kept is the source's. */
  ghost predicate GoodPrefix(cfg: Config, s: System) {
    var r := s.receiver;
    && (r.pc.RAwaitStart? && |s.fwd.log| >= 2 ==>
          s.sender.offset <= cfg.Total() && s.sender.offset <= r.have == |r.fed| && r.fed[..s.sender.offset] == cfg.source[..s.sender.offset])
    && (r.pc.RLoop? || r.pc.RSyncDue? ==> r.received <= cfg.Total() && r.fed == cfg.source[..r.received])
  }

  /** The session starts, or is about to start, at `start`. */
  ghost predicate StartsAt(cfg: Config, start: nat, s: System)
    requires cfg.ckpt > 0
  {
    && (s.receiver.pc.RAwaitOffer? ==> StartOffset(cfg, s.disk) == start)
    && (s.receiver.pc.RAwaitStart? ==> ChooseOffset(cfg, s.receiver.have, cfg.hash(s.receiver.fed)) == start)
    && (!s.sender.pc.SIdle? && !s.sender.pc.SAwaitResume? ==> s.sender.offset == start)
  }

  ghost predicate CleanInv(cfg: Config, start: nat, planned: nat, s: System)
    requires cfg.chunk > 0 && cfg.ckpt > 0
  {
    && SessionInv(cfg, s) && s.fwd.up && s.back.up && StartsAt(cfg, start, s)
    && !s.sender.pc.SFailed? && !s.receiver.pc.RFailed?
    && (s.sender.pc.SIdle? || s.sender.pc.SAwaitResume? || s.sender.planned == planned)
    && (Past(s.sender) ==> s.sender.emitted == planned && (s.receiver.pc.ROk? || s.fwd.next < |s.fwd.log|))
    && (s.receiver.pc.ROk? ==> s.fwd.next == |s.fwd.log|)
    && Tail(cfg, s) && Replies(cfg, s) && GoodPrefix(cfg, s)
  }

  // ---- the sender's steps -----------------------------------------------

  lemma StartIsClean(cfg: Config, start: nat, planned: nat, s: System)
    requires Roomy(cfg, start, planned) && CleanInv(cfg, start, planned, s) && Enabled(cfg, s, SendStart(planned))
    ensures CleanInv(cfg, start, planned, Apply(cfg, s, SendStart(planned)))
  {
    StepFollows(cfg, s, SendStart(planned));
    var r := s.receiver;
    ResumeFrame(r.have, cfg.hash(r.fed), r.frameLen);
    var offset := ChooseOffset(cfg, r.have, cfg.hash(r.fed));
    if offset != 0 { assert r.fed == cfg.source[..offset]; }
  }

  lemma SendIsClean(cfg: Config, start: nat, planned: nat, s: System, e: Event)
    requires Roomy(cfg, start, planned) && CleanInv(cfg, start, planned, s) && Enabled(cfg, s, e)
    requires e.SendOffer? || e.SendData? || e.SendDone? || e.SendCover? || e == SendFinish(false)
    ensures CleanInv(cfg, start, planned, Apply(cfg, s, e))
  {
    StepFollows(cfg, s, e);
    PosStep(cfg, s.sender.offset, s.sender.emitted);
  }

  lemma AckIsClean(cfg: Config, start: nat, planned: nat, s: System)
    requires Roomy(cfg, start, planned) && CleanInv(cfg, start, planned, s) && Enabled(cfg, s, ReadAck)
    ensures CleanInv(cfg, start, planned, Apply(cfg, s, ReadAck))
  {
    StepFollows(cfg, s, ReadAck);
    ParseFrame(ACK, [], cfg.FrameLen());
  }

  // ---- the receiver's steps ---------------------------------------------

  lemma OfferIsAccepted(cfg: Config, start: nat, planned: nat, s: System)
    requires Roomy(cfg, start, planned) && CleanInv(cfg, start, planned, s) && s.receiver.pc.RAwaitOffer? && s.fwd.Ready()
    ensures CleanInv(cfg, start, planned, Apply(cfg, s, ReceiverReads))
  {
    StepFollows(cfg, s, ReceiverReads);
    var raw := s.fwd.log[0];
    WordFrame(OFFER, cfg.Total(), cfg.FrameLen());
    ParseFrame(OFFER, U64Be(cfg.Total()), cfg.FrameLen());
    var o := OnOffer(cfg, s.receiver, s.disk, raw);
    assert o.r.pc.RAwaitStart?;
    ParseFrame(RESUME, ResumeBody(o.r.have, cfg.hash(o.r.fed)), |raw|);
  }

  lemma StartIsAccepted(cfg: Config, start: nat, planned: nat, s: System)
    requires Roomy(cfg, start, planned) && CleanInv(cfg, start, planned, s) && s.receiver.pc.RAwaitStart? && s.fwd.Ready()
    ensures CleanInv(cfg, start, planned, Apply(cfg, s, ReceiverReads))
  {
    StartFacts(cfg, start, planned, s);
    ReceiverFollows(cfg, s);
    ReadIsAbsorbed(cfg, s);
    var o := OnStart(s.receiver, s.disk, s.fwd.log[1]);
    WordFrame(START, start, cfg.FrameLen());
    StartOutcome(cfg, start, s.receiver, s.disk, o);
    StartAbsorbed(cfg, start, planned, s, o);
  }

  lemma StartFacts(cfg: Config, start: nat, planned: nat, s: System)
    requires cfg.Valid() && CleanInv(cfg, start, planned, s) && s.receiver.pc.RAwaitStart? && s.fwd.Ready()
    ensures s.fwd.next == 1 && s.fwd.log[1] == Frame(START, U64Be(start), cfg.FrameLen())
    ensures var r := s.receiver;
      && start <= r.have == |s.disk.cur| && r.fed == s.disk.cur && start <= cfg.Total()
      && r.fed[..start] == cfg.source[..start]
  {
    assert OnScript(cfg, s.sender.offset, 1, s.fwd.log[1]);
  }

  lemma StartOutcome(cfg: Config, start: nat, r: Receiver, d: Disk, o: Outcome)
    requires o == OnStart(r, d, Frame(START, U64Be(start), cfg.FrameLen())) && DecodeStart(Frame(START, U64Be(start), cfg.FrameLen())) == Some(start)
    requires start <= r.have == |d.cur| && r.fed == d.cur && start <= cfg.Total() && r.fed[..start] == cfg.source[..start]
    ensures o.r.pc.RLoop? && o.reply.None? && o.r.received == start && o.r.fed == cfg.source[..start]
  {
  }

  lemma StartAbsorbed(cfg: Config, start: nat, planned: nat, s: System, o: Outcome)
    requires cfg.Valid() && CleanInv(cfg, start, planned, s) && s.receiver.pc.RAwaitStart? && s.fwd.Ready()
    requires SessionInv(cfg, Absorb(s, o)) && o.r.pc.RLoop? && o.reply.None?
    requires o.r.received == start <= cfg.Total() && o.r.fed == cfg.source[..start]
    ensures CleanInv(cfg, start, planned, Absorb(s, o))
  {
    AbsorbShape(s, o);
    var t := Absorb(s, o);
    assert t.receiver == o.r && t.back == s.back && t.fwd.log == s.fwd.log;
  }

  /** What the receive loop makes of the next frame of a clean session. */
  lemma LoopAccepts(cfg: Config, s: System)
    requires cfg.Valid() && cfg.chunk >= 32 && SessionInv(cfg, s) && Tail(cfg, s) && GoodPrefix(cfg, s)
    requires s.receiver.pc.RLoop? && s.fwd.Ready()
    ensures var i := s.fwd.next;
      Accepted(cfg, OnFrame(cfg, s.receiver, s.disk, s.fwd.log[i]), Past(s.sender) && i == |s.fwd.log| - 1 && s.receiver.done.Some?)
  {
    if s.receiver.done.None? { LoopAcceptsPayload(cfg, s); } else { LoopAcceptsTail(cfg, s); }
  }

  /** The frame was taken, and it was the last one or it was not. */
  ghost predicate Accepted(cfg: Config, o: Outcome, last: bool) {
    if last then o.r.pc.ROk? && o.reply == Some(Frame(ACK, [], cfg.FrameLen()))
    else (o.r.pc.RLoop? || o.r.pc.RSyncDue?) && o.reply.None?
  }

  lemma LoopAcceptsPayload(cfg: Config, s: System)
    requires cfg.Valid() && cfg.chunk >= 32 && SessionInv(cfg, s) && GoodPrefix(cfg, s)
    requires s.receiver.pc.RLoop? && s.receiver.done.None? && s.fwd.Ready()
    ensures Accepted(cfg, OnFrame(cfg, s.receiver, s.disk, s.fwd.log[s.fwd.next]), false)
  {
    var r, i, offset := s.receiver, s.fwd.next, s.sender.offset;
    assert OnScript(cfg, offset, i, s.fwd.log[i]);
    PosStep(cfg, offset, i - 2);
    if i - 2 < RealFrames(cfg, offset) {
      DataAccepted(cfg, r, s.disk, cfg.source[Pos(cfg, offset, i - 2)..Pos(cfg, offset, i - 1)]);
    } else {
      DoneAccepted(cfg, r, s.disk);
    }
  }

  lemma LoopAcceptsTail(cfg: Config, s: System)
    requires cfg.Valid() && cfg.chunk >= 32 && SessionInv(cfg, s) && Tail(cfg, s)
    requires s.receiver.pc.RLoop? && s.receiver.done.Some? && s.fwd.Ready()
    ensures var i := s.fwd.next;
      Accepted(cfg, OnFrame(cfg, s.receiver, s.disk, s.fwd.log[i]), Past(s.sender) && i == |s.fwd.log| - 1)
  {
    TailAccepted(cfg, s.receiver, s.disk);
  }

  lemma DataAccepted(cfg: Config, r: Receiver, d: Disk, piece: bytes)
    requires cfg.Valid() && |piece| <= cfg.chunk && r.frameLen == cfg.FrameLen() && r.done.None?
    requires r.pc.RLoop? && r.received + |piece| <= r.total
    ensures var o := OnFrame(cfg, r, d, Frame(DATA, piece, cfg.FrameLen()));
      (o.r.pc.RLoop? || o.r.pc.RSyncDue?) && o.reply.None?
  {
    ParseFrame(DATA, piece, cfg.FrameLen());
  }

  lemma DoneAccepted(cfg: Config, r: Receiver, d: Disk)
    requires cfg.Valid() && cfg.chunk >= 32 && r.frameLen == cfg.FrameLen() && r.done.None?
    requires r.pc.RLoop? && r.received == r.total == cfg.Total() && r.fed == cfg.source[..r.received]
    ensures var o := OnFrame(cfg, r, d, Frame(DONE, cfg.hash(cfg.source), cfg.FrameLen())); o.r.pc.RLoop? && o.reply.None?
  {
    ParseFrame(DONE, cfg.hash(cfg.source), cfg.FrameLen());
    assert cfg.source[..cfg.Total()] == cfg.source;
  }

  lemma TailAccepted(cfg: Config, r: Receiver, d: Disk)
    requires cfg.Valid() && r.frameLen == cfg.FrameLen() && r.pc.RLoop? && r.done.Some?
    ensures var o := OnFrame(cfg, r, d, Frame(COVER, [], cfg.FrameLen())); o.r.pc.RLoop? && o.reply.None?
    ensures var o := OnFrame(cfg, r, d, Frame(FINISH, [], cfg.FrameLen()));
      o.r.pc.ROk? && o.reply == Some(Frame(ACK, [], cfg.FrameLen()))
  {
    ParseFrame(COVER, [], cfg.FrameLen());
    ParseFrame(FINISH, [], cfg.FrameLen());
  }

  lemma AbsorbIsClean(cfg: Config, start: nat, planned: nat, s: System, o: Outcome)
    requires cfg.Valid() && cfg.chunk >= 32 && CleanInv(cfg, start, planned, s) && s.receiver.pc.RLoop? && s.fwd.Ready()
    requires SessionInv(cfg, Absorb(s, o))
    requires Accepted(cfg, o, Past(s.sender) && s.fwd.next == |s.fwd.log| - 1 && s.receiver.done.Some?)
    requires o.r.fed[..o.r.offset] == s.receiver.fed[..s.receiver.offset] && o.r.offset == s.receiver.offset <= |o.r.fed|
    ensures CleanInv(cfg, start, planned, Absorb(s, o))
  {
    var t := Absorb(s, o);
    assert cfg.source[..s.receiver.received][..s.receiver.offset] == cfg.source[..s.receiver.offset];
    if Past(s.sender) && s.receiver.done.None? {
      assert s.fwd.next < |s.fwd.log| - 1;
    }
  }

  lemma LoopIsClean(cfg: Config, start: nat, planned: nat, s: System)
    requires Roomy(cfg, start, planned) && CleanInv(cfg, start, planned, s) && s.receiver.pc.RLoop? && s.fwd.Ready()
    ensures CleanInv(cfg, start, planned, Apply(cfg, s, ReceiverReads))
  {
    ReceiverFollows(cfg, s);
    ReadIsAbsorbed(cfg, s);
    LoopAccepts(cfg, s);
    var raw := s.fwd.log[s.fwd.next];
    FedGrows(cfg, s.receiver, s.disk, raw);
    AbsorbIsClean(cfg, start, planned, s, OnFrame(cfg, s.receiver, s.disk, raw));
  }

  lemma FedGrows(cfg: Config, r: Receiver, d: Disk, raw: bytes)
    requires r.offset <= |r.fed|
    ensures var o := OnFrame(cfg, r, d, raw);
      o.r.offset == r.offset <= |o.r.fed| && o.r.fed[..r.offset] == r.fed[..r.offset]
  {
  }

  lemma StepIsClean(cfg: Config, start: nat, planned: nat, s: System, e: Event)
    requires Roomy(cfg, start, planned) && CleanInv(cfg, start, planned, s) && Clean(planned, e) && Enabled(cfg, s, e)
    ensures CleanInv(cfg, start, planned, Apply(cfg, s, e))
  {
    match e
    case SendStart(_) => StartIsClean(cfg, start, planned, s);
    case ReadAck => AckIsClean(cfg, start, planned, s);
    case ReceiverReads =>
      if s.receiver.pc.RAwaitOffer? { OfferIsAccepted(cfg, start, planned, s); }
      else if s.receiver.pc.RAwaitStart? { StartIsAccepted(cfg, start, planned, s); }
      else { LoopIsClean(cfg, start, planned, s); }
    case ReceiverSyncs => StepFollows(cfg, s, e);
    case _ => SendIsClean(cfg, start, planned, s, e);
  }

  // ---- termination, and what the session comes to -----------------------

  function ToSend(planned: nat, sn: Sender): int {
    match sn.pc
    case SIdle => planned + 4
    case SAwaitResume => planned + 3
    case SSending => planned - sn.emitted + 2
    case SCovering => planned - sn.emitted + 1
    case _ => 0
  }

  /** Steps left: each frame is sent, read and perhaps synced, and the ACK is read. */
  function StepsLeft(planned: nat, s: System): int {
    3 * ToSend(planned, s.sender) + 2 * (|s.fwd.log| - s.fwd.next)
    + (if s.receiver.pc.RSyncDue? then 1 else 0) + (if s.sender.pc.SOk? then 0 else 1)
  }

  lemma SendGoesDown(cfg: Config, start: nat, planned: nat, s: System, e: Event)
    requires Roomy(cfg, start, planned) && CleanInv(cfg, start, planned, s) && Clean(planned, e) && Enabled(cfg, s, e)
    requires !e.ReceiverReads? && !e.ReceiverSyncs?
    ensures StepsLeft(planned, Apply(cfg, s, e)) < StepsLeft(planned, s)
  {
    if e.SendStart? { StartIsClean(cfg, start, planned, s); }
    if e.ReadAck? { AckIsClean(cfg, start, planned, s); }
    if e.SendDone? { PosStep(cfg, s.sender.offset, s.sender.emitted); }
  }

  lemma StepsGoDown(cfg: Config, start: nat, planned: nat, s: System, e: Event)
    requires Roomy(cfg, start, planned) && CleanInv(cfg, start, planned, s) && Clean(planned, e) && Enabled(cfg, s, e)
    ensures StepsLeft(planned, Apply(cfg, s, e)) < StepsLeft(planned, s)
  {
    match e
    case ReceiverReads => AbsorbShape(s, OnNext(cfg, s.receiver, s.disk, s.fwd.log[s.fwd.next]));
    case ReceiverSyncs =>
    case _ => SendGoesDown(cfg, start, planned, s, e);
  }

  lemma StepsAreLeft(cfg: Config, start: nat, planned: nat, s: System)
    requires cfg.Valid() && CleanInv(cfg, start, planned, s)
    ensures StepsLeft(planned, s) >= 0
  {
  }

  predicate Finished(s: System) { s.sender.pc.SOk? && s.receiver.pc.ROk? }

  /** No state of a clean session is stuck short of both ends having finished. */
  lemma NeverStuck(cfg: Config, start: nat, planned: nat, s: System) returns (e: Event)
    requires Roomy(cfg, start, planned) && CleanInv(cfg, start, planned, s) && !Finished(s)
    ensures Clean(planned, e) && Enabled(cfg, s, e)
  {
    match s.sender.pc
    case SIdle => e := SendOffer;
    case SAwaitResume =>
      if s.receiver.pc.RAwaitStart? {
        ResumeFrame(s.receiver.have, cfg.hash(s.receiver.fed), s.receiver.frameLen);
        e := SendStart(planned);
      } else {
        e := ReceiverReads;
      }
    case SSending => e := if s.sender.sent < cfg.Total() then SendData else SendDone;
    case SCovering => e := if s.sender.emitted < planned then SendCover else SendFinish(false);
    case _ =>
      if s.receiver.pc.ROk? { e := ReadAck; }
      else if s.receiver.pc.RSyncDue? { e := ReceiverSyncs; }
      else { e := ReceiverReads; }
  }

  ghost predicate CleanRun(cfg: Config, planned: nat, s: System, es: seq<Event>)
    requires cfg.chunk > 0 && cfg.ckpt > 0
    decreases |es|
  {
    es == [] ||
    (Clean(planned, es[0]) && Enabled(cfg, s, es[0]) && CleanRun(cfg, planned, Apply(cfg, s, es[0]), es[1..]))
  }

  lemma {:induction false} CleanRunKeeps(cfg: Config, start: nat, planned: nat, s: System, es: seq<Event>)
    requires Roomy(cfg, start, planned) && CleanInv(cfg, start, planned, s) && CleanRun(cfg, planned, s, es)
    ensures CleanInv(cfg, start, planned, Run(cfg, s, es))
    ensures 0 <= StepsLeft(planned, Run(cfg, s, es)) <= StepsLeft(planned, s) - |es|
    decreases |es|
  {
    if es != [] {
      StepIsClean(cfg, start, planned, s, es[0]);
      StepsGoDown(cfg, start, planned, s, es[0]);
      CleanRunKeeps(cfg, start, planned, Apply(cfg, s, es[0]), es[1..]);
    } else {
      StepsAreLeft(cfg, start, planned, s);
    }
  }

  lemma FreshIsClean(cfg: Config, planned: nat, s: System)
    requires cfg.Valid() && FreshSession(s)
    ensures CleanInv(cfg, StartOffset(cfg, s.disk), planned, s) && StepsLeft(planned, s) == 3 * planned + 13
  {
  }

  lemma FinishedAgree(cfg: Config, start: nat, planned: nat, t: System)
    requires cfg.Valid() && CleanInv(cfg, start, planned, t) && Finished(t)
    ensures t.receiver.done.Some? && SenderSummary(cfg, t.sender) == ReceiverSummary(t.receiver)
    ensures t.sender.digest == cfg.hash(cfg.source) && |t.fwd.log| == planned + 4 && t.sender.offset == start
  {
  }

  /** Every frame the sender sends has the same size, and from 40 bytes a chunk every frame. */
  ghost predicate Uniform(cfg: Config, t: System) {
    && (forall i :: 0 <= i < |t.fwd.log| ==> |t.fwd.log[i]| == cfg.FrameLen())
    && (cfg.chunk >= 40 ==> forall i :: 0 <= i < |t.back.log| ==> |t.back.log[i]| == cfg.FrameLen())
  }

  lemma UniformSizes(cfg: Config, start: nat, planned: nat, t: System)
    requires cfg.Valid() && cfg.chunk >= 32 && CleanInv(cfg, start, planned, t)
    ensures Uniform(cfg, t)
  {
    forall i | 0 <= i < |t.fwd.log| ensures |t.fwd.log[i]| == cfg.FrameLen() {
      ScriptSize(cfg, t.sender.offset, i, t.fwd.log[i]);
    }
    ParseFrame(ACK, [], cfg.FrameLen());
  }

  /** From any disk, and for any plan that covers the frames left from where the session starts: an
      uninterrupted session, in whatever order its steps interleave, has at most 3 * planned + 13 steps
      and can always go on until both ends have finished.  Both then report the same summary, with the
      offset the disk called for, and the sender has put exactly planned + 4 frames on the wire, each
      of the same size. */
  lemma CleanSession(cfg: Config, planned: nat, s: System, es: seq<Event>)
    requires cfg.ckpt > 0 && Roomy(cfg, StartOffset(cfg, s.disk), planned)
    requires FreshSession(s) && CleanRun(cfg, planned, s, es)
    ensures |es| <= 3 * planned + 13
    ensures var t := Run(cfg, s, es);
      && (Finished(t) || exists e :: Clean(planned, e) && Enabled(cfg, t, e))
      && (Finished(t) ==>
            && t.receiver.done.Some? && SenderSummary(cfg, t.sender) == ReceiverSummary(t.receiver)
            && t.sender.digest == cfg.hash(cfg.source) && t.sender.offset == StartOffset(cfg, s.disk)
            && |t.fwd.log| == planned + 4)
      && Uniform(cfg, t)
  {
    var start := StartOffset(cfg, s.disk);
    FreshIsClean(cfg, planned, s);
    CleanRunKeeps(cfg, start, planned, s, es);
    var t := Run(cfg, s, es);
    if Finished(t) {
      FinishedAgree(cfg, start, planned, t);
    } else {
      var e := NeverStuck(cfg, start, planned, t);
    }
    UniformSizes(cfg, start, planned, t);
  }

  /** The plan the sender draws, from the frames left and one jitter draw. */
  function DrawnPlan(pacing: Pacing.Config, jitter: nat, cfg: Config, d: Disk): nat
    requires cfg.chunk > 0 && cfg.ckpt > 0 && jitter <= pacing.jitterFrames
  {
    Pacing.Plan(pacing, RealFrames(cfg, StartOffset(cfg, d)), jitter)
  }

  lemma FramesFit(cfg: Config, offset: nat)
    requires cfg.Valid() && offset <= cfg.Total()
    ensures RealFrames(cfg, offset) <= Pacing.U64_MAX
  {
    var q := RealFrames(cfg, offset);
    if q > 0 { Product(q - 1, q - 1, 1, cfg.chunk); }
  }

  /** Whatever the pacing and the draw, the plan covers the session; so every session that nothing
      interrupts, resumed or not, completes with the shape its plan gives it. */
  lemma PacedSession(pacing: Pacing.Config, jitter: nat, cfg: Config, s: System, es: seq<Event>)
    requires cfg.Valid() && cfg.chunk >= 32 && cfg.Accepts(cfg.Total()) && NoPrefixCollision(cfg)
    requires jitter <= pacing.jitterFrames && FreshSession(s) && CleanRun(cfg, DrawnPlan(pacing, jitter, cfg, s.disk), s, es)
    ensures var t, planned := Run(cfg, s, es), DrawnPlan(pacing, jitter, cfg, s.disk);
      && |es| <= 3 * planned + 13 && Uniform(cfg, t)
      && (Finished(t) || exists e :: Clean(planned, e) && Enabled(cfg, t, e))
      && (Finished(t) ==> SenderSummary(cfg, t.sender).coverFrames == planned - RealFrames(cfg, StartOffset(cfg, s.disk)))
      && (Finished(t) ==> t.receiver.done.Some? && SenderSummary(cfg, t.sender) == ReceiverSummary(t.receiver))
      && (Finished(t) ==> |t.fwd.log| == planned + 4)
  {
    var start, planned := StartOffset(cfg, s.disk), DrawnPlan(pacing, jitter, cfg, s.disk);
    FramesFit(cfg, start);
    Pacing.PlanCovers(pacing, RealFrames(cfg, start), jitter);
    CleanSession(cfg, planned, s, es);
    FreshIsClean(cfg, planned, s);
    CleanRunKeeps(cfg, start, planned, s, es);
  }

  /** Payloads with the same plan look the same on the wire: as many frames, of the same sizes. */
  lemma SamePlanSameShape(cfg: Config, s: System, es: seq<Event>, cfg': Config, s': System, es': seq<Event>, planned: nat)
    requires cfg.chunk == cfg'.chunk && cfg.ckpt > 0 && cfg'.ckpt > 0
    requires Roomy(cfg, StartOffset(cfg, s.disk), planned) && FreshSession(s) && CleanRun(cfg, planned, s, es)
    requires Roomy(cfg', StartOffset(cfg', s'.disk), planned) && FreshSession(s') && CleanRun(cfg', planned, s', es')
    requires Finished(Run(cfg, s, es)) && Finished(Run(cfg', s', es'))
    ensures var a, b := Run(cfg, s, es).fwd.log, Run(cfg', s', es').fwd.log;
      |a| == |b| && forall i :: 0 <= i < |a| ==> |a[i]| == |b[i]|
  {
    CleanSession(cfg, planned, s, es);
    CleanSession(cfg', planned, s', es');
  }

  lemma ScriptSize(cfg: Config, offset: nat, i: nat, f: bytes)
    requires cfg.Valid() && cfg.chunk >= 32 && OnScript(cfg, offset, i, f)
    ensures |f| == cfg.FrameLen()
  {
    if 2 <= i { PosStep(cfg, offset, i - 2); }
  }

  /** A clean session leaves the source in place exactly once, whatever the partial held. */
  lemma CleanSessionDelivers(cfg: Config, planned: nat, s: System, es: seq<Event>)
    requires cfg.ckpt > 0 && Roomy(cfg, StartOffset(cfg, s.disk), planned)
    requires Initial(s) && CleanRun(cfg, planned, s, es) && Finished(Run(cfg, s, es))
    ensures Run(cfg, s, es).disk.placed == [cfg.source]
  {
    assert cfg.source[..cfg.Total()] == cfg.source;
    RunKeeps(cfg, s, es);
    FreshIsClean(cfg, planned, s);
    CleanRunKeeps(cfg, StartOffset(cfg, s.disk), planned, s, es);
    BaseKept(cfg, planned, s, es);
  }

  lemma {:induction false} BaseKept(cfg: Config, planned: nat, s: System, es: seq<Event>)
    requires cfg.chunk > 0 && cfg.ckpt > 0 && CleanRun(cfg, planned, s, es)
    ensures Run(cfg, s, es).base == s.base
    decreases |es|
  {
    if es != [] { BaseKept(cfg, planned, Apply(cfg, s, es[0]), es[1..]); }
  }

  lemma DoneRefused(cfg: Config, s: System)
    requires cfg.Valid() && cfg.chunk < 32 && SessionInv(cfg, s) && s.receiver.done.None? && Enabled(cfg, s, ReceiverReads)
    ensures var o := OnNext(cfg, s.receiver, s.disk, s.fwd.log[s.fwd.next]);
      o.r.done.None? && o.disk.placed == s.disk.placed
  {
    if s.receiver.pc.RLoop? {
      var i, offset := s.fwd.next, s.sender.offset;
      assert OnScript(cfg, offset, i, s.fwd.log[i]);
      PosStep(cfg, offset, i - 2);
      assert i - 2 <= RealFrames(cfg, offset);
      if i - 2 < RealFrames(cfg, offset) {
        DataPlacesNothing(cfg, s.receiver, s.disk, cfg.source[Pos(cfg, offset, i - 2)..Pos(cfg, offset, i - 1)]);
      } else {
        LongDoneRefused(cfg, s.receiver, s.disk);
      }
    }
  }

  lemma DataPlacesNothing(cfg: Config, r: Receiver, d: Disk, piece: bytes)
    requires cfg.Valid() && |piece| <= cfg.chunk && r.done.None?
    ensures var o := OnFrame(cfg, r, d, Frame(DATA, piece, cfg.FrameLen())); o.r.done.None? && o.disk.placed == d.placed
  {
    ParseFrame(DATA, piece, cfg.FrameLen());
  }

  lemma LongDoneRefused(cfg: Config, r: Receiver, d: Disk)
    requires cfg.Valid() && cfg.chunk < 32 && r.frameLen == FrameSize(8, cfg.FrameLen()) && r.done.None?
    ensures var o := OnFrame(cfg, r, d, Frame(DONE, cfg.hash(cfg.source), cfg.FrameLen()));
      o.r.done.None? && o.disk.placed == d.placed
  {
    ParseFrame(DONE, cfg.hash(cfg.source), cfg.FrameLen());
  }

  lemma ShortStep(cfg: Config, s: System, e: Event)
    requires cfg.Valid() && cfg.chunk < 32 && SessionInv(cfg, s) && s.receiver.done.None?
    ensures Apply(cfg, s, e).receiver.done.None? && Apply(cfg, s, e).disk.placed == s.disk.placed
  {
    if Enabled(cfg, s, e) && e.ReceiverReads? { DoneRefused(cfg, s); }
  }

  /** Below 32 bytes a chunk cannot hold the digest: the DONE frame is longer than the frame the
      session agreed on and the receiver refuses it, so no run of any number of sessions ever puts
      the file in place. */
  lemma {:induction false} ShortChunksNeverDeliver(cfg: Config, s: System, es: seq<Event>)
    requires cfg.Valid() && cfg.chunk < 32 && SessionInv(cfg, s) && s.receiver.done.None?
    ensures Run(cfg, s, es).disk.placed == s.disk.placed
    decreases |es|
  {
    if es != [] {
      StepFollows(cfg, s, es[0]);
      ShortStep(cfg, s, es[0]);
      ShortChunksNeverDeliver(cfg, Apply(cfg, s, es[0]), es[1..]);
    }
  }

  // ---- the hypotheses can be met ----------------------------------------

  /** A digest without collisions on the prefixes of one source. */
  function PrefixDigest(source: bytes, b: bytes): Digest {
    if |b| <= |source| && b == source[..|b|] then U64Be(|b|) + Zeros(24) else Zeros(31) + [1]
  }

  lemma CollisionFreeDigestExists(source: bytes, chunk: nat, ckpt: nat)
    requires IsU64(|source|)
    ensures var cfg := Config(source, chunk, ckpt, None, b => PrefixDigest(source, b));
      NoPrefixCollision(cfg) && NoSecondPreimage(cfg)
  {
    var cfg := Config(source, chunk, ckpt, None, b => PrefixDigest(source, b));
    forall b: bytes, k: nat | k <= cfg.Total() && cfg.hash(b) == cfg.hash(source[..k]) ensures b == source[..k] {
      U64BeRoundTrip(k);
      assert PrefixDigest(source, source[..k])[31] == 0;
      assert (Zeros(31) + [1])[31] == 1;
      assert |b| <= |source| && b == source[..|b|];
      U64BeRoundTrip(|b|);
      assert (U64Be(|b|) + Zeros(24))[..8] == U64Be(|b|) && (U64Be(k) + Zeros(24))[..8] == U64Be(k);
    }
    assert source[..|source|] == source;
  }
}
