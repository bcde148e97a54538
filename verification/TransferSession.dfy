/** What both ends agree on inside one session: the frames on the wire are the sender's script,
    and the receiver's counters are determined by how many of them it has read. */
module TransferSession {
  import opened Bytes
  import opened Wire
  import opened Transfer
  import opened TransferSafety

  /** The stream position after `k` data frames of a session that starts at `offset`. */
  function Pos(cfg: Config, offset: nat, k: nat): nat {
    Min(cfg.Total(), offset + k * cfg.chunk)
  }

  lemma PosStep(cfg: Config, offset: nat, k: nat)
    requires cfg.chunk > 0 && offset <= cfg.Total()
    ensures Pos(cfg, offset, 0) == offset
    ensures Pos(cfg, offset, k + 1) == Min(cfg.Total(), Pos(cfg, offset, k) + cfg.chunk)
    ensures Pos(cfg, offset, k) < cfg.Total() <==> k < RealFrames(cfg, offset)
  {
    var d := RealFrames(cfg, offset);
    assert (k + 1) * cfg.chunk == k * cfg.chunk + cfg.chunk;
    if k < d {
      if k < d - 1 { MulMonotone(k, d - 1, cfg.chunk); }
    } else if d < k {
      MulMonotone(d, k, cfg.chunk);
    }
  }

  /** The `i`-th frame the sender puts on the wire in a session that starts at `offset`. */
  ghost predicate OnScript(cfg: Config, offset: nat, i: nat, f: bytes)
    requires cfg.chunk > 0
  {
    && offset <= cfg.Total()
    && var d, size := RealFrames(cfg, offset), cfg.FrameLen();
      if i == 0 then f == Frame(OFFER, U64Be(cfg.Total()), size)
      else if i == 1 then f == Frame(START, U64Be(offset), size)
      else if i - 2 < d then f == Frame(DATA, cfg.source[Pos(cfg, offset, i - 2)..Pos(cfg, offset, i - 1)], size)
      else if i - 2 == d then f == Frame(DONE, cfg.hash(cfg.source), size)
      else f == Frame(COVER, [], size) || f == Frame(FINISH, [], size)
  }

  ghost predicate ScriptLog(cfg: Config, offset: nat, log: seq<bytes>)
    requires cfg.chunk > 0
  {
    && offset <= cfg.Total()
    && forall i :: 0 <= i < |log| ==> OnScript(cfg, offset, i, log[i])
  }

  /** Where the sender is in its script after `n` frames, while the link is up. */
  ghost predicate Phase(cfg: Config, sn: Sender, n: nat, up: bool)
    requires cfg.chunk > 0 && sn.offset <= cfg.Total()
  {
    var d := RealFrames(cfg, sn.offset);
    match sn.pc
    case SIdle => n == 0
    case SAwaitResume => n <= 1 && (up ==> n == 1)
    case SSending =>
      && sn.emitted <= d <= sn.planned && sn.covers == 0
      && sn.sent == Pos(cfg, sn.offset, sn.emitted) && sn.fed == cfg.source[..sn.sent]
      && (up ==> n == 2 + sn.emitted)
    case SCovering =>
      && sn.emitted == d + sn.covers <= sn.planned && sn.digest == cfg.hash(cfg.source)
      && (up ==> n == 3 + sn.emitted)
    case SFailed => true
    case _ =>
      && sn.emitted == d + sn.covers <= sn.planned && sn.digest == cfg.hash(cfg.source)
      && (up ==> n == 4 + sn.emitted)
  }

  ghost predicate SenderInv(cfg: Config, sn: Sender, fwd: Channel)
    requires cfg.chunk > 0
  {
    ScriptLog(cfg, sn.offset, fwd.log) && Phase(cfg, sn, |fwd.log|, fwd.up)
  }

  /** The bytes hashed so far are the source's, provided the resumed prefix was. */
  ghost predicate FedFollows(cfg: Config, r: Receiver) {
    && r.offset <= r.received == |r.fed| <= cfg.Total()
    && (r.fed[..r.offset] == cfg.source[..r.offset] ==> r.fed == cfg.source[..r.received])
  }

  ghost predicate Reading(cfg: Config, r: Receiver, offset: nat, next: nat)
    requires cfg.chunk > 0 && offset <= cfg.Total()
  {
    var d := RealFrames(cfg, offset);
    match r.pc
    case RAwaitOffer => next == 0 && r.done.None?
    case RAwaitStart => next == 1 && r.total == cfg.Total() && r.frameLen == FrameSize(8, cfg.FrameLen()) && r.covers == 0
    case RFailed => true
    case _ =>
      && 2 <= next && r.total == cfg.Total() && r.offset == offset && FedFollows(cfg, r)
      && r.frameLen == FrameSize(8, cfg.FrameLen())
      && (r.done.None? ==> next - 2 <= d && r.received == Pos(cfg, offset, next - 2) && r.covers == 0 && !r.pc.ROk?)
      && (r.done.Some? ==> r.done == Some(cfg.hash(cfg.source)) && r.received == r.total)
      && (r.done.Some? && r.pc.RLoop? ==> next == 3 + d + r.covers)
      && (r.pc.ROk? ==> r.done.Some? && next == 4 + d + r.covers)
  }

  ghost predicate SessionInv(cfg: Config, s: System)
    requires cfg.chunk > 0
  {
    && s.Valid()
    && SenderInv(cfg, s.sender, s.fwd)
    && ReceiverInv(cfg, s.receiver, s.disk)
    && Reading(cfg, s.receiver, s.sender.offset, s.fwd.next)
  }

  // ---- one lemma per kind of event --------------------------------------

  lemma EmitFollows(cfg: Config, s: System, f: bytes, next: Sender)
    requires cfg.chunk > 0 && SessionInv(cfg, s)
    requires next.offset <= cfg.Total() && (next.offset == s.sender.offset || |s.fwd.log| <= 1)
    requires s.fwd.up ==> OnScript(cfg, next.offset, |s.fwd.log|, f) && Phase(cfg, next, |s.fwd.log| + 1, true)
    ensures SessionInv(cfg, Emit(s, f, next))
  {
    if s.fwd.up {
      var log := s.fwd.log + [f];
      forall i | 0 <= i < |log| ensures OnScript(cfg, next.offset, i, log[i]) {
        if i < |s.fwd.log| { assert OnScript(cfg, s.sender.offset, i, s.fwd.log[i]); }
      }
    }
  }

  lemma FedGrows(cfg: Config, sent: nat, n: nat)
    requires sent + n <= cfg.Total()
    ensures cfg.source[..sent] + cfg.source[sent..sent + n] == cfg.source[..sent + n]
  {
  }

  /** The next chunk is the frame the script has at this point, and leads to the next phase. */
  lemma DataOnScript(cfg: Config, sn: Sender, n: nat)
    requires cfg.Valid() && sn.pc.SSending? && sn.offset <= cfg.Total() && Phase(cfg, sn, n, true) && sn.sent < cfg.Total()
    ensures var piece := NextChunk(cfg, sn.sent);
      && OnScript(cfg, sn.offset, n, Frame(DATA, piece, cfg.FrameLen()))
      && Phase(cfg, sn.(sent := sn.sent + |piece|, fed := sn.fed + piece, emitted := sn.emitted + 1), n + 1, true)
  {
    PosStep(cfg, sn.offset, sn.emitted);
    var piece := NextChunk(cfg, sn.sent);
    assert piece == cfg.source[Pos(cfg, sn.offset, sn.emitted)..Pos(cfg, sn.offset, sn.emitted + 1)];
    FedGrows(cfg, sn.sent, |piece|);
  }

  lemma DataSent(cfg: Config, s: System)
    requires cfg.Valid() && SessionInv(cfg, s) && Enabled(cfg, s, SendData)
    ensures SessionInv(cfg, Apply(cfg, s, SendData))
  {
    var sn := s.sender;
    var piece := NextChunk(cfg, sn.sent);
    if s.fwd.up { DataOnScript(cfg, sn, |s.fwd.log|); }
    EmitFollows(cfg, s, Frame(DATA, piece, cfg.FrameLen()),
                sn.(sent := sn.sent + |piece|, fed := sn.fed + piece, emitted := sn.emitted + 1));
  }

  lemma DoneSent(cfg: Config, s: System)
    requires cfg.Valid() && SessionInv(cfg, s) && Enabled(cfg, s, SendDone)
    ensures SessionInv(cfg, Apply(cfg, s, SendDone))
  {
    var sn := s.sender;
    PosStep(cfg, sn.offset, sn.emitted);
    assert sn.fed == cfg.source;
    EmitFollows(cfg, s, Frame(DONE, cfg.hash(cfg.source), cfg.FrameLen()),
                sn.(pc := SCovering, digest := cfg.hash(cfg.source)));
  }

  lemma TailSent(cfg: Config, s: System, e: Event)
    requires cfg.Valid() && SessionInv(cfg, s) && Enabled(cfg, s, e)
    requires e.SendOffer? || e.SendCover? || e.SendFinish?
    ensures SessionInv(cfg, Apply(cfg, s, e))
  {
    var sn := s.sender;
    match e
    case SendOffer =>
      EmitFollows(cfg, s, Frame(OFFER, U64Be(cfg.Total()), cfg.FrameLen()), sn.(pc := SAwaitResume));
    case SendCover =>
      EmitFollows(cfg, s, Frame(COVER, [], cfg.FrameLen()), sn.(emitted := sn.emitted + 1, covers := sn.covers + 1));
    case SendFinish(_) =>
      EmitFollows(cfg, s, Frame(FINISH, [], cfg.FrameLen()), sn.(pc := SAwaitAck));
  }

  lemma StartFollows(cfg: Config, s: System, planned: nat)
    requires cfg.Valid() && SessionInv(cfg, s) && Enabled(cfg, s, SendStart(planned))
    ensures SessionInv(cfg, Apply(cfg, s, SendStart(planned)))
  {
    match DecodeResume(s.back.log[s.back.next])
    case None =>
    case Some((have, prefix)) =>
      var offset := ChooseOffset(cfg, have, prefix);
      PosStep(cfg, offset, 0);
      var s' := s.(back := s.back.Get());
      var next := Sender(SSending, offset, offset, cfg.source[..offset], 0, planned, 0, s.sender.digest);
      EmitFollows(cfg, s', Frame(START, U64Be(offset), cfg.FrameLen()), next);
  }

  /** Every frame of the script takes the receiver one place further, or is rejected. */
  lemma ReadFollows(cfg: Config, r: Receiver, d: Disk, offset: nat, i: nat, raw: bytes)
    requires cfg.Valid() && d.Valid() && ReceiverInv(cfg, r, d)
    requires OnScript(cfg, offset, i, raw) && Reading(cfg, r, offset, i)
    requires r.pc.RAwaitOffer? || r.pc.RAwaitStart? || r.pc.RLoop?
    ensures Reading(cfg, OnNext(cfg, r, d, raw).r, offset, i + 1)
  {
    match r.pc
    case RAwaitOffer =>
      WordFrame(OFFER, cfg.Total(), cfg.FrameLen());
      ParseFrame(OFFER, U64Be(cfg.Total()), cfg.FrameLen());
    case RAwaitStart =>
      WordFrame(START, offset, cfg.FrameLen());
      PosStep(cfg, offset, 0);
    case _ => LoopFollows(cfg, r, d, offset, i, raw);
  }

  lemma LoopFollows(cfg: Config, r: Receiver, d: Disk, offset: nat, i: nat, raw: bytes)
    requires cfg.Valid() && d.Valid() && ReceiverInv(cfg, r, d) && r.pc.RLoop?
    requires OnScript(cfg, offset, i, raw) && Reading(cfg, r, offset, i)
    ensures Reading(cfg, OnFrame(cfg, r, d, raw).r, offset, i + 1)
  {
    PosStep(cfg, offset, i - 2);
    if i - 2 < RealFrames(cfg, offset) {
      DataRead(cfg, r, d, offset, i, raw);
    } else if i - 2 == RealFrames(cfg, offset) {
      ParseFrame(DONE, cfg.hash(cfg.source), cfg.FrameLen());
    } else {
      ParseFrame(COVER, [], cfg.FrameLen());
      ParseFrame(FINISH, [], cfg.FrameLen());
    }
  }

  lemma DataRead(cfg: Config, r: Receiver, d: Disk, offset: nat, i: nat, raw: bytes)
    requires cfg.Valid() && d.Valid() && ReceiverInv(cfg, r, d) && r.pc.RLoop? && 2 <= i
    requires OnScript(cfg, offset, i, raw) && Reading(cfg, r, offset, i) && i - 2 < RealFrames(cfg, offset)
    ensures Reading(cfg, OnFrame(cfg, r, d, raw).r, offset, i + 1)
  {
    PosStep(cfg, offset, i - 2);
    var piece := cfg.source[Pos(cfg, offset, i - 2)..Pos(cfg, offset, i - 1)];
    ParseFrame(DATA, piece, cfg.FrameLen());
    if r.done.None? { DataFollows(cfg, r, piece); }
  }

  lemma DataFollows(cfg: Config, r: Receiver, piece: bytes)
    requires FedFollows(cfg, r) && r.received + |piece| <= cfg.Total()
    requires piece == cfg.source[r.received..r.received + |piece|]
    ensures FedFollows(cfg, r.(received := r.received + |piece|, fed := r.fed + piece))
  {
    assert (r.fed + piece)[..r.offset] == r.fed[..r.offset];
    assert cfg.source[..r.received] + piece == cfg.source[..r.received + |piece|];
  }

  lemma AbsorbFollows(cfg: Config, s: System, o: Outcome)
    requires cfg.chunk > 0 && SessionInv(cfg, s) && s.fwd.Ready()
    requires o.disk.Valid() && ReceiverInv(cfg, o.r, o.disk) && Reading(cfg, o.r, s.sender.offset, s.fwd.next + 1)
    ensures SessionInv(cfg, Absorb(s, o))
  {
    AbsorbShape(s, o);
    var t := Absorb(s, o);
    assert t.fwd.log == s.fwd.log && t.fwd.up == s.fwd.up;
    if t.receiver != o.r { FailedFollows(cfg, o.r, o.disk, s.sender.offset, s.fwd.next + 1); }
  }

  /** Failing is always in order. */
  lemma FailedFollows(cfg: Config, r: Receiver, d: Disk, offset: nat, next: nat)
    requires cfg.chunk > 0 && offset <= cfg.Total()
    ensures ReceiverInv(cfg, r.(pc := RFailed), d) && Reading(cfg, r.(pc := RFailed), offset, next)
  {
  }

  lemma ReceiverFollows(cfg: Config, s: System)
    requires cfg.Valid() && SessionInv(cfg, s) && Enabled(cfg, s, ReceiverReads)
    ensures SessionInv(cfg, Apply(cfg, s, ReceiverReads))
  {
    var raw := s.fwd.log[s.fwd.next];
    assert OnScript(cfg, s.sender.offset, s.fwd.next, raw);
    ReadOutcome(cfg, s.receiver, s.disk, s.sender.offset, s.fwd.next, raw);
    AbsorbFollows(cfg, s, OnNext(cfg, s.receiver, s.disk, raw));
  }

  lemma ReadOutcome(cfg: Config, r: Receiver, d: Disk, offset: nat, i: nat, raw: bytes)
    requires cfg.Valid() && d.Valid() && ReceiverInv(cfg, r, d)
    requires OnScript(cfg, offset, i, raw) && Reading(cfg, r, offset, i)
    requires r.pc.RAwaitOffer? || r.pc.RAwaitStart? || r.pc.RLoop?
    ensures var o := OnNext(cfg, r, d, raw);
      o.disk.Valid() && ReceiverInv(cfg, o.r, o.disk) && Reading(cfg, o.r, offset, i + 1)
  {
    FrameFromAnyone(cfg, r, d, raw);
    ReadFollows(cfg, r, d, offset, i, raw);
  }

  /** Events that touch neither the receiver nor the disk. */
  lemma LinkFollows(cfg: Config, s: System, e: Event)
    requires cfg.Valid() && SessionInv(cfg, s) && Enabled(cfg, s, e)
    requires e.ReadAck? || e.SenderStops? || e.CutForward? || e.CutBack?
    ensures SessionInv(cfg, Apply(cfg, s, e))
  {
    if e.CutForward? { assert ScriptLog(cfg, s.sender.offset, s.fwd.log[..e.keep]); }
  }

  /** Events that touch only the receiver and the disk. */
  lemma LocalFollows(cfg: Config, s: System, e: Event)
    requires cfg.Valid() && SessionInv(cfg, s) && Enabled(cfg, s, e)
    requires e.ReceiverSyncs? || e.ReceiverStops? || e.Crash?
    ensures SessionInv(cfg, Apply(cfg, s, e))
  {
    FailedFollows(cfg, s.receiver, Apply(cfg, s, e).disk, s.sender.offset, s.fwd.next);
  }

  lemma ReconnectFollows(cfg: Config, s: System)
    requires cfg.Valid() && SessionInv(cfg, s)
    ensures SessionInv(cfg, Apply(cfg, s, Reconnect))
  {
  }

  lemma SenderFollows(cfg: Config, s: System, e: Event)
    requires cfg.Valid() && SessionInv(cfg, s) && Enabled(cfg, s, e)
    requires e.SendOffer? || e.SendStart? || e.SendData? || e.SendDone? || e.SendCover? || e.SendFinish?
    ensures SessionInv(cfg, Apply(cfg, s, e))
  {
    match e
    case SendStart(planned) => StartFollows(cfg, s, planned);
    case SendData => DataSent(cfg, s);
    case SendDone => DoneSent(cfg, s);
    case _ => TailSent(cfg, s, e);
  }

  lemma StepFollows(cfg: Config, s: System, e: Event)
    requires cfg.Valid() && SessionInv(cfg, s)
    ensures SessionInv(cfg, Apply(cfg, s, e))
  {
    if Enabled(cfg, s, e) {
      match e
      case ReadAck => LinkFollows(cfg, s, e);
      case SenderStops => LinkFollows(cfg, s, e);
      case CutForward(_) => LinkFollows(cfg, s, e);
      case CutBack(_) => LinkFollows(cfg, s, e);
      case ReceiverReads => ReceiverFollows(cfg, s);
      case ReceiverSyncs => LocalFollows(cfg, s, e);
      case ReceiverStops => LocalFollows(cfg, s, e);
      case Crash(_) => LocalFollows(cfg, s, e);
      case Reconnect => ReconnectFollows(cfg, s);
      case _ => SenderFollows(cfg, s, e);
    }
  }
}
