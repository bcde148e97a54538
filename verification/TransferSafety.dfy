/** Safety over whole runs: whatever is cut, cancelled or crashed, and whatever the `.part` file
    held to begin with, only the source is ever put in place, and send succeeds only after that. */
module TransferSafety {
  import opened Bytes
  import opened Wire
  import opened Transfer

  // ---- an arbitrary peer ------------------------------------------------

  /** What the receiver keeps between frames: the partial file is exactly what was hashed, its
      length is the received count, and that never passes the offered total. */
  ghost predicate ReceiverInv(cfg: Config, r: Receiver, d: Disk) {
    && (r.pc.RAwaitStart? ==> |d.cur| == r.have <= r.total && r.done.None?)
    && (r.pc.RLoop? || r.pc.RSyncDue? ==>
          && |r.fed| == r.received <= r.total
          && (r.done.None? ==> d.cur == r.fed)
          && (r.done.Some? ==> d.cur == [] && r.received == r.total && r.done == Some(cfg.hash(r.fed))))
    && (r.pc.RAwaitOffer? ==> r.done.None?)
    && (r.pc.RSyncDue? ==> r.done.None?)
  }

  /** What any frame may do to the destination: nothing, or place the complete partial when its digest
      is the claimed one. */
  ghost predicate PlacesAtMostOnce(cfg: Config, r: Receiver, d: Disk, raw: bytes, o: Outcome) {
    && (r.done.Some? ==> o.r.done == r.done && o.disk == d)
    && (o.disk.placed == d.placed ||
        (r.pc.RLoop? && r.done.None? && o.r.done == Some(cfg.hash(d.cur)) && Expect(raw, DONE) == Some(cfg.hash(d.cur))
         && |d.cur| == r.total && o.disk.placed == d.placed + [d.cur]))
    && (o.r.done.Some? && r.done.None? ==> o.disk.placed == d.placed + [d.cur])
  }

  lemma OfferFromAnyone(cfg: Config, r: Receiver, d: Disk, raw: bytes)
    requires cfg.ckpt > 0 && d.Valid() && r.done.None?
    ensures var o := OnOffer(cfg, r, d, raw);
      o.disk.Valid() && ReceiverInv(cfg, o.r, o.disk) && o.r.done.None? && o.disk.placed == d.placed
  {
  }

  lemma StartFromAnyone(cfg: Config, r: Receiver, d: Disk, raw: bytes)
    requires cfg.ckpt > 0 && d.Valid() && ReceiverInv(cfg, r, d) && r.pc.RAwaitStart?
    ensures var o := OnStart(r, d, raw);
      o.disk.Valid() && ReceiverInv(cfg, o.r, o.disk) && o.r.done.None? && o.disk.placed == d.placed
  {
  }

  lemma LoopFromAnyone(cfg: Config, r: Receiver, d: Disk, raw: bytes)
    requires cfg.ckpt > 0 && d.Valid() && ReceiverInv(cfg, r, d) && r.pc.RLoop?
    ensures var o := OnFrame(cfg, r, d, raw);
      o.disk.Valid() && ReceiverInv(cfg, o.r, o.disk) && PlacesAtMostOnce(cfg, r, d, raw, o)
  {
  }

  /** One frame from anybody keeps the invariant, and changes the destination only by placing the
      complete partial when its digest is the claimed one, which happens at most once. */
  lemma FrameFromAnyone(cfg: Config, r: Receiver, d: Disk, raw: bytes)
    requires cfg.ckpt > 0 && d.Valid() && ReceiverInv(cfg, r, d)
    ensures var o := OnNext(cfg, r, d, raw);
      o.disk.Valid() && ReceiverInv(cfg, o.r, o.disk) && PlacesAtMostOnce(cfg, r, d, raw, o)
  {
    if r.pc.RAwaitOffer? { OfferFromAnyone(cfg, r, d, raw); }
    else if r.pc.RAwaitStart? { StartFromAnyone(cfg, r, d, raw); }
    else if r.pc.RLoop? { LoopFromAnyone(cfg, r, d, raw); }
  }

  /** A session of `recv` against any sequence of frames: due fsyncs are done in between. */
  function Receive(cfg: Config, r: Receiver, d: Disk, frames: seq<bytes>): Outcome
    requires cfg.ckpt > 0
    decreases |frames|
  {
    if frames == [] then Outcome(r, d, None)
    else
      var o := ReadAndSync(cfg, r, d, frames[0]);
      Receive(cfg, o.r, o.disk, frames[1..])
  }

  function ReadAndSync(cfg: Config, r: Receiver, d: Disk, raw: bytes): Outcome
    requires cfg.ckpt > 0
  {
    var o := OnNext(cfg, r, d, raw);
    if o.r.pc.RSyncDue? then OnSync(o.r, o.disk) else o
  }

  /** How a receiver may have got from (r, d) to (r', d'): the destination is written at most once,
      then with a complete partial whose digest is the one it goes on to report, and neither the
      partial nor the destination is touched afterwards. */
  ghost predicate Advances(cfg: Config, r: Receiver, d: Disk, r': Receiver, d': Disk) {
    && (r.done.Some? ==> r'.done == r.done && d' == d)
    && (r.done.None? && r'.done.None? ==> d'.placed == d.placed)
    && (r.done.None? && r'.done.Some? ==>
          exists b: bytes :: d'.placed == d.placed + [b] && r'.done == Some(cfg.hash(b)) && |b| == r'.total)
  }

  lemma ReadAndSyncAdvances(cfg: Config, r: Receiver, d: Disk, raw: bytes)
    requires cfg.ckpt > 0 && d.Valid() && ReceiverInv(cfg, r, d) && !r.pc.RSyncDue?
    ensures var o := ReadAndSync(cfg, r, d, raw);
      && o.disk.Valid() && ReceiverInv(cfg, o.r, o.disk) && !o.r.pc.RSyncDue?
      && Advances(cfg, r, d, o.r, o.disk)
      && (o.r.pc.ROk? && !r.pc.ROk? ==> o.r.done.Some?)
  {
    FrameFromAnyone(cfg, r, d, raw);
  }

  /** Over every sequence of frames from an arbitrary peer: partial length = received <= total,
      the hasher holds exactly the partial, the destination is written at most once, and success is
      reported only after that. */
  lemma {:induction false} AnyPeer(cfg: Config, r: Receiver, d: Disk, frames: seq<bytes>)
    requires cfg.ckpt > 0 && d.Valid() && ReceiverInv(cfg, r, d) && !r.pc.RSyncDue?
    ensures var o := Receive(cfg, r, d, frames);
      && o.disk.Valid() && ReceiverInv(cfg, o.r, o.disk)
      && Advances(cfg, r, d, o.r, o.disk)
      && (o.r.pc.ROk? && !r.pc.ROk? ==> o.r.done.Some?)
    decreases |frames|
  {
    if frames != [] {
      ReadAndSyncAdvances(cfg, r, d, frames[0]);
      var m := ReadAndSync(cfg, r, d, frames[0]);
      AnyPeer(cfg, m.r, m.disk, frames[1..]);
      if !m.r.pc.RAwaitOffer? { TotalKept(cfg, m.r, m.disk, frames[1..]); }
      var o := Receive(cfg, m.r, m.disk, frames[1..]);
      assert Receive(cfg, r, d, frames) == o;
      if r.done.None? && o.r.done.Some? {
        if m.r.done.Some? {
          var b: bytes :| m.disk.placed == d.placed + [b] && m.r.done == Some(cfg.hash(b)) && |b| == m.r.total;
          assert o.disk.placed == d.placed + [b];
        }
      }
    }
  }

  /** Once the payload is placed the offered total no longer changes. */
  lemma {:induction false} TotalKept(cfg: Config, r: Receiver, d: Disk, frames: seq<bytes>)
    requires cfg.ckpt > 0 && !r.pc.RAwaitOffer?
    ensures Receive(cfg, r, d, frames).r.total == r.total
    decreases |frames|
  {
    if frames != [] {
      var o := ReadAndSync(cfg, r, d, frames[0]);
      TotalKept(cfg, o.r, o.disk, frames[1..]);
    }
  }

  // ---- the honest sender ------------------------------------------------

  /** A DONE frame on the wire claims the source's digest. */
  ghost predicate Honest(cfg: Config, f: bytes) {
    match Expect(f, DONE)
    case Some(claimed) => claimed == cfg.hash(cfg.source)
    case None => true
  }

  ghost predicate IsAck(f: bytes) { Expect(f, ACK).Some? }

  ghost predicate Inv(cfg: Config, s: System) {
    && s.Valid()
    && ReceiverInv(cfg, s.receiver, s.disk)
    && (s.sender.pc.SSending? ==> s.sender.sent <= cfg.Total() && s.sender.fed == cfg.source[..s.sender.sent])
    && (forall i :: 0 <= i < |s.fwd.log| ==> Honest(cfg, s.fwd.log[i]))
    && (forall i :: 0 <= i < |s.disk.placed| ==> s.disk.placed[i] == cfg.source)
    && |s.disk.placed| == s.base + (if s.receiver.done.Some? then 1 else 0)
    && (forall i :: 0 <= i < |s.back.log| && IsAck(s.back.log[i]) ==> s.receiver.done.Some?)
    && (s.sender.pc.SOk? ==> s.receiver.done.Some?)
    && s.acked <= s.base + (if s.sender.pc.SOk? then 1 else 0)
  }

  lemma EmitKeeps(cfg: Config, s: System, f: bytes, next: Sender)
    requires Inv(cfg, s) && Honest(cfg, f) && !s.sender.pc.SOk? && !next.pc.SOk?
    requires next.pc.SSending? ==> next.sent <= cfg.Total() && next.fed == cfg.source[..next.sent]
    ensures Inv(cfg, Emit(s, f, next))
  {
  }

  /** A frame that is not DONE claims nothing. */
  lemma OtherIsHonest(cfg: Config, tag: byte, content: bytes)
    requires tag != DONE && |content| < U32_RANGE
    ensures Honest(cfg, Frame(tag, content, cfg.FrameLen()))
  {
    ParseFrame(tag, content, cfg.FrameLen());
  }

  lemma DataKeeps(cfg: Config, s: System)
    requires cfg.Valid() && Inv(cfg, s) && Enabled(cfg, s, SendData)
    ensures Inv(cfg, Apply(cfg, s, SendData))
  {
    var sn := s.sender;
    var piece := NextChunk(cfg, sn.sent);
    OtherIsHonest(cfg, DATA, piece);
    assert sn.fed + piece == cfg.source[..sn.sent + |piece|];
    EmitKeeps(cfg, s, Frame(DATA, piece, cfg.FrameLen()),
              sn.(sent := sn.sent + |piece|, fed := sn.fed + piece, emitted := sn.emitted + 1));
  }

  lemma DoneKeeps(cfg: Config, s: System)
    requires cfg.Valid() && Inv(cfg, s) && Enabled(cfg, s, SendDone)
    ensures Inv(cfg, Apply(cfg, s, SendDone))
  {
    var sn := s.sender;
    assert sn.fed == cfg.source;
    ParseFrame(DONE, cfg.hash(sn.fed), cfg.FrameLen());
    EmitKeeps(cfg, s, Frame(DONE, cfg.hash(sn.fed), cfg.FrameLen()), sn.(pc := SCovering, digest := cfg.hash(sn.fed)));
  }

  lemma SenderKeeps(cfg: Config, s: System, e: Event)
    requires cfg.Valid() && Inv(cfg, s) && Enabled(cfg, s, e)
    requires e.SendOffer? || e.SendData? || e.SendDone? || e.SendCover? || e.SendFinish?
    ensures Inv(cfg, Apply(cfg, s, e))
  {
    var sn := s.sender;
    match e
    case SendData => DataKeeps(cfg, s);
    case SendDone => DoneKeeps(cfg, s);
    case SendOffer =>
      OtherIsHonest(cfg, OFFER, U64Be(cfg.Total()));
      EmitKeeps(cfg, s, Frame(OFFER, U64Be(cfg.Total()), cfg.FrameLen()), sn.(pc := SAwaitResume));
    case SendCover =>
      OtherIsHonest(cfg, COVER, []);
      EmitKeeps(cfg, s, Frame(COVER, [], cfg.FrameLen()), sn.(emitted := sn.emitted + 1, covers := sn.covers + 1));
    case SendFinish(_) =>
      OtherIsHonest(cfg, FINISH, []);
      EmitKeeps(cfg, s, Frame(FINISH, [], cfg.FrameLen()), sn.(pc := SAwaitAck));
  }

  lemma StartKeeps(cfg: Config, s: System, planned: nat)
    requires cfg.Valid() && Inv(cfg, s) && Enabled(cfg, s, SendStart(planned))
    ensures Inv(cfg, Apply(cfg, s, SendStart(planned)))
  {
    var s' := s.(back := s.back.Get());
    assert Inv(cfg, s');
    match DecodeResume(s.back.log[s.back.next])
    case None =>
    case Some((have, prefix)) =>
      var offset := ChooseOffset(cfg, have, prefix);
      var f := Frame(START, U64Be(offset), cfg.FrameLen());
      ParseFrame(START, U64Be(offset), cfg.FrameLen());
      EmitKeeps(cfg, s', f, Sender(SSending, offset, offset, cfg.source[..offset], 0, planned, 0, s.sender.digest));
  }

  /** What the receiver's reaction to a frame of the honest sender does to the destination, and
      that only a receiver which has placed the payload acknowledges. */
  lemma HonestRead(cfg: Config, r: Receiver, d: Disk, raw: bytes)
    requires cfg.ckpt > 0 && NoSecondPreimage(cfg) && d.Valid() && ReceiverInv(cfg, r, d) && Honest(cfg, raw)
    ensures var o := OnNext(cfg, r, d, raw);
      && o.disk.Valid() && ReceiverInv(cfg, o.r, o.disk)
      && (r.done.Some? ==> o.r.done.Some?)
      && o.disk.placed == (if o.r.done.Some? && r.done.None? then d.placed + [cfg.source] else d.placed)
      && (o.reply.Some? && IsAck(o.reply.value) ==> o.r.done.Some?)
  {
    FrameFromAnyone(cfg, r, d, raw);
    var o := OnNext(cfg, r, d, raw);
    if o.reply.Some? && r.pc.RAwaitOffer? {
      var have := Min(Credit(cfg, |d.cur|), DecodeOffer(raw).value);
      ParseFrame(RESUME, ResumeBody(have, cfg.hash(o.disk.cur)), |raw|);
      assert !IsAck(o.reply.value);
    }
  }

  lemma AbsorbKeeps(cfg: Config, s: System, o: Outcome)
    requires Inv(cfg, s) && s.fwd.Ready() && o.disk.Valid() && ReceiverInv(cfg, o.r, o.disk)
    requires s.receiver.done.Some? ==> o.r.done.Some?
    requires o.disk.placed == (if o.r.done.Some? && s.receiver.done.None? then s.disk.placed + [cfg.source] else s.disk.placed)
    requires o.reply.Some? && IsAck(o.reply.value) ==> o.r.done.Some?
    ensures Inv(cfg, Absorb(s, o))
  {
  }

  lemma ReadKeeps(cfg: Config, s: System)
    requires cfg.Valid() && NoSecondPreimage(cfg) && Inv(cfg, s) && Enabled(cfg, s, ReceiverReads)
    ensures Inv(cfg, Apply(cfg, s, ReceiverReads))
  {
    var raw := s.fwd.log[s.fwd.next];
    HonestRead(cfg, s.receiver, s.disk, raw);
    AbsorbKeeps(cfg, s, OnNext(cfg, s.receiver, s.disk, raw));
  }

  lemma LinkKeeps(cfg: Config, s: System, e: Event)
    requires cfg.Valid() && Inv(cfg, s) && Enabled(cfg, s, e)
    requires e.ReadAck? || e.SenderStops? || e.CutForward? || e.CutBack?
    ensures Inv(cfg, Apply(cfg, s, e))
  {
    if e.ReadAck? { assert IsAck(s.back.log[s.back.next]) ==> s.receiver.done.Some?; }
  }

  lemma LocalKeeps(cfg: Config, s: System, e: Event)
    requires cfg.Valid() && Inv(cfg, s) && Enabled(cfg, s, e)
    requires e.ReceiverSyncs? || e.ReceiverStops? || e.Crash? || e.Reconnect?
    ensures Inv(cfg, Apply(cfg, s, e))
  {
  }

  lemma StepKeeps(cfg: Config, s: System, e: Event)
    requires cfg.Valid() && NoSecondPreimage(cfg) && Inv(cfg, s)
    ensures Inv(cfg, Apply(cfg, s, e))
  {
    if Enabled(cfg, s, e) {
      match e
      case SendStart(planned) => StartKeeps(cfg, s, planned);
      case ReadAck => LinkKeeps(cfg, s, e);
      case SenderStops => LinkKeeps(cfg, s, e);
      case CutForward(_) => LinkKeeps(cfg, s, e);
      case CutBack(_) => LinkKeeps(cfg, s, e);
      case ReceiverReads => ReadKeeps(cfg, s);
      case ReceiverSyncs => LocalKeeps(cfg, s, e);
      case ReceiverStops => LocalKeeps(cfg, s, e);
      case Crash(_) => LocalKeeps(cfg, s, e);
      case Reconnect => LocalKeeps(cfg, s, e);
      case _ => SenderKeeps(cfg, s, e);
    }
  }

  lemma {:induction false} RunKeeps(cfg: Config, s: System, es: seq<Event>)
    requires cfg.Valid() && NoSecondPreimage(cfg) && Inv(cfg, s)
    ensures Inv(cfg, Run(cfg, s, es))
    decreases |es|
  {
    if es != [] {
      StepKeeps(cfg, s, es[0]);
      RunKeeps(cfg, Apply(cfg, s, es[0]), es[1..]);
    }
  }

  /** Over any number of sessions cut, cancelled or crashed at any step, from any contents of the
      partial: everything ever put in place is the source, and the calls of send that returned Ok
      are no more than the placements, one being in this session if the last call was. */
  lemma OnlyTheSourceIsPlaced(cfg: Config, s: System, es: seq<Event>)
    requires cfg.Valid() && NoSecondPreimage(cfg) && Initial(s)
    ensures var t := Run(cfg, s, es);
      && (forall i :: 0 <= i < |t.disk.placed| ==> t.disk.placed[i] == cfg.source)
      && t.acked <= |t.disk.placed|
      && (t.sender.pc.SOk? ==> |t.disk.placed| > t.base)
  {
    RunKeeps(cfg, s, es);
  }
}
