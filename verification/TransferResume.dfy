/** Durability of the resume point: what a crash can cost, and that progress is never given back. */
module TransferResume {
  import opened Bytes
  import opened Wire
  import opened Transfer
  import opened TransferSafety
  import opened TransferSession

  /** No payload is long enough for a second checkpoint. */
  predicate Giant(ckpt: nat) { 2 * ckpt >= U64_RANGE }

  /** One size divides the other, so that every fsync falls on a checkpoint multiple or at the end;
      or no payload reaches a second checkpoint.  (Below 8 bytes a chunk is shorter than the OFFER's
      content, data frames are shorter than the OFFER frame, and the receiver accepts none of them.) */
  predicate Aligned(chunk: nat, ckpt: nat)
    requires chunk > 0 && ckpt > 0
  {
    chunk < 8 || ckpt % chunk == 0 || chunk % ckpt == 0 || Giant(ckpt)
  }

  /** No length the file may come back with after a power cut is credited with more than the durable
      bytes are, and what these are credited with is the source's. */
  ghost predicate Sheltered(cfg: Config, d: Disk)
    requires cfg.ckpt > 0
  {
    var k := Credit(cfg, d.durable);
    d.Valid() && d.high < k + cfg.ckpt && k <= cfg.Total() && d.cur[..k] == cfg.source[..k]
  }

  lemma CreditStable(cfg: Config, d: Disk, n: nat)
    requires cfg.ckpt > 0 && Sheltered(cfg, d) && d.durable <= n <= d.high
    ensures Credit(cfg, n) == Credit(cfg, d.durable) <= d.durable
  {
    FloorToUnique(n, Credit(cfg, d.durable), cfg.ckpt);
  }

  /** Where fsyncs fall while data is flowing. */
  ghost predicate OnGrid(cfg: Config, durable: nat, received: nat)
    requires cfg.chunk > 0 && cfg.ckpt > 0
  {
    || (durable % cfg.ckpt == 0 && (received - durable) % cfg.chunk == 0)
    || (Giant(cfg.ckpt) && (durable == 0 || durable >= cfg.ckpt))
  }

  /** The receiver's view of the disk while data is flowing. */
  ghost predicate Flowing(cfg: Config, r: Receiver, d: Disk)
    requires cfg.chunk > 0 && cfg.ckpt > 0
  {
    && r.offset == r.have && d.Valid() && r.last == d.durable <= r.received <= cfg.Total()
    && d.cur == r.fed == cfg.source[..r.received]
    && (r.pc.RLoop? ==> Sheltered(cfg, d) && (r.received < cfg.Total() ==> OnGrid(cfg, d.durable, r.received)))
    && (r.pc.RSyncDue? ==>
          && r.received - d.durable >= cfg.ckpt
          && (r.received < cfg.Total() ==> r.received % cfg.ckpt == 0 || Giant(cfg.ckpt)))
    && (r.pc.RLoop? && r.received < cfg.Total() ==> r.received - d.durable < cfg.ckpt)
  }

  ghost predicate ReceiverDisk(cfg: Config, r: Receiver, d: Disk)
    requires cfg.chunk > 0 && cfg.ckpt > 0
  {
    && (!r.pc.RSyncDue? ==> Sheltered(cfg, d))
    && (r.pc.RAwaitStart? ==> r.have == d.durable == |d.cur| && r.have % cfg.ckpt == 0 && r.fed == d.cur)
    && (r.pc.RLoop? || r.pc.RSyncDue? ==> r.done.Some? || Flowing(cfg, r, d))
  }

  /** The receiver's first reply and the sender's answer to it agree on the offset. */
  ghost predicate Agreed(cfg: Config, s: System) {
    var r := s.receiver;
    && r.have <= cfg.Total()
    && (s.back.log != [] ==> s.back.log[0] == Frame(RESUME, ResumeBody(r.have, cfg.hash(cfg.source[..r.have])), r.frameLen))
    && (s.sender.pc.SIdle? || s.sender.pc.SAwaitResume? ==> s.back.next == 0)
    && (r.pc.RAwaitOffer? ==> s.back.log == [] && |s.fwd.log| <= 1)
    && (s.back.up && !r.pc.RAwaitOffer? && !r.pc.RFailed? ==> s.back.log != [])
    && (|s.fwd.log| >= 2 ==> s.sender.offset == r.have)
  }

  ghost predicate NonDecreasing(q: seq<nat>) {
    forall i, j :: 0 <= i < j < |q| ==> q[i] <= q[j]
  }

  ghost predicate StartsInv(cfg: Config, s: System)
    requires cfg.ckpt > 0
  {
    && NonDecreasing(s.starts)
    && (s.starts != [] ==> s.starts[|s.starts| - 1] <= Credit(cfg, s.disk.durable))
    && (s.receiver.done.Some? ==> s.starts == [])
  }

  ghost predicate ResumeInv(cfg: Config, s: System)
    requires cfg.chunk > 0 && cfg.ckpt > 0
  {
    && SessionInv(cfg, s)
    && ReceiverDisk(cfg, s.receiver, s.disk)
    && Agreed(cfg, s)
    && StartsInv(cfg, s)
  }

  // ---- the receiver's side ----------------------------------------------

  lemma OfferKeepsDisk(cfg: Config, r: Receiver, d: Disk, raw: bytes)
    requires cfg.Valid() && Sheltered(cfg, d) && r.pc.RAwaitOffer?
    requires raw == Frame(OFFER, U64Be(cfg.Total()), cfg.FrameLen())
    ensures var o := OnOffer(cfg, r, d, raw);
      && ReceiverDisk(cfg, o.r, o.disk) && Credit(cfg, o.disk.durable) == Credit(cfg, d.durable)
      && (o.r.pc.RAwaitStart? ==>
            && o.r.have <= cfg.Total() && o.r.frameLen == |raw|
            && o.reply == Some(Frame(RESUME, ResumeBody(o.r.have, cfg.hash(cfg.source[..o.r.have])), o.r.frameLen)))
  {
    WordFrame(OFFER, cfg.Total(), cfg.FrameLen());
    CreditStable(cfg, d, |d.cur|);
    var have := Credit(cfg, d.durable);
    assert d.cur[..have] == d.cur[..d.durable][..have] == cfg.source[..have];
    FloorToUnique(have, have, cfg.ckpt);
  }

  lemma StartKeepsDisk(cfg: Config, r: Receiver, d: Disk, raw: bytes)
    requires cfg.Valid() && ReceiverDisk(cfg, r, d) && r.pc.RAwaitStart? && r.done.None?
    requires IsU64(r.have) && raw == Frame(START, U64Be(r.have), cfg.FrameLen())
    ensures var o := OnStart(r, d, raw);
      && o.r.pc.RLoop? && ReceiverDisk(cfg, o.r, o.disk)
      && o.r.offset == Credit(cfg, o.disk.durable) && o.disk.durable == d.durable
  {
    WordFrame(START, r.have, cfg.FrameLen());
    assert d.cur[..r.have] == d.cur;
    FloorToUnique(r.have, r.have, cfg.ckpt);
  }

  /** Where the next frame takes the stream: to a due fsync on the grid, or on without passing a
      multiple of the checkpoint. */
  lemma GridAdvance(cfg: Config, durable: nat, received: nat, next: nat)
    requires cfg.Valid() && Aligned(cfg.chunk, cfg.ckpt) && cfg.chunk >= 8
    requires durable <= received < cfg.Total() && received - durable < cfg.ckpt && OnGrid(cfg, durable, received)
    requires next == Min(cfg.Total(), received + cfg.chunk)
    ensures next - durable >= cfg.ckpt && next < cfg.Total() ==> next % cfg.ckpt == 0 || Giant(cfg.ckpt)
    ensures next - durable < cfg.ckpt ==>
      next < Credit(cfg, durable) + cfg.ckpt && (next < cfg.Total() ==> OnGrid(cfg, durable, next))
  {
    if Giant(cfg.ckpt) {
      if durable < cfg.ckpt && durable % cfg.ckpt == 0 { MultiplesApart(durable, 0, cfg.ckpt); }
      if next - durable < cfg.ckpt { GiantShelter(cfg, durable, next); }
    } else {
      FloorToUnique(durable, durable, cfg.ckpt);
      Advance(cfg.chunk, cfg.ckpt, durable, received - durable);
    }
  }

  lemma DataKeepsDisk(cfg: Config, r: Receiver, d: Disk, piece: bytes)
    requires cfg.Valid() && Aligned(cfg.chunk, cfg.ckpt) && cfg.chunk >= 8
    requires r.pc.RLoop? && r.done.None? && Flowing(cfg, r, d)
    requires r.total == cfg.Total() && r.received < cfg.Total() && piece == NextChunk(cfg, r.received)
    ensures var o := OnData(cfg, r, d, piece); ReceiverDisk(cfg, o.r, o.disk) && o.disk.durable == d.durable
  {
    var received := r.received + |piece|;
    assert d.cur + piece == cfg.source[..received];
    PrefixKept(cfg, d, piece);
    GridAdvance(cfg, d.durable, r.received, received);
  }

  lemma PrefixKept(cfg: Config, d: Disk, piece: bytes)
    requires cfg.ckpt > 0 && Sheltered(cfg, d)
    ensures var k := Credit(cfg, d.durable); (d.cur + piece)[..k] == cfg.source[..k]
  {
    var k := Credit(cfg, d.durable);
    assert (d.cur + piece)[..k] == d.cur[..k];
  }

  /** With a giant checkpoint nothing past the first is ever credited. */
  lemma GiantShelter(cfg: Config, durable: nat, received: nat)
    requires cfg.Valid() && Giant(cfg.ckpt) && (durable == 0 || durable >= cfg.ckpt)
    requires received <= cfg.Total() && received - durable < cfg.ckpt
    ensures received < Credit(cfg, durable) + cfg.ckpt
  {
    if durable >= cfg.ckpt {
      FloorToUnique(cfg.ckpt, cfg.ckpt, cfg.ckpt);
      CreditMonotone(cfg, cfg.ckpt, durable);
    }
  }

  /** Where a full chunk takes the stream, from an aligned fsync point. */
  lemma Advance(chunk: nat, ckpt: nat, durable: nat, gap: nat)
    requires chunk > 0 && ckpt > 0 && (ckpt % chunk == 0 || chunk % ckpt == 0)
    requires gap < ckpt && durable % ckpt == 0 && gap % chunk == 0
    ensures gap + chunk >= ckpt ==> (durable + (gap + chunk)) % ckpt == 0
    ensures (gap + chunk) % chunk == 0
  {
    MultipleMod(1, chunk);
    MultiplesAdd(gap, chunk, chunk);
    if gap + chunk >= ckpt {
      Crossing(chunk, ckpt, gap);
      MultiplesAdd(durable, gap + chunk, ckpt);
    }
  }

  lemma Crossing(chunk: nat, ckpt: nat, gap: nat)
    requires chunk > 0 && ckpt > 0 && (ckpt % chunk == 0 || chunk % ckpt == 0)
    requires gap < ckpt <= gap + chunk && gap % chunk == 0 && (gap + chunk) % chunk == 0
    ensures (gap + chunk) % ckpt == 0
  {
    MultipleMod(1, ckpt);
    if ckpt % chunk == 0 {
      MultiplesApart(gap + chunk, ckpt, chunk);
    } else {
      if chunk < ckpt { DivModUnique(chunk, ckpt, 0, chunk); }
      MultiplesApart(gap, 0, chunk);
    }
  }

  lemma SyncKeepsDisk(cfg: Config, r: Receiver, d: Disk)
    requires cfg.Valid() && r.pc.RSyncDue? && r.done.None? && Flowing(cfg, r, d)
    ensures var o := OnSync(r, d); ReceiverDisk(cfg, o.r, o.disk) && Credit(cfg, o.disk.durable) >= Credit(cfg, d.durable)
  {
    CreditMonotone(cfg, d.durable, |d.cur|);
    assert 0 % cfg.chunk == 0;
  }

  lemma CreditMonotone(cfg: Config, a: nat, b: nat)
    requires cfg.ckpt > 0 && a <= b
    ensures Credit(cfg, a) <= Credit(cfg, b)
  {
    if Credit(cfg, b) < Credit(cfg, a) { MultiplesApart(Credit(cfg, a), Credit(cfg, b), cfg.ckpt); }
  }

  lemma DataReadKeeps(cfg: Config, r: Receiver, d: Disk, piece: bytes)
    requires cfg.Valid() && Aligned(cfg.chunk, cfg.ckpt) && r.pc.RLoop? && r.done.None? && Flowing(cfg, r, d)
    requires r.total == cfg.Total() && r.received < cfg.Total() && piece == NextChunk(cfg, r.received)
    requires r.frameLen == FrameSize(8, cfg.FrameLen())
    ensures var o := OnFrame(cfg, r, d, Frame(DATA, piece, cfg.FrameLen()));
      ReceiverDisk(cfg, o.r, o.disk) && o.disk.durable == d.durable
  {
    ParseFrame(DATA, piece, cfg.FrameLen());
    if cfg.chunk >= 8 { DataKeepsDisk(cfg, r, d, piece); }
  }

  lemma DoneReadKeeps(cfg: Config, r: Receiver, d: Disk, claimed: Digest)
    requires cfg.Valid() && r.pc.RLoop? && d.Valid() && ReceiverDisk(cfg, r, d)
    ensures var o := OnFrame(cfg, r, d, Frame(DONE, claimed, cfg.FrameLen()));
      ReceiverDisk(cfg, o.r, o.disk) && (o.disk.durable == d.durable || (o.r.done.Some? && r.done.None?))
  {
    ParseFrame(DONE, claimed, cfg.FrameLen());
    FloorToUnique(0, 0, cfg.ckpt);
  }

  lemma TailReadKeeps(cfg: Config, r: Receiver, d: Disk, tag: byte)
    requires cfg.Valid() && r.pc.RLoop? && ReceiverDisk(cfg, r, d) && (tag == COVER || tag == FINISH)
    ensures var o := OnFrame(cfg, r, d, Frame(tag, [], cfg.FrameLen()));
      ReceiverDisk(cfg, o.r, o.disk) && o.disk == d
  {
    ParseFrame(tag, [], cfg.FrameLen());
  }

  /** A frame of the script, read in the receive loop. */
  lemma LoopKeepsDisk(cfg: Config, r: Receiver, d: Disk, offset: nat, i: nat, raw: bytes)
    requires cfg.Valid() && Aligned(cfg.chunk, cfg.ckpt) && r.pc.RLoop? && d.Valid() && ReceiverInv(cfg, r, d)
    requires ReceiverDisk(cfg, r, d) && OnScript(cfg, offset, i, raw) && Reading(cfg, r, offset, i)
    ensures var o := OnFrame(cfg, r, d, raw);
      && ReceiverDisk(cfg, o.r, o.disk)
      && (o.disk.durable == d.durable || (o.r.done.Some? && r.done.None?))
  {
    PosStep(cfg, offset, i - 2);
    if i - 2 < RealFrames(cfg, offset) {
      DataReadKeeps(cfg, r, d, cfg.source[Pos(cfg, offset, i - 2)..Pos(cfg, offset, i - 1)]);
    } else if i - 2 == RealFrames(cfg, offset) {
      DoneReadKeeps(cfg, r, d, cfg.hash(cfg.source));
    } else {
      TailReadKeeps(cfg, r, d, COVER);
      TailReadKeeps(cfg, r, d, FINISH);
    }
  }

  // ---- events -----------------------------------------------------------

  lemma AbsorbAgreed(cfg: Config, s: System, o: Outcome)
    requires Agreed(cfg, s) && o.r.have <= cfg.Total() && !o.r.pc.RAwaitOffer?
    requires s.receiver.pc.RAwaitOffer? || (o.r.have == s.receiver.have && o.r.frameLen == s.receiver.frameLen)
    requires s.receiver.pc.RAwaitOffer? && o.reply.Some? ==>
               o.reply.value == Frame(RESUME, ResumeBody(o.r.have, cfg.hash(cfg.source[..o.r.have])), o.r.frameLen)
    requires s.receiver.pc.RAwaitOffer? ==> o.reply.Some? || o.r.pc.RFailed?
    requires !s.receiver.pc.RFailed?
    ensures Agreed(cfg, Absorb(s, o))
  {
  }

  lemma AbsorbStarts(cfg: Config, s: System, o: Outcome)
    requires cfg.ckpt > 0 && StartsInv(cfg, s)
    requires |o.disk.placed| > |s.disk.placed| ||
             (Credit(cfg, s.disk.durable) <= Credit(cfg, o.disk.durable) && o.r.done.Some? == s.receiver.done.Some?)
    requires s.receiver.pc.RAwaitStart? && o.r.pc.RLoop? ==>
               o.r.offset == Credit(cfg, o.disk.durable) && |o.disk.placed| == |s.disk.placed| && o.r.done.None?
    ensures StartsInv(cfg, Absorb(s, o))
  {
  }

  lemma AbsorbDisk(cfg: Config, s: System, o: Outcome)
    requires cfg.chunk > 0 && cfg.ckpt > 0 && ReceiverDisk(cfg, o.r, o.disk) && (o.reply.Some? ==> !o.r.pc.RSyncDue?)
    ensures ReceiverDisk(cfg, Absorb(s, o).receiver, Absorb(s, o).disk)
  {
  }

  lemma OfferReadKeeps(cfg: Config, s: System)
    requires cfg.Valid() && ResumeInv(cfg, s) && s.receiver.pc.RAwaitOffer? && s.fwd.Ready()
    ensures ResumeInv(cfg, Apply(cfg, s, ReceiverReads))
  {
    var raw := s.fwd.log[s.fwd.next];
    ReceiverFollows(cfg, s);
    OfferKeepsDisk(cfg, s.receiver, s.disk, raw);
    var o := OnOffer(cfg, s.receiver, s.disk, raw);
    AbsorbAgreed(cfg, s, o);
    AbsorbStarts(cfg, s, o);
    AbsorbDisk(cfg, s, o);
  }

  lemma StartReadKeeps(cfg: Config, s: System)
    requires cfg.Valid() && ResumeInv(cfg, s) && s.receiver.pc.RAwaitStart? && s.fwd.Ready()
    ensures ResumeInv(cfg, Apply(cfg, s, ReceiverReads))
  {
    var raw := s.fwd.log[s.fwd.next];
    ReceiverFollows(cfg, s);
    StartKeepsDisk(cfg, s.receiver, s.disk, raw);
    var o := OnStart(s.receiver, s.disk, raw);
    AbsorbAgreed(cfg, s, o);
    AbsorbStarts(cfg, s, o);
    AbsorbDisk(cfg, s, o);
  }

  lemma LoopReadKeeps(cfg: Config, s: System)
    requires cfg.Valid() && Aligned(cfg.chunk, cfg.ckpt) && ResumeInv(cfg, s) && s.receiver.pc.RLoop? && s.fwd.Ready()
    ensures ResumeInv(cfg, Apply(cfg, s, ReceiverReads))
  {
    var r, d, raw := s.receiver, s.disk, s.fwd.log[s.fwd.next];
    ReceiverFollows(cfg, s);
    LoopKeepsDisk(cfg, r, d, s.sender.offset, s.fwd.next, raw);
    LoopReplies(cfg, r, d, raw);
    AbsorbLoop(cfg, s, OnFrame(cfg, r, d, raw));
  }

  lemma AbsorbLoop(cfg: Config, s: System, o: Outcome)
    requires cfg.Valid() && ResumeInv(cfg, s) && s.receiver.pc.RLoop? && s.fwd.Ready() && SessionInv(cfg, Absorb(s, o))
    requires ReceiverDisk(cfg, o.r, o.disk)
    requires o.disk.durable == s.disk.durable || (o.r.done.Some? && s.receiver.done.None?)
    requires LoopOutcome(s.receiver, s.disk, o)
    ensures ResumeInv(cfg, Absorb(s, o))
  {
    AbsorbAgreed(cfg, s, o);
    AbsorbStarts(cfg, s, o);
    AbsorbDisk(cfg, s, o);
  }

  lemma LoopReplies(cfg: Config, r: Receiver, d: Disk, raw: bytes)
    ensures LoopOutcome(r, d, OnFrame(cfg, r, d, raw))
  {
  }

  ghost predicate LoopOutcome(r: Receiver, d: Disk, o: Outcome) {
      && o.r.have == r.have && o.r.frameLen == r.frameLen && (r.pc.RLoop? ==> !o.r.pc.RAwaitOffer?)
      && (o.reply.Some? ==> o.r.pc.ROk? && r.done.Some? && o.r.done == r.done && o.disk == d)
      && (o.r.done.Some? && r.done.None? ==> |o.disk.placed| > |d.placed|)
      && (r.done.Some? ==> o.r.done.Some?)
  }

  /** Stopping the receiver between a due write and its fsync. */
  predicate Disturbs(s: System, e: Event) {
    s.receiver.pc.RSyncDue? && (e.Crash? || e.ReceiverStops? || e.Reconnect?)
  }

  /** Only a read of the receiver's can bear on what the two have agreed. */
  lemma AgreedKept(cfg: Config, s: System, e: Event)
    requires cfg.Valid() && SessionInv(cfg, s) && Agreed(cfg, s) && Enabled(cfg, s, e)
    requires !e.ReceiverReads? && !e.SendStart? && !e.Reconnect?
    ensures Agreed(cfg, Apply(cfg, s, e))
  {
  }

  lemma StartAgreed(cfg: Config, s: System, planned: nat)
    requires cfg.Valid() && SessionInv(cfg, s) && Agreed(cfg, s) && Enabled(cfg, s, SendStart(planned))
    ensures Agreed(cfg, Apply(cfg, s, SendStart(planned)))
  {
    ResumeFrame(s.receiver.have, cfg.hash(cfg.source[..s.receiver.have]), s.receiver.frameLen);
  }

  lemma SendKeepsResume(cfg: Config, s: System, e: Event)
    requires cfg.Valid() && ResumeInv(cfg, s) && Enabled(cfg, s, e)
    requires e.SendOffer? || e.SendData? || e.SendDone? || e.SendCover? || e.SendFinish?
    ensures ResumeInv(cfg, Apply(cfg, s, e))
  {
    StepFollows(cfg, s, e);
    SenderSide(cfg, s, Apply(cfg, s, e));
  }

  /** Nothing but the sender and what it has sent is different, and it started before or not at all. */
  lemma SenderSide(cfg: Config, s: System, t: System)
    requires cfg.Valid() && ResumeInv(cfg, s) && SessionInv(cfg, t)
    requires t.receiver == s.receiver && t.disk == s.disk && t.starts == s.starts && t.back == s.back
    requires t.sender.offset == s.sender.offset && (t.sender.pc.SIdle? || t.sender.pc.SAwaitResume? ==> s.back.next == 0)
    requires |t.fwd.log| <= 1 || |s.fwd.log| >= 2
    ensures ResumeInv(cfg, t)
  {
  }

  lemma StartKeepsResume(cfg: Config, s: System, planned: nat)
    requires cfg.Valid() && ResumeInv(cfg, s) && Enabled(cfg, s, SendStart(planned))
    ensures ResumeInv(cfg, Apply(cfg, s, SendStart(planned)))
  {
    StepFollows(cfg, s, SendStart(planned));
    ResumeFrame(s.receiver.have, cfg.hash(cfg.source[..s.receiver.have]), s.receiver.frameLen);
  }

  lemma StopKeepsResume(cfg: Config, s: System, e: Event)
    requires cfg.Valid() && ResumeInv(cfg, s) && Enabled(cfg, s, e) && !Disturbs(s, e)
    requires e.SenderStops? || e.ReceiverStops?
    ensures ResumeInv(cfg, Apply(cfg, s, e))
  {
    StepFollows(cfg, s, e);
  }

  lemma CutKeepsResume(cfg: Config, s: System, e: Event)
    requires cfg.Valid() && ResumeInv(cfg, s) && Enabled(cfg, s, e) && (e.CutForward? || e.CutBack?)
    ensures ResumeInv(cfg, Apply(cfg, s, e))
  {
    StepFollows(cfg, s, e);
  }

  lemma AckKeepsResume(cfg: Config, s: System)
    requires cfg.Valid() && ResumeInv(cfg, s) && Enabled(cfg, s, ReadAck)
    ensures ResumeInv(cfg, Apply(cfg, s, ReadAck))
  {
    StepFollows(cfg, s, ReadAck);
    SenderOnly(cfg, s, Apply(cfg, s, ReadAck));
  }

  lemma SenderOnly(cfg: Config, s: System, t: System)
    requires cfg.Valid() && ResumeInv(cfg, s) && SessionInv(cfg, t)
    requires t.receiver == s.receiver && t.disk == s.disk && t.starts == s.starts && t.fwd == s.fwd
    requires t.back.log == s.back.log && t.back.up == s.back.up
    requires t.sender.offset == s.sender.offset && !t.sender.pc.SIdle? && !t.sender.pc.SAwaitResume?
    ensures ResumeInv(cfg, t)
  {
  }

  lemma RestartKeepsResume(cfg: Config, s: System, e: Event)
    requires cfg.Valid() && ResumeInv(cfg, s) && Enabled(cfg, s, e) && !Disturbs(s, e) && (e.Crash? || e.Reconnect?)
    ensures ResumeInv(cfg, Apply(cfg, s, e))
  {
    StepFollows(cfg, s, e);
  }

  lemma SyncKeepsResume(cfg: Config, s: System)
    requires cfg.Valid() && ResumeInv(cfg, s) && Enabled(cfg, s, ReceiverSyncs) && !Disturbs(s, ReceiverSyncs)
    ensures ResumeInv(cfg, Apply(cfg, s, ReceiverSyncs))
  {
    StepFollows(cfg, s, ReceiverSyncs);
    SyncKeepsDisk(cfg, s.receiver, s.disk);
  }

  lemma StepKeepsResume(cfg: Config, s: System, e: Event)
    requires cfg.Valid() && Aligned(cfg.chunk, cfg.ckpt) && ResumeInv(cfg, s) && !Disturbs(s, e)
    ensures ResumeInv(cfg, Apply(cfg, s, e))
  {
    if Enabled(cfg, s, e) {
      match e
      case SendStart(planned) => StartKeepsResume(cfg, s, planned);
      case ReceiverReads =>
        if s.receiver.pc.RAwaitOffer? { OfferReadKeeps(cfg, s); }
        else if s.receiver.pc.RAwaitStart? { StartReadKeeps(cfg, s); }
        else { LoopReadKeeps(cfg, s); }
      case SendOffer => SendKeepsResume(cfg, s, e);
      case SendData => SendKeepsResume(cfg, s, e);
      case SendDone => SendKeepsResume(cfg, s, e);
      case SendCover => SendKeepsResume(cfg, s, e);
      case SendFinish(_) => SendKeepsResume(cfg, s, e);
      case ReceiverSyncs => SyncKeepsResume(cfg, s);
      case Crash(_) => RestartKeepsResume(cfg, s, e);
      case Reconnect => RestartKeepsResume(cfg, s, e);
      case ReadAck => AckKeepsResume(cfg, s);
      case CutForward(_) => CutKeepsResume(cfg, s, e);
      case CutBack(_) => CutKeepsResume(cfg, s, e);
      case SenderStops => StopKeepsResume(cfg, s, e);
      case ReceiverStops => StopKeepsResume(cfg, s, e);
    }
  }

  /** A run in which nothing stops the receiver between a due write and its fsync. */
  ghost predicate Undisturbed(cfg: Config, s: System, es: seq<Event>)
    requires cfg.chunk > 0 && cfg.ckpt > 0
    decreases |es|
  {
    es == [] || (!Disturbs(s, es[0]) && Undisturbed(cfg, Apply(cfg, s, es[0]), es[1..]))
  }

  lemma {:induction false} RunKeepsResume(cfg: Config, s: System, es: seq<Event>)
    requires cfg.Valid() && Aligned(cfg.chunk, cfg.ckpt) && ResumeInv(cfg, s) && Undisturbed(cfg, s, es)
    ensures ResumeInv(cfg, Run(cfg, s, es))
    decreases |es|
  {
    if es != [] {
      StepKeepsResume(cfg, s, es[0]);
      RunKeepsResume(cfg, Apply(cfg, s, es[0]), es[1..]);
    }
  }

  /** Whatever a power cut leaves now, the next session is credited with no byte past the last
      fsync, and with all but less than one checkpoint of what was received. */
  ghost predicate CrashIsCheap(cfg: Config, s: System)
    requires cfg.ckpt > 0
  {
    forall left: bytes :: s.disk.MayCrashTo(left) ==>
      && Credit(cfg, |left|) <= s.disk.durable
      && (s.receiver.pc.RLoop? && s.receiver.done.None? ==> s.receiver.received < Credit(cfg, |left|) + cfg.ckpt)
  }

  lemma ShelteredIsCheap(cfg: Config, t: System)
    requires cfg.Valid() && ResumeInv(cfg, t) && !t.receiver.pc.RSyncDue?
    ensures CrashIsCheap(cfg, t)
  {
    forall left: bytes | t.disk.MayCrashTo(left)
      ensures Credit(cfg, |left|) == Credit(cfg, t.disk.durable) <= t.disk.durable
    {
      CreditStable(cfg, t.disk, |left|);
    }
  }

  /** In the window between a write and the fsync it makes due, all that was written may come back. */
  lemma WindowIsNotCheap(cfg: Config, t: System)
    requires cfg.Valid() && ResumeInv(cfg, t) && t.receiver.pc.RSyncDue?
    ensures !CrashIsCheap(cfg, t)
  {
    assert Flowing(cfg, t.receiver, t.disk);
    assert t.disk.MayCrashTo(t.disk.cur);
    assert Credit(cfg, |t.disk.cur|) > t.disk.durable;
  }

  /** When one of chunk_len and checkpoint_len divides the other, from any sheltered disk (a missing
      file in particular): at every step of every undisturbed run a crash is cheap if and only if
      it does not fall between a write and the fsync that write made due, and the offsets at which
      sessions resume never decrease until the file is put in place. */
  lemma ResumeNeverLosesGround(cfg: Config, s: System, es: seq<Event>)
    requires cfg.Valid() && Aligned(cfg.chunk, cfg.ckpt) && Initial(s) && Sheltered(cfg, s.disk) && Undisturbed(cfg, s, es)
    ensures var t := Run(cfg, s, es);
      && NonDecreasing(t.starts)
      && (CrashIsCheap(cfg, t) <==> !t.receiver.pc.RSyncDue?)
  {
    RunKeepsResume(cfg, s, es);
    var t := Run(cfg, s, es);
    if t.receiver.pc.RSyncDue? { WindowIsNotCheap(cfg, t); } else { ShelteredIsCheap(cfg, t); }
  }
}
