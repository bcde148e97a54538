/** The resumable live transfer as two step machines, a pair of FIFO channels that can be cut at
    any step, and a disk that can lose unsynced bytes.  A run is a list of events; every event is
    a total function of the state (an event that is not enabled changes nothing). */
module Transfer {
  import opened Bytes
  import opened Wire

  /** What stays fixed over a run: the sender's source and chunk size, the receiver's checkpoint
      interval and size limit, and the digest. */
  datatype Config = Config(
    source: bytes, chunk: nat, ckpt: nat, maxTotal: Option<nat>, hash: bytes -> Digest)
  {
    ghost predicate Valid() {
      && 1 <= chunk <= MAX_FRAME_LEN - HEADER_LEN
      && 1 <= ckpt
      && IsU64(|source|)
    }

    function Total(): nat { |source| }

    function FrameLen(): nat { chunk + HEADER_LEN }

    predicate Accepts(total: nat) { maxTotal.None? || total <= maxTotal.value }
  }

  // ---- the receiver's disk ----------------------------------------------

  /** The `.part` file and the destination.  `cur` is what a read sees; its first `durable` bytes
      were present at the last fsync and untouched since; `high` is the greatest length the file
      has had since then.  `placed` lists the contents renamed over the destination, in order. */
  datatype Disk = Disk(cur: bytes, durable: nat, high: nat, placed: seq<bytes>)
  {
    predicate Valid() { durable <= |cur| <= high }

    function SetLen(n: nat): Disk
      requires n <= |cur|
    {
      this.(cur := cur[..n], durable := Min(durable, n))
    }

    function Append(b: bytes): Disk {
      this.(cur := cur + b, high := Max(high, |cur| + |b|))
    }

    function Sync(): Disk { this.(durable := |cur|, high := |cur|) }

    /** The final fsync and the atomic rename of the partial over the destination. */
    function Place(): Disk { Disk([], 0, 0, placed + [cur]) }

    /** What a power cut may leave: the durable prefix, then any bytes up to any length that was
        written since the last fsync. */
    predicate MayCrashTo(left: bytes) {
      durable <= |left| <= high && durable <= |cur| && left[..durable] == cur[..durable]
    }
  }

  /** The whole multiple of the checkpoint length that a file of `n` bytes is credited with. */
  function Credit(cfg: Config, n: nat): nat
    requires cfg.ckpt > 0
  {
    FloorTo(n, cfg.ckpt)
  }

  // ---- receiver ---------------------------------------------------------

  datatype ReceiverPc = RAwaitOffer | RAwaitStart | RLoop | RSyncDue | ROk | RFailed

  datatype Receiver = Receiver(
    pc: ReceiverPc, frameLen: nat, total: nat, have: nat, offset: nat, received: nat,
    last: nat, fed: bytes, done: Option<Digest>, covers: nat)

  const FreshReceiver := Receiver(RAwaitOffer, 0, 0, 0, 0, 0, 0, [], None, 0)

  datatype Outcome = Outcome(r: Receiver, disk: Disk, reply: Option<bytes>)

  function Reject(r: Receiver, d: Disk): Outcome { Outcome(r.(pc := RFailed), d, None) }

  function OnOffer(cfg: Config, r: Receiver, d: Disk, raw: bytes): Outcome
    requires cfg.ckpt > 0
  {
    if !(HEADER_LEN <= |raw| <= MAX_FRAME_LEN) then Reject(r, d)
    else match DecodeOffer(raw)
      case None => Reject(r, d)
      case Some(total) =>
        if !cfg.Accepts(total) then Reject(r, d)
        else
          var have := Min(Credit(cfg, |d.cur|), total);
          var d' := d.SetLen(have);
          Outcome(
            Receiver(RAwaitStart, |raw|, total, have, 0, 0, 0, d'.cur, None, 0), d',
            Some(Frame(RESUME, ResumeBody(have, cfg.hash(d'.cur)), |raw|)))
  }

  function OnStart(r: Receiver, d: Disk, raw: bytes): Outcome {
    match DecodeStart(raw)
    case None => Reject(r, d)
    case Some(offset) =>
      if offset > r.have || offset > |d.cur| then Reject(r, d)
      else
        var d' := d.SetLen(offset);
        Outcome(
          r.(pc := RLoop, offset := offset, received := offset, last := offset, fed := d'.cur), d', None)
  }

  /** One turn of the receive loop up to, and not including, the checkpoint fsync. */
  function OnFrame(cfg: Config, r: Receiver, d: Disk, raw: bytes): Outcome {
    if |raw| != r.frameLen then Reject(r, d)
    else match Parse(raw)
      case None => Reject(r, d)
      case Some(p) =>
        if p.tag == DATA then OnData(cfg, r, d, p.content)
        else if p.tag == COVER then Outcome(r.(covers := r.covers + 1), d, None)
        else if p.tag == DONE then OnDone(cfg, r, d, p.content)
        else if p.tag == FINISH && r.done.Some? then
          Outcome(r.(pc := ROk), d, Some(Frame(ACK, [], r.frameLen)))
        else Reject(r, d)
  }

  function OnData(cfg: Config, r: Receiver, d: Disk, content: bytes): Outcome {
    if r.done.Some? || r.received + |content| > r.total then Reject(r, d)
    else
      var received := r.received + |content|;
      var due := received - r.last >= cfg.ckpt;
      Outcome(
        r.(pc := if due then RSyncDue else RLoop, received := received, fed := r.fed + content),
        d.Append(content), None)
  }

  function OnDone(cfg: Config, r: Receiver, d: Disk, content: bytes): Outcome {
    if r.done.Some? || |content| != 32 || r.received != r.total || cfg.hash(r.fed) != content then
      Reject(r, d)
    else
      Outcome(r.(done := Some(content)), d.Place(), None)
  }

  /** The checkpoint fsync that a due write waits for. */
  function OnSync(r: Receiver, d: Disk): Outcome {
    Outcome(r.(pc := RLoop, last := r.received), d.Sync(), None)
  }

  /** The receiver's reaction to the next frame of the session, whoever sent it. */
  function OnNext(cfg: Config, r: Receiver, d: Disk, raw: bytes): Outcome
    requires cfg.ckpt > 0
  {
    match r.pc
    case RAwaitOffer => OnOffer(cfg, r, d, raw)
    case RAwaitStart => OnStart(r, d, raw)
    case RLoop => OnFrame(cfg, r, d, raw)
    case _ => Outcome(r, d, None)
  }

  // ---- sender -----------------------------------------------------------

  datatype SenderPc = SIdle | SAwaitResume | SSending | SCovering | SAwaitAck | SOk | SFailed

  datatype Sender = Sender(
    pc: SenderPc, offset: nat, sent: nat, fed: bytes, emitted: nat, planned: nat, covers: nat, digest: Digest)

  const FreshSender := Sender(SIdle, 0, 0, [], 0, 0, 0, Zeros(32))

  function RealFrames(cfg: Config, offset: nat): nat
    requires cfg.chunk > 0 && offset <= cfg.Total()
  {
    DivCeil(cfg.Total() - offset, cfg.chunk)
  }

  /** Where the sender decides to start, from the receiver's claim about its partial. */
  function ChooseOffset(cfg: Config, have: nat, prefix: Digest): (offset: nat)
    ensures offset <= cfg.Total()
  {
    if 0 < have <= cfg.Total() && cfg.hash(cfg.source[..have]) == prefix then have else 0
  }

  /** Where a session that begins with disk `d` starts: at the credited length if the bytes up to it
      hash like the source's, otherwise at 0. */
  function StartOffset(cfg: Config, d: Disk): (offset: nat)
    requires cfg.ckpt > 0
    ensures offset <= cfg.Total() && offset <= |d.cur|
  {
    var have := Min(Credit(cfg, |d.cur|), cfg.Total());
    ChooseOffset(cfg, have, cfg.hash(d.cur[..have]))
  }

  // ---- the two parties joined -------------------------------------------

  /** Frames sent so far this session, and how many of them the other end has read. */
  datatype Channel = Channel(log: seq<bytes>, next: nat, up: bool)
  {
    predicate Valid() { next <= |log| }
    predicate Ready() { next < |log| }
    function Put(f: bytes): Channel { this.(log := log + [f]) }
    function Get(): Channel { this.(next := next + 1) }
  }

  const FreshChannel := Channel([], 0, true)

  /** `starts` lists the offsets accepted by the receiver since the last placement, one per
      session; `acked` counts the calls of send that returned Ok; `base` is the number of
      placements there had been when the current session began. */
  datatype System = System(
    sender: Sender, receiver: Receiver, fwd: Channel, back: Channel, disk: Disk,
    starts: seq<nat>, acked: nat, base: nat)
  {
    ghost predicate Valid() { fwd.Valid() && back.Valid() && disk.Valid() }
  }

  datatype Event =
    | SendOffer
    | SendStart(planned: nat)
    | SendData
    | SendDone
    | SendCover
    | SendFinish(cancelled: bool)
    | ReadAck
    | SenderStops
    | ReceiverReads
    | ReceiverSyncs
    | ReceiverStops
    | CutForward(keep: nat)
    | CutBack(keep: nat)
    | Crash(left: bytes)
    | Reconnect

  ghost predicate Initial(s: System) {
    && s.disk.Valid() && s.disk.placed == []
    && s.sender == FreshSender && s.receiver == FreshReceiver
    && s.fwd == FreshChannel && s.back == FreshChannel
    && s.starts == [] && s.acked == 0 && s.base == 0
  }

  /** The sender puts `f` on the wire and moves on, or fails because the link is gone. */
  function Emit(s: System, f: bytes, next: Sender): System {
    if s.fwd.up then s.(sender := next, fwd := s.fwd.Put(f))
    else s.(sender := s.sender.(pc := SFailed))
  }

  function Deliver(s: System, o: Outcome): System {
    match o.reply
    case None => s.(receiver := o.r, disk := o.disk)
    case Some(f) =>
      if s.back.up then s.(receiver := o.r, disk := o.disk, back := s.back.Put(f))
      else s.(receiver := o.r.(pc := RFailed), disk := o.disk)
  }

  function NextChunk(cfg: Config, sent: nat): bytes
    requires sent <= cfg.Total()
  {
    cfg.source[sent..Min(cfg.Total(), sent + cfg.chunk)]
  }

  predicate Enabled(cfg: Config, s: System, e: Event)
    requires cfg.chunk > 0
  {
    match e
    case SendOffer => s.sender.pc.SIdle?
    case SendStart(planned) =>
      && s.sender.pc.SAwaitResume? && s.back.Ready()
      && (match DecodeResume(s.back.log[s.back.next])
          case None => true
          case Some((have, prefix)) => planned >= RealFrames(cfg, ChooseOffset(cfg, have, prefix)))
    case SendData => s.sender.pc.SSending? && s.sender.sent < cfg.Total()
    case SendDone => s.sender.pc.SSending? && s.sender.sent >= cfg.Total()
    case SendCover => s.sender.pc.SCovering? && s.sender.emitted < s.sender.planned
    case SendFinish(cancelled) => s.sender.pc.SCovering? && (cancelled || s.sender.emitted >= s.sender.planned)
    case ReadAck => s.sender.pc.SAwaitAck? && s.back.Ready()
    case SenderStops => !s.sender.pc.SOk?
    case ReceiverReads => (s.receiver.pc.RAwaitOffer? || s.receiver.pc.RAwaitStart? || s.receiver.pc.RLoop?) && s.fwd.Ready()
    case ReceiverSyncs => s.receiver.pc.RSyncDue?
    case ReceiverStops => !s.receiver.pc.ROk?
    case CutForward(keep) => s.fwd.next <= keep <= |s.fwd.log|
    case CutBack(keep) => s.back.next <= keep <= |s.back.log|
    case Crash(left) => s.disk.MayCrashTo(left)
    case Reconnect => true
  }

  function Apply(cfg: Config, s: System, e: Event): System
    requires cfg.chunk > 0 && cfg.ckpt > 0
  {
    if !Enabled(cfg, s, e) then s
    else
      var sn := s.sender;
      match e
      case SendOffer =>
        Emit(s, Frame(OFFER, U64Be(cfg.Total()), cfg.FrameLen()), sn.(pc := SAwaitResume))
      case SendStart(planned) => ApplyStart(cfg, s, planned)
      case SendData =>
        var piece := NextChunk(cfg, sn.sent);
        Emit(s, Frame(DATA, piece, cfg.FrameLen()),
             sn.(sent := sn.sent + |piece|, fed := sn.fed + piece, emitted := sn.emitted + 1))
      case SendDone =>
        var digest := cfg.hash(sn.fed);
        Emit(s, Frame(DONE, digest, cfg.FrameLen()), sn.(pc := SCovering, digest := digest))
      case SendCover =>
        Emit(s, Frame(COVER, [], cfg.FrameLen()), sn.(emitted := sn.emitted + 1, covers := sn.covers + 1))
      case SendFinish(_) =>
        Emit(s, Frame(FINISH, [], cfg.FrameLen()), sn.(pc := SAwaitAck))
      case ReadAck =>
        var s' := s.(back := s.back.Get());
        if Expect(s.back.log[s.back.next], ACK).Some? then s'.(sender := sn.(pc := SOk), acked := s.acked + 1)
        else s'.(sender := sn.(pc := SFailed))
      case SenderStops => s.(sender := sn.(pc := SFailed))
      case ReceiverReads => ApplyRead(cfg, s)
      case ReceiverSyncs => Deliver(s, OnSync(s.receiver, s.disk))
      case ReceiverStops => s.(receiver := s.receiver.(pc := RFailed))
      case CutForward(keep) => s.(fwd := s.fwd.(log := s.fwd.log[..keep], up := false))
      case CutBack(keep) => s.(back := s.back.(log := s.back.log[..keep], up := false))
      case Crash(left) => s.(disk := s.disk.(cur := left), receiver := s.receiver.(pc := RFailed))
      case Reconnect =>
        s.(sender := FreshSender, receiver := FreshReceiver, fwd := FreshChannel, back := FreshChannel,
           base := |s.disk.placed|)
  }

  function ApplyStart(cfg: Config, s: System, planned: nat): System
    requires s.back.Ready()
  {
    var s' := s.(back := s.back.Get());
    match DecodeResume(s.back.log[s.back.next])
    case None => s'.(sender := s.sender.(pc := SFailed))
    case Some((have, prefix)) =>
      var offset := ChooseOffset(cfg, have, prefix);
      Emit(s', Frame(START, U64Be(offset), cfg.FrameLen()),
           Sender(SSending, offset, offset, cfg.source[..offset], 0, planned, 0, s.sender.digest))
  }

  function ApplyRead(cfg: Config, s: System): System
    requires cfg.ckpt > 0 && s.fwd.Ready()
  {
    Absorb(s, OnNext(cfg, s.receiver, s.disk, s.fwd.log[s.fwd.next]))
  }

  /** The system after the receiver read one frame with outcome `o`. */
  function Absorb(s: System, o: Outcome): System {
    var s' := Deliver(s.(fwd := s.fwd.Get()), o);
    if |o.disk.placed| > |s.disk.placed| then s'.(starts := [])
    else if s.receiver.pc.RAwaitStart? && o.r.pc.RLoop? then s'.(starts := s.starts + [o.r.offset])
    else s'
  }

  lemma ReadIsAbsorbed(cfg: Config, s: System)
    requires cfg.chunk > 0 && cfg.ckpt > 0 && Enabled(cfg, s, ReceiverReads)
    ensures Apply(cfg, s, ReceiverReads) == Absorb(s, OnNext(cfg, s.receiver, s.disk, s.fwd.log[s.fwd.next]))
  {
  }

  /** A read concerns the receiver's side only. */
  lemma AbsorbShape(s: System, o: Outcome)
    ensures var t := Absorb(s, o);
      && t.sender == s.sender && t.fwd == s.fwd.Get() && t.disk == o.disk && t.acked == s.acked && t.base == s.base
      && (t.receiver == o.r || t.receiver == o.r.(pc := RFailed))
      && (t.back == s.back || (o.reply.Some? && t.back == s.back.Put(o.reply.value)))
  {
  }

  function Run(cfg: Config, s: System, es: seq<Event>): System
    requires cfg.chunk > 0 && cfg.ckpt > 0
    decreases |es|
  {
    if es == [] then s else Run(cfg, Apply(cfg, s, es[0]), es[1..])
  }

  /** No byte string other than the source has the source's digest. */
  ghost predicate NoSecondPreimage(cfg: Config) {
    forall b: bytes :: cfg.hash(b) == cfg.hash(cfg.source) ==> b == cfg.source
  }

  /** No byte string other than a prefix of the source has that prefix's digest. */
  ghost predicate NoPrefixCollision(cfg: Config) {
    forall b: bytes, k: nat :: k <= cfg.Total() && cfg.hash(b) == cfg.hash(cfg.source[..k]) ==> b == cfg.source[..k]
  }
}
