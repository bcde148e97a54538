/** The resume guarantees are exact: the sizes for which they hold are the only ones, and the one
    window in which a crash can cost more than a checkpoint is real. */
module TransferExact {
  import opened Bytes
  import opened Wire
  import opened Transfer
  import opened TransferSession
  import opened TransferResume

  // ---- runs that go straight ahead --------------------------------------

  lemma {:induction false} RunConcat(cfg: Config, s: System, a: seq<Event>, b: seq<Event>)
    requires cfg.chunk > 0 && cfg.ckpt > 0
    ensures Run(cfg, s, a + b) == Run(cfg, Run(cfg, s, a), b)
    ensures Undisturbed(cfg, s, a) && Undisturbed(cfg, Run(cfg, s, a), b) ==> Undisturbed(cfg, s, a + b)
    decreases |a|
  {
    if a == [] {
      assert a + b == b;
    } else {
      assert (a + b)[1..] == a[1..] + b;
      RunConcat(cfg, Apply(cfg, s, a[0]), a[1..], b);
    }
  }

  lemma RunOne(cfg: Config, s: System, e: Event)
    requires cfg.chunk > 0 && cfg.ckpt > 0 && !Disturbs(s, e)
    ensures Run(cfg, s, [e]) == Apply(cfg, s, e) && Undisturbed(cfg, s, [e])
  {
    assert [e][1..] == [];
    assert Undisturbed(cfg, Apply(cfg, s, e), []);
  }

  /** Extend a run by one event. */
  lemma Then(cfg: Config, s: System, es: seq<Event>, e: Event)
    requires cfg.chunk > 0 && cfg.ckpt > 0 && Undisturbed(cfg, s, es) && !Disturbs(Run(cfg, s, es), e)
    ensures Undisturbed(cfg, s, es + [e]) && Run(cfg, s, es + [e]) == Apply(cfg, Run(cfg, s, es), e)
  {
    RunOne(cfg, Run(cfg, s, es), e);
    RunConcat(cfg, s, es, [e]);
  }

  /** The position of the last fsync after `k` data frames of a session that started at 0. */
  function Synced(cfg: Config, k: nat): nat {
    if k == 0 then 0
    else
      var before := Synced(cfg, k - 1);
      if Pos(cfg, 0, k) - before >= cfg.ckpt then Pos(cfg, 0, k) else before
  }

  /** Both ends have handled exactly `n` data frames of a session that started with no partial. */
  ghost predicate AtFrame(cfg: Config, s: System, n: nat)
    requires cfg.chunk > 0
  {
    Standing(cfg, s, 0, Synced(cfg, n), n) && s.disk.high == Pos(cfg, 0, n)
  }

  const EmptyDisk := Disk([], 0, 0, [])
  const FreshSystem := System(FreshSender, FreshReceiver, FreshChannel, FreshChannel, EmptyDisk, [], 0, 0)

  ghost predicate FreshSession(s: System) {
    && s.sender == FreshSender && s.receiver == FreshReceiver
    && s.fwd == FreshChannel && s.back == FreshChannel && s.disk.Valid()
  }

  /** Both ends after the receiver answered the OFFER with the `have` bytes it is credited with. */
  ghost predicate Resuming(cfg: Config, s: System, have: nat)
    requires cfg.chunk > 0 && have <= cfg.Total()
  {
    && SessionInv(cfg, s)
    && s.sender.pc.SAwaitResume? && s.fwd.up && s.fwd.next == |s.fwd.log| == 1
    && s.receiver.pc.RAwaitStart? && s.receiver.have == have == |s.disk.cur| && s.receiver.done.None?
    && s.back.next == 0 && |s.back.log| == 1
    && s.back.log[0] == Frame(RESUME, ResumeBody(have, cfg.hash(s.disk.cur)), s.receiver.frameLen)
  }

  lemma OfferRead(cfg: Config, s: System)
    requires cfg.Valid() && cfg.Accepts(cfg.Total()) && FreshSession(s)
    ensures var s1 := Apply(cfg, s, SendOffer);
      var s2 := Apply(cfg, s1, ReceiverReads);
      var have := Min(Credit(cfg, |s.disk.cur|), cfg.Total());
      && s1.receiver == s.receiver && Resuming(cfg, s2, have) && s2.disk == s.disk.SetLen(have) && s2.starts == s.starts
  {
    var offer := Frame(OFFER, U64Be(cfg.Total()), cfg.FrameLen());
    WordFrame(OFFER, cfg.Total(), cfg.FrameLen());
    ParseFrame(OFFER, U64Be(cfg.Total()), cfg.FrameLen());
    assert FreshChannel.log + [offer] == [offer];
    StepFollows(cfg, s, SendOffer);
    StepFollows(cfg, Apply(cfg, s, SendOffer), ReceiverReads);
  }

  /** The sender's answer: its offset is the receiver's, or 0 if the digests differ. */
  lemma StartSent(cfg: Config, s: System, have: nat, planned: nat)
    requires cfg.Valid() && have <= cfg.Total() && Resuming(cfg, s, have)
    requires planned >= RealFrames(cfg, ChooseOffset(cfg, have, cfg.hash(s.disk.cur)))
    ensures var t := Apply(cfg, s, SendStart(planned));
      var offset := ChooseOffset(cfg, have, cfg.hash(s.disk.cur));
      && Enabled(cfg, s, SendStart(planned)) && SessionInv(cfg, t) && t.receiver == s.receiver && t.disk == s.disk
      && t.starts == s.starts && t.sender.pc.SSending? && t.sender.offset == offset && t.sender.emitted == 0
      && t.fwd == s.fwd.Put(Frame(START, U64Be(offset), cfg.FrameLen()))
  {
    ResumeFrame(have, cfg.hash(s.disk.cur), s.receiver.frameLen);
    StepFollows(cfg, s, SendStart(planned));
  }

  lemma StartRead(cfg: Config, s: System, have: nat)
    requires cfg.Valid() && SessionInv(cfg, s) && have <= cfg.Total() && |s.disk.cur| == have
    requires s.sender.pc.SSending? && s.sender.offset <= have && s.sender.emitted == 0
    requires s.fwd.up && s.fwd.next == 1 && |s.fwd.log| == 2
    requires s.fwd.log[1] == Frame(START, U64Be(s.sender.offset), cfg.FrameLen())
    requires s.receiver.pc.RAwaitStart? && s.receiver.have == have && s.receiver.done.None?
    ensures var t, offset := Apply(cfg, s, ReceiverReads), s.sender.offset;
      Started(cfg, t, offset) && t.disk == s.disk.SetLen(offset) && t.starts == s.starts + [offset]
  {
    WordFrame(START, s.sender.offset, cfg.FrameLen());
    ReceiverFollows(cfg, s);
    ReadIsAbsorbed(cfg, s);
    StartedBy(cfg, s, OnStart(s.receiver, s.disk, s.fwd.log[1]));
  }

  lemma StartedBy(cfg: Config, s: System, o: Outcome)
    requires cfg.Valid() && SessionInv(cfg, Absorb(s, o)) && s.fwd.up && s.fwd.next == 1 && |s.fwd.log| == 2
    requires s.sender.pc.SSending? && s.sender.emitted == 0 && s.receiver.pc.RAwaitStart?
    requires o.reply.None? && o.r.pc.RLoop? && o.r.done.None? && o.r.offset == o.r.last == s.sender.offset
    requires o.disk.placed == s.disk.placed
    ensures Started(cfg, Absorb(s, o), s.sender.offset) && Absorb(s, o).starts == s.starts + [s.sender.offset]
  {
    AbsorbShape(s, o);
  }

  /** Both ends have agreed to start at `offset`, and no data is under way yet. */
  ghost predicate Started(cfg: Config, s: System, offset: nat)
    requires cfg.chunk > 0
  {
    && SessionInv(cfg, s) && s.fwd.up && s.fwd.next == |s.fwd.log| == 2
    && s.sender.pc.SSending? && s.sender.offset == offset && s.sender.emitted == 0
    && s.receiver.pc.RLoop? && s.receiver.done.None? && s.receiver.offset == s.receiver.last == offset
  }

  /** The disk once a session has started: cut to the offset, and no longer known durable past it. */
  ghost predicate CutTo(d: Disk, offset: nat, t: Disk) {
    && offset <= |d.cur| && t.cur == d.cur[..offset]
    && t.durable == Min(d.durable, offset) && t.high == d.high && t.placed == d.placed
  }

  lemma CutTwice(d: Disk, have: nat, offset: nat)
    requires offset <= have <= |d.cur|
    ensures CutTo(d, offset, d.SetLen(have).SetLen(offset))
  {
    assert d.cur[..have][..offset] == d.cur[..offset];
  }

  /** Any session can get as far as its first frame boundary. */
  lemma Begun(cfg: Config, s: System) returns (es: seq<Event>)
    requires cfg.Valid() && cfg.Accepts(cfg.Total()) && FreshSession(s)
    ensures var t, offset := Run(cfg, s, es), StartOffset(cfg, s.disk);
      && Undisturbed(cfg, s, es) && Started(cfg, t, offset) && CutTo(s.disk, offset, t.disk)
      && t.starts == s.starts + [offset]
  {
    var have := Min(Credit(cfg, |s.disk.cur|), cfg.Total());
    var offset := StartOffset(cfg, s.disk);
    var start := SendStart(RealFrames(cfg, offset));
    OfferRead(cfg, s);
    RunOne(cfg, s, SendOffer);
    Then(cfg, s, [SendOffer], ReceiverReads);
    es := [SendOffer] + [ReceiverReads];
    StartSent(cfg, Run(cfg, s, es), have, RealFrames(cfg, offset));
    Then(cfg, s, es, start);
    es := es + [start];
    StartRead(cfg, Run(cfg, s, es), have);
    CutTwice(s.disk, have, offset);
    Then(cfg, s, es, ReceiverReads);
    es := es + [ReceiverReads];
  }

  lemma Open(cfg: Config) returns (es: seq<Event>)
    requires cfg.Valid() && cfg.Accepts(cfg.Total())
    ensures Undisturbed(cfg, FreshSystem, es) && AtFrame(cfg, Run(cfg, FreshSystem, es), 0)
    ensures Run(cfg, FreshSystem, es).starts == [0]
  {
    es := Begun(cfg, FreshSystem);
    PosStep(cfg, 0, 0);
    assert EmptyDisk.cur[..0] == [] == cfg.source[..0];
  }

  /** Both ends have handled exactly `n` data frames of a session that started at `offset`, and the last
      fsync was at `last`. */
  ghost predicate Standing(cfg: Config, s: System, offset: nat, last: nat, n: nat)
    requires cfg.chunk > 0
  {
    && SessionInv(cfg, s) && s.fwd.up && s.fwd.next == |s.fwd.log| == 2 + n
    && s.sender.pc.SSending? && s.sender.offset == offset && s.sender.emitted == n
    && s.receiver.pc.RLoop? && s.receiver.done.None? && s.receiver.last == last
    && s.disk.cur == cfg.source[..Pos(cfg, offset, n)] && s.disk.durable == last
  }

  /** Frame `n` is on the wire and not yet read. */
  ghost predicate UnderWay(cfg: Config, s: System, offset: nat, last: nat, n: nat)
    requires cfg.chunk > 0
  {
    && SessionInv(cfg, s) && s.fwd.up && s.fwd.next == 2 + n && |s.fwd.log| == 3 + n
    && s.sender.pc.SSending? && s.sender.offset == offset && s.sender.emitted == n + 1
    && s.fwd.log[2 + n] == Frame(DATA, cfg.source[Pos(cfg, offset, n)..Pos(cfg, offset, n + 1)], cfg.FrameLen())
    && s.receiver.pc.RLoop? && s.receiver.done.None? && s.receiver.last == last
    && s.disk.cur == cfg.source[..Pos(cfg, offset, n)] && s.disk.durable == last
  }

  lemma FrameSent(cfg: Config, s: System, offset: nat, last: nat, n: nat)
    requires cfg.Valid() && Standing(cfg, s, offset, last, n) && n < RealFrames(cfg, offset)
    ensures var t := Apply(cfg, s, SendData);
      t.receiver == s.receiver && t.disk == s.disk && t.starts == s.starts && UnderWay(cfg, t, offset, last, n)
  {
    PosStep(cfg, offset, n);
    DataSent(cfg, s);
  }

  /** What the receiver makes of it. */
  lemma FrameTaken(cfg: Config, r: Receiver, d: Disk, offset: nat, n: nat)
    requires cfg.Valid() && cfg.chunk >= 8 && offset <= cfg.Total() && n < RealFrames(cfg, offset)
    requires r.pc.RLoop? && r.done.None? && r.frameLen == FrameSize(8, cfg.FrameLen())
    requires r.received == Pos(cfg, offset, n) && r.total == cfg.Total() && d.cur == cfg.source[..Pos(cfg, offset, n)]
    ensures var next := Pos(cfg, offset, n + 1);
      var o := OnFrame(cfg, r, d, Frame(DATA, cfg.source[Pos(cfg, offset, n)..next], cfg.FrameLen()));
      && o.reply.None? && o.r.done.None? && o.r.last == r.last && o.r.received == next
      && o.r.pc == (if next - r.last >= cfg.ckpt then RSyncDue else RLoop)
      && o.disk == Disk(cfg.source[..next], d.durable, Max(d.high, next), d.placed)
  {
    PosStep(cfg, offset, n);
    var piece := cfg.source[Pos(cfg, offset, n)..Pos(cfg, offset, n + 1)];
    ParseFrame(DATA, piece, cfg.FrameLen());
    assert d.cur + piece == cfg.source[..Pos(cfg, offset, n + 1)];
  }

  /** One data frame sent, read and appended, the fsync it makes due still to come. */
  lemma FrameWritten(cfg: Config, s: System, offset: nat, last: nat, n: nat)
    requires cfg.Valid() && cfg.chunk >= 8 && Standing(cfg, s, offset, last, n) && n < RealFrames(cfg, offset)
    ensures var s1 := Apply(cfg, s, SendData);
      var s2, next := Apply(cfg, s1, ReceiverReads), Pos(cfg, offset, n + 1);
      && s1.receiver == s.receiver && SessionInv(cfg, s2) && s2.starts == s.starts
      && s2.sender.pc.SSending? && s2.sender.offset == offset && s2.sender.emitted == n + 1
      && s2.fwd.up && s2.fwd.next == |s2.fwd.log| == 3 + n
      && s2.receiver.done.None? && s2.receiver.last == last && s2.receiver.received == next
      && s2.receiver.pc == (if next - last >= cfg.ckpt then RSyncDue else RLoop)
      && s2.disk == Disk(cfg.source[..next], last, Max(s.disk.high, next), s.disk.placed)
  {
    FrameSent(cfg, s, offset, last, n);
    var s1 := Apply(cfg, s, SendData);
    FrameTaken(cfg, s1.receiver, s1.disk, offset, n);
    ReceiverFollows(cfg, s1);
    ReadIsAbsorbed(cfg, s1);
    AbsorbShape(s1, OnNext(cfg, s1.receiver, s1.disk, s1.fwd.log[s1.fwd.next]));
  }

  lemma FrameSynced(cfg: Config, s: System, n: nat)
    requires cfg.Valid() && SessionInv(cfg, s) && s.fwd.up && s.fwd.next == |s.fwd.log| == 3 + n
    requires s.sender.pc.SSending? && s.sender.offset == 0 && s.sender.emitted == n + 1
    requires s.receiver.done.None? && s.receiver.last == Synced(cfg, n) && s.receiver.received == Pos(cfg, 0, n + 1)
    requires s.receiver.pc == (if Pos(cfg, 0, n + 1) - Synced(cfg, n) >= cfg.ckpt then RSyncDue else RLoop)
    requires s.disk == Disk(cfg.source[..Pos(cfg, 0, n + 1)], Synced(cfg, n), Pos(cfg, 0, n + 1), s.disk.placed)
    ensures AtFrame(cfg, if s.receiver.pc.RSyncDue? then Apply(cfg, s, ReceiverSyncs) else s, n + 1)
  {
    StepFollows(cfg, s, ReceiverSyncs);
  }

  lemma OneFrame(cfg: Config, s: System, n: nat) returns (es: seq<Event>)
    requires cfg.Valid() && cfg.chunk >= 8 && AtFrame(cfg, s, n) && n < RealFrames(cfg, 0)
    ensures Undisturbed(cfg, s, es) && AtFrame(cfg, Run(cfg, s, es), n + 1) && Run(cfg, s, es).starts == s.starts
  {
    FrameWritten(cfg, s, 0, Synced(cfg, n), n);
    PosStep(cfg, 0, n);
    var s1 := Apply(cfg, s, SendData);
    var s2 := Apply(cfg, s1, ReceiverReads);
    FrameSynced(cfg, s2, n);
    assert !s1.receiver.pc.RSyncDue?;
    es := TwoOrThree(cfg, s, SendData, ReceiverReads, s2.receiver.pc.RSyncDue?);
  }

  lemma TwoOrThree(cfg: Config, s: System, a: Event, b: Event, sync: bool) returns (es: seq<Event>)
    requires cfg.chunk > 0 && cfg.ckpt > 0 && !Disturbs(s, a) && !Disturbs(Apply(cfg, s, a), b)
    ensures var t := Apply(cfg, Apply(cfg, s, a), b);
      Undisturbed(cfg, s, es) && Run(cfg, s, es) == if sync then Apply(cfg, t, ReceiverSyncs) else t
  {
    RunOne(cfg, s, a);
    Then(cfg, s, [a], b);
    es := [a] + [b];
    if sync {
      Then(cfg, s, es, ReceiverSyncs);
      es := es + [ReceiverSyncs];
    }
  }

  lemma {:induction false} Steady(cfg: Config, n: nat) returns (es: seq<Event>)
    requires cfg.Valid() && cfg.chunk >= 8 && cfg.Accepts(cfg.Total()) && n <= RealFrames(cfg, 0)
    ensures Undisturbed(cfg, FreshSystem, es) && AtFrame(cfg, Run(cfg, FreshSystem, es), n)
    ensures Run(cfg, FreshSystem, es).starts == [0]
    decreases n
  {
    if n == 0 {
      es := Open(cfg);
    } else {
      var head := Steady(cfg, n - 1);
      var tail := OneFrame(cfg, Run(cfg, FreshSystem, head), n - 1);
      RunConcat(cfg, FreshSystem, head, tail);
      es := head + tail;
    }
  }

  // ---- sizes that do not divide each other ------------------------------

  /** Full frames after an fsync at frame `n`: none of the next `m - 1` is synced. */
  lemma {:induction false} NoSyncBefore(cfg: Config, m: nat, n: nat, i: nat)
    requires cfg.chunk > 0 && i < m && (m - 1) * cfg.chunk < cfg.ckpt
    requires (n + i) * cfg.chunk <= cfg.Total() && Synced(cfg, n) == n * cfg.chunk
    ensures Synced(cfg, n + i) == n * cfg.chunk
    decreases i
  {
    if i > 0 {
      Product(n + i - 1, n + i, cfg.chunk, cfg.chunk);
      NoSyncBefore(cfg, m, n, i - 1);
      Distribute(n, i, cfg.chunk);
      Product(i, m - 1, cfg.chunk, cfg.chunk);
    }
  }

  /** Full frames only: an fsync after every `m`-th. */
  lemma {:induction false} SyncAtBlocks(cfg: Config, m: nat, j: nat)
    requires cfg.chunk > 0 && m >= 1 && (m - 1) * cfg.chunk < cfg.ckpt <= m * cfg.chunk
    requires (j * m) * cfg.chunk <= cfg.Total()
    ensures Synced(cfg, j * m) == (j * m) * cfg.chunk
    decreases j
  {
    if j > 0 {
      var n := (j - 1) * m;
      Distribute(j - 1, 1, m);
      assert j * m == n + m;
      Product(n, n + m, cfg.chunk, cfg.chunk);
      Product(n + m - 1, n + m, cfg.chunk, cfg.chunk);
      SyncAtBlocks(cfg, m, j - 1);
      NoSyncBefore(cfg, m, n, m - 1);
      Distribute(n, m, cfg.chunk);
    }
  }

  /** An fsync so late that the rest of the payload makes no other due. */
  lemma {:induction false} NoSyncAfter(cfg: Config, n: nat, i: nat)
    requires cfg.Total() < Synced(cfg, n) + cfg.ckpt
    ensures Synced(cfg, n + i) == Synced(cfg, n)
    decreases i
  {
    if i > 0 { NoSyncAfter(cfg, n, i - 1); }
  }

  /** A crash after `n` frames is credited past the last fsync if the position then is. */
  lemma Exposed(cfg: Config, n: nat) returns (es: seq<Event>)
    requires cfg.Valid() && cfg.chunk >= 8 && cfg.maxTotal.None? && n <= RealFrames(cfg, 0)
    requires Credit(cfg, Pos(cfg, 0, n)) > Synced(cfg, n)
    ensures Undisturbed(cfg, FreshSystem, es)
    ensures var t := Run(cfg, FreshSystem, es); t.receiver.pc.RLoop? && !CrashIsCheap(cfg, t)
  {
    es := Steady(cfg, n);
    var t := Run(cfg, FreshSystem, es);
    assert t.disk.MayCrashTo(t.disk.cur) && |t.disk.cur| == Pos(cfg, 0, n);
  }

  /** For every digest, chunk size of at least 8 and checkpoint of which neither divides the other, and
      twice the checkpoint within 64 bits: there are a payload and a run, never disturbed and stopped
      at a frame boundary, after which a power cut may be credited with bytes that were never fsynced. */
  lemma MisalignedIsUnsafe(chunk: nat, ckpt: nat, hash: bytes -> Digest) returns (cfg: Config, es: seq<Event>)
    requires 1 <= chunk <= MAX_FRAME_LEN - HEADER_LEN && 1 <= ckpt && !Aligned(chunk, ckpt)
    ensures cfg.Valid() && cfg.chunk == chunk && cfg.ckpt == ckpt && cfg.hash == hash
    ensures Undisturbed(cfg, FreshSystem, es)
    ensures var t := Run(cfg, FreshSystem, es); t.receiver.pc.RLoop? && !CrashIsCheap(cfg, t)
  {
    var n;
    cfg, n := MisalignedPayload(chunk, ckpt, hash);
    es := Exposed(cfg, n);
  }

  /** A payload whose first `n` frames reach a multiple of the checkpoint past the last fsync. */
  lemma MisalignedPayload(chunk: nat, ckpt: nat, hash: bytes -> Digest) returns (cfg: Config, n: nat)
    requires 1 <= chunk <= MAX_FRAME_LEN - HEADER_LEN && 1 <= ckpt && !Aligned(chunk, ckpt)
    ensures cfg.Valid() && cfg.chunk == chunk && cfg.ckpt == ckpt && cfg.hash == hash && cfg.maxTotal.None?
    ensures n <= RealFrames(cfg, 0) && Credit(cfg, Pos(cfg, 0, n)) > Synced(cfg, n)
  {
    if chunk < ckpt {
      cfg := Config(Zeros(2 * ckpt), chunk, ckpt, None, hash);
      SecondCheckpointUnsynced(cfg);
      n := RealFrames(cfg, 0);
    } else {
      cfg := Config(Zeros(chunk + (ckpt - chunk % ckpt)), chunk, ckpt, None, hash);
      TailPosition(cfg);
      n := 2;
    }
  }

  /** A payload of two checkpoints: the first fsync comes late, and so the second does not come. */
  lemma SecondCheckpointUnsynced(cfg: Config)
    requires 0 < cfg.chunk < cfg.ckpt && cfg.ckpt % cfg.chunk != 0 && cfg.Total() == 2 * cfg.ckpt
    ensures var n := RealFrames(cfg, 0); Credit(cfg, Pos(cfg, 0, n)) > Synced(cfg, n)
  {
    var m, n := DivCeil(cfg.ckpt, cfg.chunk), RealFrames(cfg, 0);
    if m * cfg.chunk == cfg.ckpt { MultipleMod(m, cfg.chunk); }
    Distribute(m - 1, 1, cfg.chunk);
    assert 1 * m == m;
    SyncAtBlocks(cfg, m, 1);
    if n < m { Product(n, m - 1, cfg.chunk, cfg.chunk); }
    NoSyncAfter(cfg, m, n - m);
    PosStep(cfg, 0, n);
    CreditReaches(cfg, cfg.Total(), 2);
  }

  lemma TailPosition(cfg: Config)
    requires 1 <= cfg.ckpt <= cfg.chunk && cfg.chunk % cfg.ckpt != 0
    requires cfg.Total() == cfg.chunk + (cfg.ckpt - cfg.chunk % cfg.ckpt)
    ensures 2 <= RealFrames(cfg, 0) && Credit(cfg, Pos(cfg, 0, 2)) > Synced(cfg, 2)
  {
    PosStep(cfg, 0, 0);
    PosStep(cfg, 0, 1);
    assert Synced(cfg, 0) == 0 && Synced(cfg, 1) == cfg.chunk;
    assert Pos(cfg, 0, 2) == cfg.Total();
    assert Synced(cfg, 2) == cfg.chunk;
    Distribute(cfg.chunk / cfg.ckpt, 1, cfg.ckpt);
    assert cfg.Total() == (cfg.chunk / cfg.ckpt + 1) * cfg.ckpt;
    CreditReaches(cfg, cfg.Total(), cfg.chunk / cfg.ckpt + 1);
  }

  lemma CreditReaches(cfg: Config, n: nat, k: nat)
    requires cfg.ckpt > 0 && k * cfg.ckpt <= n
    ensures Credit(cfg, n) >= k * cfg.ckpt
  {
    MultipleMod(k, cfg.ckpt);
    if Credit(cfg, n) < k * cfg.ckpt { MultiplesApart(Credit(cfg, n), k * cfg.ckpt, cfg.ckpt); }
  }

  // ---- disks that shelter nothing ---------------------------------------

  /** What a power cut may be credited with once a session has started on a disk that is not
      sheltered: more than is durable. */
  lemma Unsheltered(cfg: Config, d: Disk)
    requires cfg.Valid() && NoPrefixCollision(cfg) && d.Valid() && !Sheltered(cfg, d)
    ensures Credit(cfg, d.high) > Min(d.durable, StartOffset(cfg, d))
  {
    var k := Credit(cfg, d.durable);
    if d.high >= k + cfg.ckpt {
      MultipleMod(1, cfg.ckpt);
      MultiplesAdd(k, cfg.ckpt, cfg.ckpt);
      FloorToUnique(k + cfg.ckpt, k + cfg.ckpt, cfg.ckpt);
      CreditMonotone(cfg, k + cfg.ckpt, d.high);
    } else {
      FloorToUnique(d.high, k, cfg.ckpt);
      FloorToUnique(|d.cur|, k, cfg.ckpt);
      if k <= cfg.Total() {
        assert d.cur[..k] != cfg.source[..k];
        assert cfg.hash(d.cur[..k]) != cfg.hash(cfg.source[..k]);
      }
    }
  }

  /** Whatever disk is not sheltered (the partial of another source in particular, which the sender
      makes the receiver cut without an fsync) is exposed at the first frame boundary of the first
      session, for any sizes. */
  lemma UnshelteredIsUnsafe(cfg: Config, s: System) returns (es: seq<Event>)
    requires cfg.Valid() && cfg.Accepts(cfg.Total()) && NoPrefixCollision(cfg)
    requires FreshSession(s) && !Sheltered(cfg, s.disk)
    ensures Undisturbed(cfg, s, es)
    ensures var t := Run(cfg, s, es); t.receiver.pc.RLoop? && !CrashIsCheap(cfg, t)
  {
    es := Begun(cfg, s);
    var d := Run(cfg, s, es).disk;
    Unsheltered(cfg, s.disk);
    var left := d.cur[..d.durable] + Zeros(d.high - d.durable);
    assert left[..d.durable] == d.cur[..d.durable];
    assert d.MayCrashTo(left) && |left| == d.high;
  }

  /** At every frame boundary of every undisturbed run from `s` a crash is cheap. */
  ghost predicate AlwaysCheap(cfg: Config, s: System)
    requires cfg.chunk > 0 && cfg.ckpt > 0
  {
    forall es: seq<Event> | Undisturbed(cfg, s, es) && Run(cfg, s, es).receiver.pc.RLoop?
      :: CrashIsCheap(cfg, Run(cfg, s, es))
  }

  lemma ShelterHolds(cfg: Config, s: System)
    requires cfg.Valid() && Aligned(cfg.chunk, cfg.ckpt) && Initial(s) && Sheltered(cfg, s.disk)
    ensures AlwaysCheap(cfg, s)
  {
    forall es: seq<Event> | Undisturbed(cfg, s, es) && Run(cfg, s, es).receiver.pc.RLoop?
      ensures CrashIsCheap(cfg, Run(cfg, s, es))
    {
      ResumeNeverLosesGround(cfg, s, es);
    }
  }

  /** An offer over the receiver's limit gets no further. */
  ghost predicate TurnedAway(cfg: Config, s: System)
    requires cfg.chunk > 0
  {
    SessionInv(cfg, s) && (s.receiver.pc.RAwaitOffer? || s.receiver.pc.RFailed?) && s.starts == []
  }

  lemma {:induction false} NeverStarts(cfg: Config, s: System, es: seq<Event>)
    requires cfg.Valid() && !cfg.Accepts(cfg.Total()) && TurnedAway(cfg, s)
    ensures TurnedAway(cfg, Run(cfg, s, es))
    decreases |es|
  {
    if es != [] {
      StaysAway(cfg, s, es[0]);
      NeverStarts(cfg, Apply(cfg, s, es[0]), es[1..]);
    }
  }

  lemma StaysAway(cfg: Config, s: System, e: Event)
    requires cfg.Valid() && !cfg.Accepts(cfg.Total()) && TurnedAway(cfg, s)
    ensures TurnedAway(cfg, Apply(cfg, s, e))
  {
    StepFollows(cfg, s, e);
    if e.ReceiverReads? && Enabled(cfg, s, e) { OfferRefused(cfg, s); }
  }

  lemma OfferRefused(cfg: Config, s: System)
    requires cfg.Valid() && !cfg.Accepts(cfg.Total()) && TurnedAway(cfg, s) && Enabled(cfg, s, ReceiverReads)
    ensures Apply(cfg, s, ReceiverReads).receiver.pc.RFailed? && Apply(cfg, s, ReceiverReads).starts == []
  {
    WordFrame(OFFER, cfg.Total(), cfg.FrameLen());
  }

  lemma NothingToLose(cfg: Config, s: System)
    requires cfg.Valid() && !cfg.Accepts(cfg.Total()) && Initial(s)
    ensures AlwaysCheap(cfg, s)
  {
    forall es: seq<Event> | Undisturbed(cfg, s, es) ensures !Run(cfg, s, es).receiver.pc.RLoop? {
      NeverStarts(cfg, s, es);
    }
  }

  /** With aligned sizes, crashes at frame boundaries are cheap in all undisturbed runs from a disk if
      and only if the disk is sheltered, for every disk whatever; an offer over the receiver's limit
      has no frame boundaries. */
  lemma CheapExactlyWhenSheltered(cfg: Config, s: System)
    requires cfg.Valid() && Aligned(cfg.chunk, cfg.ckpt) && NoPrefixCollision(cfg) && Initial(s)
    ensures AlwaysCheap(cfg, s) <==> Sheltered(cfg, s.disk) || !cfg.Accepts(cfg.Total())
  {
    if !cfg.Accepts(cfg.Total()) {
      NothingToLose(cfg, s);
    } else if Sheltered(cfg, s.disk) {
      ShelterHolds(cfg, s);
    } else {
      var es := UnshelteredIsUnsafe(cfg, s);
    }
  }

  /** The sizes and the digest are such that shelter suffices, for every payload and disk. */
  ghost predicate ShelterSuffices(chunk: nat, ckpt: nat, hash: bytes -> Digest)
    requires chunk > 0 && ckpt > 0
  {
    forall cfg: Config, s: System |
      cfg.Valid() && cfg.chunk == chunk && cfg.ckpt == ckpt && cfg.hash == hash && Initial(s) && Sheltered(cfg, s.disk)
      :: AlwaysCheap(cfg, s)
  }

  /** A crash at a frame boundary never credits unsynced bytes, for every payload and sheltered disk,
      exactly when one of the two sizes divides the other (or chunks are too short to be accepted at
      all, or no payload reaches a second checkpoint); and so for each digest. */
  lemma CheapExactlyWhenAligned(chunk: nat, ckpt: nat, hash: bytes -> Digest)
    requires 1 <= chunk <= MAX_FRAME_LEN - HEADER_LEN && 1 <= ckpt
    ensures ShelterSuffices(chunk, ckpt, hash) <==> Aligned(chunk, ckpt)
  {
    if Aligned(chunk, ckpt) {
      forall cfg: Config, s: System |
        cfg.Valid() && cfg.chunk == chunk && cfg.ckpt == ckpt && cfg.hash == hash && Initial(s) && Sheltered(cfg, s.disk)
        ensures AlwaysCheap(cfg, s)
      {
        ShelterHolds(cfg, s);
      }
    } else {
      var cfg, es := MisalignedIsUnsafe(chunk, ckpt, hash);
      EmptyIsSheltered(cfg);
    }
  }

  lemma EmptyIsSheltered(cfg: Config)
    requires cfg.Valid()
    ensures Sheltered(cfg, EmptyDisk) && Initial(FreshSystem)
  {
    FloorToUnique(0, 0, cfg.ckpt);
  }

  // ---- the window between a write and its fsync -------------------------

  /** The least whole number of frames that makes an fsync due, in bytes. */
  function Block(cfg: Config): nat
    requires cfg.chunk > 0
  {
    DivCeil(cfg.ckpt, cfg.chunk) * cfg.chunk
  }

  /** What a power cut may leave between the write that ends a block and its fsync: the durable blocks,
      then anything up to the length written, and not the source as far as it is credited. */
  ghost predicate Garbled(cfg: Config, j: nat, left: bytes)
    requires cfg.chunk > 0 && cfg.ckpt > 0
  {
    var durable, written, have := j * Block(cfg), (j + 1) * Block(cfg), Credit(cfg, |left|);
    && durable <= |left| <= written <= cfg.Total()
    && left[..durable] == cfg.source[..durable]
    && cfg.hash(left[..have]) != cfg.hash(cfg.source[..have])
  }

  /** For every chunk size of at least 8 and every checkpoint, however many blocks are durable: a crash
      in that window that garbles the unsynced bytes makes the next session start over from 0. */
  lemma WindowCrashCostsEverything(cfg: Config, j: nat, left: bytes) returns (es: seq<Event>, rest: seq<Event>)
    requires cfg.Valid() && cfg.Accepts(cfg.Total()) && cfg.chunk >= 8 && Garbled(cfg, j, left)
    ensures var s := Run(cfg, FreshSystem, es);
      && Undisturbed(cfg, FreshSystem, es) && s.receiver.pc.RSyncDue? && s.disk.durable == j * Block(cfg)
      && Enabled(cfg, s, Crash(left))
      && var t := Run(cfg, Apply(cfg, Apply(cfg, s, Crash(left)), Reconnect), rest);
         t.receiver.pc.RLoop? && t.receiver.offset == 0 && t.disk.cur == []
  {
    es := ReachWindow(cfg, j);
    rest := AfterWindow(cfg, Run(cfg, FreshSystem, es), j, left);
  }

  /** The last frame of block `j`, and where the stream stands around it. */
  lemma BlockEnd(cfg: Config, j: nat) returns (n: nat)
    requires cfg.chunk > 0 && cfg.ckpt > 0 && (j + 1) * Block(cfg) <= cfg.Total()
    ensures n < RealFrames(cfg, 0) && Synced(cfg, n) == j * Block(cfg) && Pos(cfg, 0, n + 1) == (j + 1) * Block(cfg)
    ensures Block(cfg) >= cfg.ckpt && j * Block(cfg) + Block(cfg) == (j + 1) * Block(cfg)
  {
    var m := DivCeil(cfg.ckpt, cfg.chunk);
    var p := j * m;
    n := p + (m - 1);
    assert j * Block(cfg) == p * cfg.chunk;
    Distribute(j, 1, m);
    assert (j + 1) * Block(cfg) == (n + 1) * cfg.chunk by { assert (j + 1) * m == n + 1; }
    Distribute(j, 1, Block(cfg));
    Product(p, n + 1, cfg.chunk, cfg.chunk);
    Product(n, n + 1, cfg.chunk, cfg.chunk);
    SyncAtBlocks(cfg, m, j);
    NoSyncBefore(cfg, m, p, m - 1);
    FramesCover(cfg, n);
  }

  lemma ReachWindow(cfg: Config, j: nat) returns (es: seq<Event>)
    requires cfg.Valid() && cfg.Accepts(cfg.Total()) && cfg.chunk >= 8 && (j + 1) * Block(cfg) <= cfg.Total()
    ensures var s, written := Run(cfg, FreshSystem, es), (j + 1) * Block(cfg);
      && Undisturbed(cfg, FreshSystem, es) && s.receiver.pc.RSyncDue? && s.starts == [0]
      && s.disk == Disk(cfg.source[..written], j * Block(cfg), written, s.disk.placed)
  {
    var n := BlockEnd(cfg, j);
    var head := Steady(cfg, n);
    var s0 := Run(cfg, FreshSystem, head);
    FrameWritten(cfg, s0, 0, Synced(cfg, n), n);
    PosStep(cfg, 0, n);
    var pair := TwoOrThree(cfg, s0, SendData, ReceiverReads, false);
    RunConcat(cfg, FreshSystem, head, pair);
    es := head + pair;
  }

  lemma AfterWindow(cfg: Config, s: System, j: nat, left: bytes) returns (rest: seq<Event>)
    requires cfg.Valid() && cfg.Accepts(cfg.Total()) && Garbled(cfg, j, left)
    requires var written := (j + 1) * Block(cfg);
      s.disk == Disk(cfg.source[..written], j * Block(cfg), written, s.disk.placed)
    ensures Enabled(cfg, s, Crash(left))
    ensures var t := Run(cfg, Apply(cfg, Apply(cfg, s, Crash(left)), Reconnect), rest);
      t.receiver.pc.RLoop? && t.receiver.offset == 0 && t.disk.cur == []
  {
    var durable := j * Block(cfg);
    assert s.disk.cur[..durable] == cfg.source[..durable];
    var t := Apply(cfg, Apply(cfg, s, Crash(left)), Reconnect);
    assert StartOffset(cfg, t.disk) == 0;
    rest := Begun(cfg, t);
  }

  lemma FramesCover(cfg: Config, n: nat)
    requires cfg.chunk > 0 && (n + 1) * cfg.chunk <= cfg.Total()
    ensures n < RealFrames(cfg, 0) && Pos(cfg, 0, n) == n * cfg.chunk && Pos(cfg, 0, n + 1) == (n + 1) * cfg.chunk
  {
    Product(n, n + 1, cfg.chunk, cfg.chunk);
    Distribute(n, 1, cfg.chunk);
    PosStep(cfg, 0, n);
  }
}
