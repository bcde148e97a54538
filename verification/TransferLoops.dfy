/** `send`, `recv` and `hash_prefix` in the form the implementation has: loops over local variables
    and a file that is changed in place, proved against the step machines. */
module TransferLoops {
  import opened Bytes
  import opened Wire
  import opened Transfer
  import opened TransferSafety
  import opened TransferSession

  /** Feed `file[..len]` to a hasher one buffer at a time. */
  method HashPrefix(file: bytes, len: nat, bufLen: nat) returns (fed: bytes)
    requires len <= |file| && bufLen > 0
    ensures fed == file[..len]
  {
    fed := [];
    var read := 0;
    while read < len
      invariant read <= len && fed == file[..read]
    {
      var want := Min(len - read, bufLen);
      fed := fed + file[read..read + want];
      read := read + want;
    }
  }

  /** The `.part` file beside its destination, changed in place. */
  class PartialFile {
    var cur: bytes
    var durable: nat
    var high: nat
    var placed: seq<bytes>

    ghost function Value(): Disk
      reads this
    {
      Disk(cur, durable, high, placed)
    }

    constructor (d: Disk)
      ensures Value() == d
    {
      cur, durable, high, placed := d.cur, d.durable, d.high, d.placed;
    }

    method SetLen(n: nat)
      requires n <= |cur|
      modifies this
      ensures Value() == old(Value()).SetLen(n)
    {
      cur, durable := cur[..n], Min(durable, n);
    }

    method WriteAll(b: bytes)
      modifies this
      ensures Value() == old(Value()).Append(b)
    {
      cur := cur + b;
      high := Max(high, |cur|);
    }

    method SyncData()
      modifies this
      ensures Value() == old(Value()).Sync()
    {
      durable, high := |cur|, |cur|;
    }

    method RenameIntoPlace()
      modifies this
      ensures Value() == old(Value()).Place()
    {
      placed := placed + [cur];
      cur, durable, high := [], 0, 0;
    }
  }

  /** What a receive session sends back over a sequence of frames. */
  function Replies(cfg: Config, r: Receiver, d: Disk, frames: seq<bytes>): seq<bytes>
    requires cfg.ckpt > 0
    decreases |frames|
  {
    if frames == [] then []
    else
      var o := ReadAndSync(cfg, r, d, frames[0]);
      Reply(cfg, r, d, frames[0]) + Replies(cfg, o.r, o.disk, frames[1..])
  }

  function Reply(cfg: Config, r: Receiver, d: Disk, raw: bytes): seq<bytes>
    requires cfg.ckpt > 0
  {
    var o := OnNext(cfg, r, d, raw);
    if o.reply.Some? then [o.reply.value] else []
  }

  /** One receive session: take frames from `inbox` until it ends (the link is gone, or a cancel was
      seen), the receiver fails, or the session is over. */
  method Recv(cfg: Config, file: PartialFile, inbox: seq<bytes>, bufLen: nat) returns (r: Receiver, sent: seq<bytes>)
    requires cfg.Valid() && bufLen > 0 && file.Value().Valid()
    modifies file
    ensures var o := Receive(cfg, FreshReceiver, old(file.Value()), inbox);
      r == o.r && file.Value() == o.disk
    ensures sent == Replies(cfg, FreshReceiver, old(file.Value()), inbox)
  {
    r, sent := FreshReceiver, [];
    var i := 0;
    ghost var start := file.Value();
    assert inbox[0..] == inbox;
    while i < |inbox| && !r.pc.ROk? && !r.pc.RFailed?
      invariant i <= |inbox| && !r.pc.RSyncDue? && ReceiverInv(cfg, r, file.Value()) && file.Value().Valid()
      invariant Ahead(cfg, start, inbox, r, file.Value(), inbox[i..], sent)
    {
      FrameFromAnyone(cfg, r, file.Value(), inbox[i]);
      assert inbox[i..] == [inbox[i]] + inbox[i + 1..];
      GoesAhead(cfg, start, inbox, r, file.Value(), inbox[i], inbox[i + 1..], sent);
      var reply;
      r, reply := TakeNext(cfg, r, file, inbox[i], bufLen);
      sent := sent + reply;
      i := i + 1;
    }
    Over(cfg, r, file.Value(), inbox[i..]);
  }

  /** The session has come to (r, d) with `rest` to read and `sent` said. */
  ghost predicate Ahead(
    cfg: Config, start: Disk, inbox: seq<bytes>, r: Receiver, d: Disk, rest: seq<bytes>, sent: seq<bytes>)
    requires cfg.ckpt > 0
  {
    && Receive(cfg, FreshReceiver, start, inbox) == Receive(cfg, r, d, rest)
    && Replies(cfg, FreshReceiver, start, inbox) == sent + Replies(cfg, r, d, rest)
  }

  lemma GoesAhead(
    cfg: Config, start: Disk, inbox: seq<bytes>, r: Receiver, d: Disk, raw: bytes, rest: seq<bytes>, sent: seq<bytes>)
    requires cfg.ckpt > 0 && Ahead(cfg, start, inbox, r, d, [raw] + rest, sent)
    ensures var o := ReadAndSync(cfg, r, d, raw);
      Ahead(cfg, start, inbox, o.r, o.disk, rest, sent + Reply(cfg, r, d, raw))
  {
    ConsParts(raw, rest);
    var o := ReadAndSync(cfg, r, d, raw);
    var now, more := Reply(cfg, r, d, raw), Replies(cfg, o.r, o.disk, rest);
    assert sent + (now + more) == (sent + now) + more;
  }

  /** A receiver that has finished or failed reads nothing more, and says nothing more. */
  lemma {:induction false} Over(cfg: Config, r: Receiver, d: Disk, frames: seq<bytes>)
    requires cfg.ckpt > 0 && (r.pc.ROk? || r.pc.RFailed? || frames == [])
    ensures Receive(cfg, r, d, frames).r == r && Receive(cfg, r, d, frames).disk == d && Replies(cfg, r, d, frames) == []
    decreases |frames|
  {
    if frames != [] { Over(cfg, r, d, frames[1..]); }
  }

  method TakeNext(cfg: Config, r0: Receiver, file: PartialFile, raw: bytes, bufLen: nat)
    returns (r: Receiver, reply: seq<bytes>)
    requires cfg.Valid() && bufLen > 0 && (r0.pc.RAwaitOffer? || r0.pc.RAwaitStart? || r0.pc.RLoop?)
    requires ReceiverInv(cfg, r0, file.Value())
    modifies file
    ensures var o := ReadAndSync(cfg, r0, old(file.Value()), raw); r == o.r && file.Value() == o.disk
    ensures reply == Reply(cfg, r0, old(file.Value()), raw)
  {
    reply := [];
    if r0.pc.RAwaitOffer? {
      r := TakeOffer(cfg, r0, file, raw, bufLen);
      if r.pc.RAwaitStart? { reply := [Frame(RESUME, ResumeBody(r.have, cfg.hash(r.fed)), r.frameLen)]; }
    } else if r0.pc.RAwaitStart? {
      r := TakeStart(r0, file, raw, bufLen);
    } else {
      r := TakeFrame(cfg, r0, file, raw);
      if r.pc.ROk? { reply := [Frame(ACK, [], r.frameLen)]; }
    }
  }

  method TakeOffer(cfg: Config, r0: Receiver, file: PartialFile, raw: bytes, bufLen: nat) returns (r: Receiver)
    requires cfg.Valid() && bufLen > 0 && r0.pc.RAwaitOffer?
    modifies file
    ensures var o := OnOffer(cfg, r0, old(file.Value()), raw); r == o.r && file.Value() == o.disk
  {
    r := r0.(pc := RFailed);
    if HEADER_LEN <= |raw| <= MAX_FRAME_LEN && DecodeOffer(raw).Some? && cfg.Accepts(DecodeOffer(raw).value) {
      var total := DecodeOffer(raw).value;
      var have := Min(Credit(cfg, |file.cur|), total);
      file.SetLen(have);
      var fed := HashPrefix(file.cur, have, bufLen);
      assert fed == file.cur;
      r := Receiver(RAwaitStart, |raw|, total, have, 0, 0, 0, fed, None, 0);
    }
  }

  method TakeStart(r0: Receiver, file: PartialFile, raw: bytes, bufLen: nat) returns (r: Receiver)
    requires bufLen > 0 && r0.pc.RAwaitStart? && |file.cur| == r0.have
    modifies file
    ensures var o := OnStart(r0, old(file.Value()), raw); r == o.r && file.Value() == o.disk
  {
    r := r0.(pc := RFailed);
    if DecodeStart(raw).Some? && DecodeStart(raw).value <= r0.have {
      var offset := DecodeStart(raw).value;
      file.SetLen(offset);
      var fed := HashPrefix(file.cur, offset, bufLen);
      assert fed == file.cur;
      r := r0.(pc := RLoop, offset := offset, received := offset, last := offset, fed := fed);
    }
  }

  method TakeFrame(cfg: Config, r0: Receiver, file: PartialFile, raw: bytes) returns (r: Receiver)
    requires cfg.ckpt > 0 && r0.pc.RLoop? && ReceiverInv(cfg, r0, file.Value())
    modifies file
    ensures var o := ReadAndSync(cfg, r0, old(file.Value()), raw); r == o.r && file.Value() == o.disk
  {
    r := r0.(pc := RFailed);
    if |raw| == r0.frameLen && Parse(raw).Some? {
      var p := Parse(raw).value;
      if p.tag == DATA {
        if r0.done.None? && r0.received + |p.content| <= r0.total {
          file.WriteAll(p.content);
          r := r0.(fed := r0.fed + p.content, received := r0.received + |p.content|);
          if r.received - r.last >= cfg.ckpt {
            file.SyncData();
            r := r.(last := r.received);
          }
        }
      } else if p.tag == COVER {
        r := r0.(covers := r0.covers + 1);
      } else if p.tag == DONE {
        if r0.done.None? && |p.content| == 32 && r0.received == r0.total && cfg.hash(r0.fed) == p.content {
          file.RenameIntoPlace();
          r := r0.(done := Some(p.content));
        }
      } else if p.tag == FINISH && r0.done.Some? {
        r := r0.(pc := ROk);
      }
    }
  }

  lemma Extend(cfg: Config, offset: nat, wire: seq<bytes>, f: bytes)
    requires cfg.chunk > 0 && ScriptLog(cfg, offset, wire) && OnScript(cfg, offset, |wire|, f)
    ensures ScriptLog(cfg, offset, wire + [f])
  {
  }

  /** The number of frames on the wire from which the cancel token is found set, if it ever is. */
  type CancelAt = Option<nat>

  predicate Cancelled(cancel: CancelAt, wire: seq<bytes>) { cancel.Some? && |wire| >= cancel.value }

  /** A cancel seen before the last data frame stops the session there. */
  predicate StopsData(cfg: Config, offset: nat, cancel: CancelAt)
    requires cfg.chunk > 0 && offset <= cfg.Total()
  {
    cancel.Some? && cancel.value < 2 + RealFrames(cfg, offset) && RealFrames(cfg, offset) > 0
  }

  /** Real and cover frames in all: the plan, unless a cancel cuts the cover short. */
  function Emitted(cfg: Config, offset: nat, planned: nat, cancel: CancelAt): nat
    requires cfg.chunk > 0 && offset <= cfg.Total()
  {
    if cancel.None? then planned
    else Max(RealFrames(cfg, offset), Min(planned, if cancel.value < 3 then 0 else cancel.value - 3))
  }

  /** The data loop: the rest of the source in chunks, then its digest; or as far as a cancel lets it. */
  method SendPayload(cfg: Config, offset: nat, head: seq<bytes>, cancel: CancelAt)
    returns (wire: seq<bytes>, stopped: bool)
    requires cfg.Valid() && ScriptLog(cfg, offset, head) && |head| == 2
    ensures ScriptLog(cfg, offset, wire) && (stopped <==> StopsData(cfg, offset, cancel))
    ensures |wire| == if stopped then Max(2, cancel.value) else 3 + RealFrames(cfg, offset)
  {
    var fed := HashPrefix(cfg.source, offset, cfg.chunk);
    var sent, emitted := offset, 0;
    wire, stopped := head, false;
    PosStep(cfg, offset, 0);
    while sent < cfg.Total()
      invariant Streaming(cfg, offset, emitted, sent, fed, wire)
      invariant cancel.Some? && emitted > 0 ==> 2 + emitted <= cancel.value
      decreases cfg.Total() - sent
    {
      PosStep(cfg, offset, emitted);
      if Cancelled(cancel, wire) { return wire, true; }
      StreamStep(cfg, offset, emitted, sent, fed, wire);
      var want := Min(cfg.Total() - sent, cfg.chunk);
      var piece := cfg.source[sent..sent + want];
      fed := fed + piece;
      wire := wire + [Frame(DATA, piece, cfg.FrameLen())];
      sent := sent + want;
      emitted := emitted + 1;
    }
    PosStep(cfg, offset, emitted);
    assert fed == cfg.source;
    var done := Frame(DONE, cfg.hash(fed), cfg.FrameLen());
    Extend(cfg, offset, wire, done);
    wire := wire + [done];
  }

  /** The data loop after `emitted` frames. */
  ghost predicate Streaming(cfg: Config, offset: nat, emitted: nat, sent: nat, fed: bytes, wire: seq<bytes>)
    requires cfg.chunk > 0
  {
    && ScriptLog(cfg, offset, wire) && |wire| == 2 + emitted && emitted <= RealFrames(cfg, offset)
    && sent == Pos(cfg, offset, emitted) && fed == cfg.source[..sent]
  }

  lemma StreamStep(cfg: Config, offset: nat, emitted: nat, sent: nat, fed: bytes, wire: seq<bytes>)
    requires cfg.Valid() && Streaming(cfg, offset, emitted, sent, fed, wire) && sent < cfg.Total()
    ensures var want := Min(cfg.Total() - sent, cfg.chunk);
      var piece := cfg.source[sent..sent + want];
      Streaming(cfg, offset, emitted + 1, sent + want, fed + piece, wire + [Frame(DATA, piece, cfg.FrameLen())])
  {
    PosStep(cfg, offset, emitted);
    var want := Min(cfg.Total() - sent, cfg.chunk);
    FedGrows(cfg, sent, want);
    Extend(cfg, offset, wire, Frame(DATA, cfg.source[sent..sent + want], cfg.FrameLen()));
  }

  /** Cover and nothing else after the digest. */
  ghost predicate CoverFrom(cfg: Config, wire: seq<bytes>, from: nat) {
    forall i :: from <= i < |wire| ==> wire[i] == Frame(COVER, [], cfg.FrameLen())
  }

  /** The ramp-down: cover up to the plan or a cancel, then FINISH either way. */
  method SendTail(cfg: Config, offset: nat, head: seq<bytes>, planned: nat, cancel: CancelAt)
    returns (wire: seq<bytes>, covers: nat)
    requires cfg.Valid() && ScriptLog(cfg, offset, head)
    requires planned >= RealFrames(cfg, offset) && |head| == 3 + RealFrames(cfg, offset)
    ensures ScriptLog(cfg, offset, wire) && |wire| == 4 + Emitted(cfg, offset, planned, cancel)
    ensures covers == Emitted(cfg, offset, planned, cancel) - RealFrames(cfg, offset)
    ensures wire[|wire| - 1] == Frame(FINISH, [], cfg.FrameLen()) && CoverFrom(cfg, wire[..|wire| - 1], |head|)
  {
    var emitted := RealFrames(cfg, offset);
    wire, covers := head, 0;
    while emitted < planned && !Cancelled(cancel, wire)
      invariant RealFrames(cfg, offset) <= emitted <= planned && covers == emitted - RealFrames(cfg, offset)
      invariant |wire| == 3 + emitted && ScriptLog(cfg, offset, wire) && CoverFrom(cfg, wire, |head|)
      invariant cancel.Some? && covers > 0 ==> 3 + emitted <= cancel.value
    {
      Extend(cfg, offset, wire, Frame(COVER, [], cfg.FrameLen()));
      wire := wire + [Frame(COVER, [], cfg.FrameLen())];
      emitted := emitted + 1;
      covers := covers + 1;
    }
    Extend(cfg, offset, wire, Frame(FINISH, [], cfg.FrameLen()));
    ghost var before := wire;
    wire := wire + [Frame(FINISH, [], cfg.FrameLen())];
    assert wire[..|wire| - 1] == before;
  }

  /** One send session, given the receiver's two replies.  What it puts on the wire is its script; a
      malformed RESUME ends it after the OFFER, a cancel while data is left ends it there, and a cancel
      during the cover only forfeits cover. */
  method Send(cfg: Config, resume: bytes, ack: bytes, planned: nat, cancel: CancelAt)
    returns (wire: seq<bytes>, ok: bool, offset: nat, covers: nat)
    requires cfg.Valid()
    requires match DecodeResume(resume)
      case Some((have, prefix)) => planned >= RealFrames(cfg, ChooseOffset(cfg, have, prefix))
      case None => true
    ensures ScriptLog(cfg, offset, wire)
    ensures match DecodeResume(resume)
      case None => |wire| == 1 && !ok
      case Some((have, prefix)) =>
        && offset == ChooseOffset(cfg, have, prefix)
        && (if StopsData(cfg, offset, cancel) then |wire| == Max(2, cancel.value) && !ok
            else
              && |wire| == 4 + Emitted(cfg, offset, planned, cancel)
              && covers == Emitted(cfg, offset, planned, cancel) - RealFrames(cfg, offset)
              && ok == Expect(ack, ACK).Some?)
  {
    wire := [Frame(OFFER, U64Be(cfg.Total()), cfg.FrameLen())];
    ok, offset, covers := false, 0, 0;
    if DecodeResume(resume).Some? {
      var (have, prefix) := DecodeResume(resume).value;
      if 0 < have <= cfg.Total() {
        var fed := HashPrefix(cfg.source, have, cfg.chunk);
        if cfg.hash(fed) == prefix { offset := have; }
      }
      wire := wire + [Frame(START, U64Be(offset), cfg.FrameLen())];
      var stopped;
      wire, stopped := SendPayload(cfg, offset, wire, cancel);
      if !stopped {
        wire, covers := SendTail(cfg, offset, wire, planned, cancel);
        ok := Expect(ack, ACK).Some?;
      }
    }
  }
}
