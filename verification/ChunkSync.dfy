/** Chunk synchronisation: many download tasks appending to one vault file under a lock while
    requests are served from it without the lock, interleaved in every order. */
module ChunkSync {
  import opened Bytes

  datatype ChunkEntry = ChunkEntry(cipherLen: nat, offset: nat, nonce: bytes)
  datatype FileIndex = FileIndex(name: bytes, modified: nat, chunks: seq<ChunkEntry>)

  // ---- the metadata -----------------------------------------------------

  ghost predicate Recorded(table: seq<FileIndex>, c: ChunkEntry) {
    exists i :: 0 <= i < |table| && c in table[i].chunks
  }

  function FindFile(table: seq<FileIndex>, name: bytes): (i: nat)
    ensures i <= |table|
    ensures i < |table| ==> table[i].name == name
    ensures forall k :: 0 <= k < i ==> table[k].name != name
  {
    if table == [] then 0 else if table[0].name == name then 0 else 1 + FindFile(table[1..], name)
  }

  /** Push the entry to the file of that name, or to a new file, and take over the sender's time. */
  function Record(table: seq<FileIndex>, name: bytes, modified: nat, c: ChunkEntry): seq<FileIndex> {
    var i := FindFile(table, name);
    if i < |table| then table[i := FileIndex(name, modified, table[i].chunks + [c])]
    else table + [FileIndex(name, modified, [c])]
  }

  lemma RecordAdds(table: seq<FileIndex>, name: bytes, modified: nat, c: ChunkEntry, d: ChunkEntry)
    ensures Recorded(Record(table, name, modified, c), d) <==> d == c || Recorded(table, d)
  {
    var i := FindFile(table, name);
    var t := Record(table, name, modified, c);
    assert c in t[i].chunks;
    if Recorded(table, d) {
      var k :| 0 <= k < |table| && d in table[k].chunks;
      assert d in t[k].chunks;
    }
    if Recorded(t, d) && d != c {
      var k :| 0 <= k < |t| && d in t[k].chunks;
      assert d in table[k].chunks;
    }
  }

  function FirstIn(cs: seq<ChunkEntry>, nonce: bytes): (r: Option<ChunkEntry>)
    ensures r.Some? ==> r.value in cs && r.value.nonce == nonce
    ensures r.None? ==> forall c :: c in cs ==> c.nonce != nonce
  {
    if cs == [] then None else if cs[0].nonce == nonce then Some(cs[0]) else FirstIn(cs[1..], nonce)
  }

  /** The first entry with the nonce, in table order. */
  function FirstWith(table: seq<FileIndex>, nonce: bytes): (r: Option<ChunkEntry>)
    ensures r.Some? ==> Recorded(table, r.value) && r.value.nonce == nonce
  {
    if table == [] then None
    else
      var r := FirstIn(table[0].chunks, nonce);
      if r.Some? then r
      else
        var rest := FirstWith(table[1..], nonce);
        assert rest.Some? ==> Recorded(table, rest.value) by {
          if rest.Some? {
            var k :| 0 <= k < |table| - 1 && rest.value in table[1..][k].chunks;
            assert rest.value in table[k + 1].chunks;
          }
        }
        rest
  }

  // ---- tasks and requests -----------------------------------------------

  datatype TaskPc = Asked | Received | HasLock | Writing | Synced | Over

  datatype Task = Task(
    pc: TaskPc, nonce: bytes, name: bytes, modified: nat, cipher: bytes, offset: nat, written: nat)

  datatype RequestPc = Found | Answered | Dropped

  /** A request being served: the entry it found, and what has been read of it so far. */
  datatype Request = Request(pc: RequestPc, nonce: bytes, entry: ChunkEntry, got: bytes)

  /** What a download recorded, with the ciphertext it had received. */
  datatype Download = Download(entry: ChunkEntry, cipher: bytes)

  datatype Reply = Reply(nonce: bytes, cipher: bytes)

  datatype State = State(
    file: bytes, table: seq<FileIndex>, lock: Option<nat>, tasks: map<nat, Task>, requests: map<nat, Request>,
    downloads: seq<Download>, replies: seq<Reply>)

  datatype Event =
    | Spawn(id: nat, nonce: bytes, name: bytes, modified: nat)
    | Deliver(id: nat, nonce: bytes, cipher: bytes, checked: bool)
    | Acquire(id: nat)
    | SeekEnd(id: nat)
    | WriteSome(id: nat, count: nat)
    | SyncAll(id: nat)
    | Publish(id: nat)
    | GiveUp(id: nat)
    | Ask(rid: nat, nonce: bytes)
    | ReadSome(rid: nat, count: nat)
    | Serve(rid: nat)
    | Fail(rid: nat)

  predicate At(s: State, id: nat, pc: TaskPc) { id in s.tasks && s.tasks[id].pc == pc }

  predicate Enabled(s: State, e: Event) {
    match e
    case Spawn(id, _, _, _) => id !in s.tasks
    case Deliver(id, _, _, _) => At(s, id, Asked)
    case Acquire(id) => At(s, id, Received) && s.lock.None?
    case SeekEnd(id) => At(s, id, HasLock)
    case WriteSome(id, count) => At(s, id, Writing) && s.tasks[id].written + count <= |s.tasks[id].cipher|
    case SyncAll(id) => At(s, id, Writing) && s.tasks[id].written == |s.tasks[id].cipher|
    case Publish(id) => At(s, id, Synced)
    case GiveUp(id) => id in s.tasks && s.tasks[id].pc != Over
    case Ask(rid, _) => rid !in s.requests
    case ReadSome(rid, count) =>
      && rid in s.requests && s.requests[rid].pc.Found?
      && var r := s.requests[rid];
         |r.got| + count <= r.entry.cipherLen && r.entry.offset + |r.got| + count <= |s.file|
    case Serve(rid) => rid in s.requests && s.requests[rid].pc.Found? && |s.requests[rid].got| == s.requests[rid].entry.cipherLen
    case Fail(rid) => rid in s.requests && s.requests[rid].pc.Found?
  }

  function SetTask(s: State, id: nat, t: Task): State { s.(tasks := s.tasks[id := t]) }

  function Unlocked(s: State, id: nat): State { if s.lock == Some(id) then s.(lock := None) else s }

  function Apply(s: State, e: Event): State {
    if !Enabled(s, e) then s
    else match e
      case Spawn(id, nonce, name, modified) => SetTask(s, id, Task(Asked, nonce, name, modified, [], 0, 0))
      case Deliver(id, nonce, cipher, checked) =>
        var t := s.tasks[id];
        // The dialer insists on its nonce coming back; the listener does not look.
        if checked && nonce != t.nonce then SetTask(s, id, t.(pc := Over))
        else SetTask(s, id, t.(pc := Received, cipher := cipher))
      case Acquire(id) => SetTask(s, id, s.tasks[id].(pc := HasLock)).(lock := Some(id))
      case SeekEnd(id) => SetTask(s, id, s.tasks[id].(pc := Writing, offset := |s.file|, written := 0))
      case WriteSome(id, count) =>
        var t := s.tasks[id];
        SetTask(s, id, t.(written := t.written + count)).(file := s.file + t.cipher[t.written..t.written + count])
      case SyncAll(id) => SetTask(s, id, s.tasks[id].(pc := Synced))
      case Publish(id) =>
        var t := s.tasks[id];
        var c := ChunkEntry(|t.cipher|, t.offset, t.nonce);
        SetTask(s, id, t.(pc := Over)).(
          table := Record(s.table, t.name, t.modified, c), lock := None,
          downloads := s.downloads + [Download(c, t.cipher)])
      case GiveUp(id) => Unlocked(SetTask(s, id, s.tasks[id].(pc := Over)), id)
      case Ask(rid, nonce) =>
        (match FirstWith(s.table, nonce)
         case Some(c) => s.(requests := s.requests[rid := Request(Found, nonce, c, [])])
         case None => s)
      case ReadSome(rid, count) =>
        var r := s.requests[rid];
        var at := r.entry.offset + |r.got|;
        s.(requests := s.requests[rid := r.(got := r.got + s.file[at..at + count])])
      case Serve(rid) =>
        var r := s.requests[rid];
        s.(requests := s.requests[rid := r.(pc := Answered)], replies := s.replies + [Reply(r.nonce, r.got)])
      case Fail(rid) => s.(requests := s.requests[rid := s.requests[rid].(pc := Dropped)])
  }

  function Run(s: State, es: seq<Event>): State
    decreases |es|
  {
    if es == [] then s else Run(Apply(s, es[0]), es[1..])
  }

  // ---- invariant --------------------------------------------------------

  predicate Holds(file: bytes, c: ChunkEntry, b: bytes) {
    c.cipherLen == |b| && c.offset + c.cipherLen <= |file| && file[c.offset..c.offset + c.cipherLen] == b
  }

  /** Only the task with the lock is past acquiring it; while it writes, what it has written is the
      end of the file. */
  ghost predicate TaskInv(s: State) {
    && (forall id :: id in s.tasks && (s.tasks[id].pc.HasLock? || s.tasks[id].pc.Writing? || s.tasks[id].pc.Synced?) ==>
          s.lock == Some(id))
    && (forall id :: id in s.tasks && (s.tasks[id].pc.Writing? || s.tasks[id].pc.Synced?) ==>
          var t := s.tasks[id];
          && t.written <= |t.cipher| && t.offset + t.written == |s.file| && s.file[t.offset..] == t.cipher[..t.written]
          && (forall k :: 0 <= k < |s.downloads| ==> End(s.downloads[k].entry) <= t.offset)
          && (t.pc.Synced? ==> t.written == |t.cipher|))
  }

  function End(c: ChunkEntry): nat { c.offset + c.cipherLen }

  /** Recorded downloads hold what was received and follow each other in the file. */
  ghost predicate DownloadInv(s: State) {
    && (forall k :: 0 <= k < |s.downloads| ==> Holds(s.file, s.downloads[k].entry, s.downloads[k].cipher))
    && (forall i, k :: 0 <= i < k < |s.downloads| ==> End(s.downloads[i].entry) <= s.downloads[k].entry.offset)
    && (forall k :: 0 <= k < |s.downloads| ==> Recorded(s.table, s.downloads[k].entry))
  }

  /** What was read from `at` on, in however many pieces, is what is there. */
  predicate IsAt(file: bytes, at: nat, b: bytes) { b == [] || (at + |b| <= |file| && file[at..at + |b|] == b) }

  /** Every reply is the bytes of an entry recorded under that nonce. */
  ghost predicate Justified(s: State, r: Reply) {
    exists c: ChunkEntry :: Recorded(s.table, c) && c.nonce == r.nonce && c.cipherLen == |r.cipher| && IsAt(s.file, c.offset, r.cipher)
  }

  ghost predicate RequestFits(s: State, r: Request) {
    Recorded(s.table, r.entry) && r.entry.nonce == r.nonce && |r.got| <= r.entry.cipherLen && IsAt(s.file, r.entry.offset, r.got)
  }

  ghost predicate RequestInv(s: State) {
    && (forall rid :: rid in s.requests ==> RequestFits(s, s.requests[rid]))
    && (forall k :: 0 <= k < |s.replies| ==> Justified(s, s.replies[k]))
  }

  ghost predicate Inv(s: State) { TaskInv(s) && DownloadInv(s) && RequestInv(s) }

  /** `t` has at least the bytes and the entries of `s`, in the same places. */
  ghost predicate Grows(s: State, t: State) {
    && |s.file| <= |t.file| && t.file[..|s.file|] == s.file
    && (forall c :: Recorded(s.table, c) ==> Recorded(t.table, c))
    && |s.downloads| <= |t.downloads| && t.downloads[..|s.downloads|] == s.downloads
  }

  lemma HoldsGrows(f: bytes, g: bytes, c: ChunkEntry, b: bytes)
    requires |f| <= |g| && g[..|f|] == f && Holds(f, c, b)
    ensures Holds(g, c, b)
  {
    SubSlice(g, 0, |f|, c.offset, End(c));
  }

  lemma JustifiedGrows(s: State, t: State, r: Reply)
    requires Grows(s, t) && Justified(s, r)
    ensures Justified(t, r)
  {
    var c: ChunkEntry :|
      Recorded(s.table, c) && c.nonce == r.nonce && c.cipherLen == |r.cipher| && IsAt(s.file, c.offset, r.cipher);
    IsAtGrows(s.file, t.file, c.offset, r.cipher);
  }

  lemma IsAtGrows(f: bytes, g: bytes, at: nat, b: bytes)
    requires |f| <= |g| && g[..|f|] == f && IsAt(f, at, b)
    ensures IsAt(g, at, b)
  {
    if b != [] { SubSlice(g, 0, |f|, at, at + |b|); }
  }

  /** Another piece read behind what was read before. */
  lemma ReadOn(file: bytes, at: nat, b: bytes, count: nat)
    requires IsAt(file, at, b) && at + |b| + count <= |file|
    ensures IsAt(file, at, b + file[at + |b|..at + |b| + count])
  {
    if b != [] { assert file[at..at + |b|] + file[at + |b|..at + |b| + count] == file[at..at + |b| + count]; }
  }

  lemma StepGrows(s: State, e: Event)
    ensures Grows(s, Apply(s, e))
  {
    if Enabled(s, e) && e.Publish? {
      var t := s.tasks[e.id];
      var c := ChunkEntry(|t.cipher|, t.offset, t.nonce);
      forall d | Recorded(s.table, d) ensures Recorded(Apply(s, e).table, d) {
        RecordAdds(s.table, t.name, t.modified, c, d);
      }
    }
  }

  lemma RequestsGrow(s: State, t: State)
    requires Grows(s, t) && RequestInv(s) && t.requests == s.requests && t.replies == s.replies
    ensures RequestInv(t)
  {
    forall k | 0 <= k < |t.replies| ensures Justified(t, t.replies[k]) { JustifiedGrows(s, t, t.replies[k]); }
    forall rid | rid in t.requests ensures RequestFits(t, t.requests[rid]) {
      IsAtGrows(s.file, t.file, s.requests[rid].entry.offset, s.requests[rid].got);
    }
  }

  /** A request is replaced and perhaps answered; the file and the table are as they were. */
  lemma OneRequest(s: State, t: State, rid: nat, r: Request)
    requires RequestInv(s) && RequestFits(s, r) && t.requests == s.requests[rid := r]
    requires t.file == s.file && t.table == s.table && t.downloads == s.downloads
    requires t.replies == s.replies || (t.replies == s.replies + [Reply(r.nonce, r.got)] && |r.got| == r.entry.cipherLen)
    ensures RequestInv(t)
  {
    forall k | 0 <= k < |t.replies| ensures Justified(t, t.replies[k]) {
      if k < |s.replies| { JustifiedGrows(s, t, s.replies[k]); }
    }
    forall q | q in t.requests ensures RequestFits(t, t.requests[q]) {
      assert RequestFits(s, t.requests[q]);
    }
  }

  lemma AskKeepsRequests(s: State, rid: nat, nonce: bytes)
    requires RequestInv(s) && Enabled(s, Ask(rid, nonce))
    ensures RequestInv(Apply(s, Ask(rid, nonce)))
  {
    match FirstWith(s.table, nonce)
    case Some(c) => OneRequest(s, Apply(s, Ask(rid, nonce)), rid, Request(Found, nonce, c, []));
    case None =>
  }

  lemma ReadKeepsRequests(s: State, rid: nat, count: nat)
    requires RequestInv(s) && Enabled(s, ReadSome(rid, count))
    ensures RequestInv(Apply(s, ReadSome(rid, count)))
  {
    var r := s.requests[rid];
    var at := r.entry.offset + |r.got|;
    assert RequestFits(s, r);
    ReadOn(s.file, r.entry.offset, r.got, count);
    OneRequest(s, Apply(s, ReadSome(rid, count)), rid, r.(got := r.got + s.file[at..at + count]));
  }

  lemma ServeKeepsRequests(s: State, rid: nat)
    requires RequestInv(s) && Enabled(s, Serve(rid))
    ensures RequestInv(Apply(s, Serve(rid)))
  {
    assert RequestFits(s, s.requests[rid]);
    OneRequest(s, Apply(s, Serve(rid)), rid, s.requests[rid].(pc := Answered));
  }

  lemma FailKeepsRequests(s: State, rid: nat)
    requires RequestInv(s) && Enabled(s, Fail(rid))
    ensures RequestInv(Apply(s, Fail(rid)))
  {
    assert RequestFits(s, s.requests[rid]);
    OneRequest(s, Apply(s, Fail(rid)), rid, s.requests[rid].(pc := Dropped));
  }

  lemma RequestsKept(s: State, e: Event)
    requires Inv(s) && Enabled(s, e)
    ensures RequestInv(Apply(s, e))
  {
    match e
    case Ask(rid, nonce) => AskKeepsRequests(s, rid, nonce);
    case ReadSome(rid, count) => ReadKeepsRequests(s, rid, count);
    case Serve(rid) => ServeKeepsRequests(s, rid);
    case Fail(rid) => FailKeepsRequests(s, rid);
    case _ =>
      StepGrows(s, e);
      RequestsGrow(s, Apply(s, e));
  }

  lemma WriteKeepsTasks(s: State, id: nat, count: nat)
    requires Inv(s) && Enabled(s, WriteSome(id, count))
    ensures TaskInv(Apply(s, WriteSome(id, count)))
  {
    var t := s.tasks[id];
    var f := s.file + t.cipher[t.written..t.written + count];
    assert f[t.offset..] == s.file[t.offset..] + t.cipher[t.written..t.written + count];
    assert t.cipher[..t.written] + t.cipher[t.written..t.written + count] == t.cipher[..t.written + count];
  }

  lemma PublishKeepsTasks(s: State, id: nat)
    requires Inv(s) && Enabled(s, Publish(id))
    ensures TaskInv(Apply(s, Publish(id)))
  {
    forall k | k in s.tasks && k != id ensures !s.tasks[k].pc.HasLock? && !s.tasks[k].pc.Writing? && !s.tasks[k].pc.Synced? {
    }
  }

  lemma LockKeepsTasks(s: State, e: Event)
    requires Inv(s) && Enabled(s, e) && (e.Acquire? || e.SeekEnd? || e.SyncAll? || e.GiveUp?)
    ensures TaskInv(Apply(s, e))
  {
    if e.SeekEnd? { assert s.file[|s.file|..] == [] == s.tasks[e.id].cipher[..0]; }
  }

  lemma TasksKept(s: State, e: Event)
    requires Inv(s) && Enabled(s, e)
    ensures TaskInv(Apply(s, e))
  {
    match e
    case WriteSome(id, count) => WriteKeepsTasks(s, id, count);
    case Publish(id) => PublishKeepsTasks(s, id);
    case Acquire(_) => LockKeepsTasks(s, e);
    case SeekEnd(_) => LockKeepsTasks(s, e);
    case SyncAll(_) => LockKeepsTasks(s, e);
    case GiveUp(_) => LockKeepsTasks(s, e);
    case Spawn(_, _, _, _) => EarlyKeepsTasks(s, e);
    case Deliver(_, _, _, _) => EarlyKeepsTasks(s, e);
    case _ => RequestKeepsTasks(s, Apply(s, e));
  }

  lemma EarlyKeepsTasks(s: State, e: Event)
    requires Inv(s) && Enabled(s, e) && (e.Spawn? || e.Deliver?)
    ensures TaskInv(Apply(s, e))
  {
    IdleTask(s, e.id, Apply(s, e).tasks[e.id]);
  }

  /** A task that has no business with the lock is no concern. */
  lemma IdleTask(s: State, id: nat, t: Task)
    requires TaskInv(s) && !t.pc.HasLock? && !t.pc.Writing? && !t.pc.Synced?
    ensures TaskInv(SetTask(s, id, t))
  {
    var u := SetTask(s, id, t);
    assert forall k :: k in u.tasks && k != id ==> k in s.tasks && u.tasks[k] == s.tasks[k];
  }

  lemma RequestKeepsTasks(s: State, t: State)
    requires TaskInv(s) && t.tasks == s.tasks && t.lock == s.lock && t.file == s.file && t.downloads == s.downloads
    ensures TaskInv(t)
  {
  }

  lemma DownloadsGrow(s: State, t: State)
    requires Grows(s, t) && DownloadInv(s) && t.downloads == s.downloads
    ensures DownloadInv(t)
  {
    forall k | 0 <= k < |s.downloads| ensures Holds(t.file, s.downloads[k].entry, s.downloads[k].cipher) {
      HoldsGrows(s.file, t.file, s.downloads[k].entry, s.downloads[k].cipher);
    }
  }

  lemma PublishKeepsDownloads(s: State, id: nat)
    requires Inv(s) && Enabled(s, Publish(id))
    ensures DownloadInv(Apply(s, Publish(id)))
  {
    var a := s.tasks[id];
    var c := ChunkEntry(|a.cipher|, a.offset, a.nonce);
    StepGrows(s, Publish(id));
    assert a.cipher[..a.written] == a.cipher && s.file[a.offset..] == s.file[a.offset..End(c)];
    RecordAdds(s.table, a.name, a.modified, c, c);
  }

  lemma DownloadsKept(s: State, e: Event)
    requires Inv(s) && Enabled(s, e)
    ensures DownloadInv(Apply(s, e))
  {
    if e.Publish? {
      PublishKeepsDownloads(s, e.id);
    } else {
      StepGrows(s, e);
      DownloadsGrow(s, Apply(s, e));
    }
  }

  lemma StepKeeps(s: State, e: Event)
    requires Inv(s)
    ensures Inv(Apply(s, e))
  {
    if Enabled(s, e) {
      RequestsKept(s, e);
      TasksKept(s, e);
      DownloadsKept(s, e);
    }
  }

  lemma {:induction false} RunKeeps(s: State, es: seq<Event>)
    requires Inv(s)
    ensures Inv(Run(s, es)) && Grows(s, Run(s, es))
    decreases |es|
  {
    if es != [] {
      var t := Apply(s, es[0]);
      StepKeeps(s, es[0]);
      StepGrows(s, es[0]);
      RunKeeps(t, es[1..]);
      var u := Run(t, es[1..]);
      assert u.file[..|s.file|] == u.file[..|t.file|][..|s.file|];
      assert u.downloads[..|s.downloads|] == u.downloads[..|t.downloads|][..|s.downloads|];
    }
  }

  /** A vault before any task or request: any bytes, any table. */
  ghost predicate Initial(s: State) {
    s.lock.None? && s.tasks == map[] && s.requests == map[] && s.downloads == [] && s.replies == []
  }

  /** In every interleaving of downloads and requests: no byte once in the file ever changes; the
      regions recorded by downloads are disjoint and each holds exactly the ciphertext received for
      it, from then on for ever; and every reply is the bytes of a region recorded with its nonce. */
  lemma EveryInterleaving(s: State, es: seq<Event>, later: seq<Event>)
    requires Initial(s)
    ensures var t := Run(s, es);
      var u := Run(t, later);
      && |s.file| <= |t.file| <= |u.file| && u.file[..|t.file|] == t.file && t.file[..|s.file|] == s.file
      && (forall i, k :: 0 <= i < k < |t.downloads| ==> End(t.downloads[i].entry) <= t.downloads[k].entry.offset)
      && (forall k :: 0 <= k < |t.downloads| ==> Holds(u.file, t.downloads[k].entry, t.downloads[k].cipher))
      && (forall k :: 0 <= k < |t.replies| ==> Justified(t, t.replies[k]))
  {
    RunKeeps(s, es);
    var t := Run(s, es);
    RunKeeps(t, later);
    var u := Run(t, later);
    forall k | 0 <= k < |t.downloads| ensures Holds(u.file, t.downloads[k].entry, t.downloads[k].cipher) {
      HoldsGrows(t.file, u.file, t.downloads[k].entry, t.downloads[k].cipher);
    }
  }

  // ---- what to ask for --------------------------------------------------

  datatype Wanted = Wanted(nonce: bytes, name: bytes, modified: nat)

  /** A remote chunk is wanted when its file is new here or newer than ours, and our file of that
      name has no chunk with its nonce. */
  predicate Wants(local: seq<FileIndex>, f: FileIndex, c: ChunkEntry) {
    var i := FindFile(local, f.name);
    i == |local| || (f.modified > local[i].modified && FirstIn(local[i].chunks, c.nonce).None?)
  }

  ghost predicate Missing(local: seq<FileIndex>, remote: seq<FileIndex>, w: Wanted) {
    exists i, j :: 0 <= i < |remote| && 0 <= j < |remote[i].chunks| && Wants(local, remote[i], remote[i].chunks[j])
      && w == Wanted(remote[i].chunks[j].nonce, remote[i].name, remote[i].modified)
  }

  /** The wanted among the first `j` chunks of a file, one entry each, in order. */
  function WantedOf(local: seq<FileIndex>, f: FileIndex, j: nat): seq<Wanted>
    requires j <= |f.chunks|
  {
    if j == 0 then []
    else
      WantedOf(local, f, j - 1)
      + if Wants(local, f, f.chunks[j - 1]) then [Wanted(f.chunks[j - 1].nonce, f.name, f.modified)] else []
  }

  /** The wanted of the first `i` files, file by file. */
  function WantedOfAll(local: seq<FileIndex>, remote: seq<FileIndex>, i: nat): seq<Wanted>
    requires i <= |remote|
  {
    if i == 0 then [] else WantedOfAll(local, remote, i - 1) + WantedOf(local, remote[i - 1], |remote[i - 1].chunks|)
  }

  /** The nested loops that collect the missing chunks list exactly those, one entry for each, in the
      order of the remote table. */
  method CollectMissing(local: seq<FileIndex>, remote: seq<FileIndex>) returns (out: seq<Wanted>)
    ensures out == WantedOfAll(local, remote, |remote|)
    ensures forall w :: w in out <==> Missing(local, remote, w)
  {
    out := [];
    for i := 0 to |remote|
      invariant out == WantedOfAll(local, remote, i)
    {
      var f := remote[i];
      for j := 0 to |f.chunks|
        invariant out == WantedOfAll(local, remote, i) + WantedOf(local, f, j)
      {
        var c := f.chunks[j];
        if Wants(local, f, c) { out := out + [Wanted(c.nonce, f.name, f.modified)]; }
      }
    }
    forall w ensures w in out <==> Missing(local, remote, w) { WantedIsMissing(local, remote, |remote|, w); }
  }

  ghost predicate MissingOf(local: seq<FileIndex>, f: FileIndex, j: nat, w: Wanted)
    requires j <= |f.chunks|
  {
    exists k :: 0 <= k < j && Wants(local, f, f.chunks[k]) && w == Wanted(f.chunks[k].nonce, f.name, f.modified)
  }

  lemma {:induction false} WantedOfIsMissing(local: seq<FileIndex>, f: FileIndex, j: nat, w: Wanted)
    requires j <= |f.chunks|
    ensures w in WantedOf(local, f, j) <==> MissingOf(local, f, j, w)
    decreases j
  {
    if j > 0 { WantedOfIsMissing(local, f, j - 1, w); }
  }

  lemma {:induction false} WantedIsMissing(local: seq<FileIndex>, remote: seq<FileIndex>, i: nat, w: Wanted)
    requires i <= |remote|
    ensures w in WantedOfAll(local, remote, i) <==> exists k :: 0 <= k < i && MissingOf(local, remote[k], |remote[k].chunks|, w)
    decreases i
  {
    if i > 0 {
      WantedIsMissing(local, remote, i - 1, w);
      WantedOfIsMissing(local, remote[i - 1], |remote[i - 1].chunks|, w);
    }
  }
}
