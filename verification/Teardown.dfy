/** The viewer teardown registry: worker threads, registration and the signal handler, each taking
    its mutexes in its own steps, interleaved in every order. */
module Teardown {
  import opened Bytes

  datatype Actor = Worker(id: nat) | Handler

  /** A slot's mutex: whether the job is still in it, and who holds the guard. */
  datatype Slot = Slot(job: bool, holder: Option<Actor>)

  datatype WorkerPc = Viewing | Locked | Shredding | Shredded | Over

  datatype Stage = Free | Held | Wiping | Wiped

  /** The handler works through the drained slots one by one and then ends the process. */
  datatype HandlerPc = Idle | Looping(at: nat, stage: Stage) | Exited

  /** The registry's mutex: free, or held by the registration of `id`, which has inspected the first
      `seen` slots and keeps those in `kept`. */
  datatype RegistryLock = Unlocked | Scanning(id: nat, kept: seq<nat>, seen: nat)

  /** `registered` are the jobs whose registration has returned, `before` those of them that had when
      the handler drained the registry; `starts` logs the shreds begun, `finished` those ended. */
  datatype State = State(
    slots: map<nat, Slot>, registry: seq<nat>, lock: RegistryLock, workers: map<nat, WorkerPc>,
    handler: HandlerPc, drained: seq<nat>, registered: set<nat>, before: set<nat>,
    starts: seq<nat>, finished: set<nat>)

  const Initial := State(map[], [], Unlocked, map[], Idle, [], {}, {}, [], {})

  datatype Event =
    | NewSlot(id: nat)
    | LockRegistry(id: nat)
    | Inspect
    | Push
    | WorkerLocks(id: nat)
    | WorkerTakes(id: nat)
    | WorkerFinishes(id: nat)
    | WorkerUnlocks(id: nat)
    | Drain
    | HandlerLocks
    | HandlerTakes
    | HandlerFinishes
    | HandlerUnlocks
    | Exit

  predicate WorkerAt(s: State, id: nat, pc: WorkerPc) { id in s.workers && s.workers[id] == pc && id in s.slots }

  predicate HandlerAt(s: State, stage: Stage) {
    s.handler.Looping? && s.handler.stage == stage && s.handler.at < |s.drained| && s.drained[s.handler.at] in s.slots
  }

  predicate Enabled(s: State, e: Event) {
    && !s.handler.Exited?
    && match e
       case NewSlot(id) => id !in s.slots
       case LockRegistry(id) => id in s.slots && id !in s.registered && s.lock.Unlocked?
       case Inspect =>
         && s.lock.Scanning? && s.lock.seen < |s.registry|
         && s.registry[s.lock.seen] in s.slots && s.slots[s.registry[s.lock.seen]].holder.None?
       case Push => s.lock.Scanning? && s.lock.seen >= |s.registry|
       case WorkerLocks(id) => WorkerAt(s, id, Viewing) && s.slots[id].holder.None?
       case WorkerTakes(id) => WorkerAt(s, id, Locked)
       case WorkerFinishes(id) => WorkerAt(s, id, Shredding)
       case WorkerUnlocks(id) => WorkerAt(s, id, Shredded)
       case Drain => s.handler.Idle? && s.lock.Unlocked?
       case HandlerLocks => HandlerAt(s, Free) && s.slots[s.drained[s.handler.at]].holder.None?
       case HandlerTakes => HandlerAt(s, Held)
       case HandlerFinishes => HandlerAt(s, Wiping)
       case HandlerUnlocks => HandlerAt(s, Wiped)
       case Exit => s.handler.Looping? && s.handler.at >= |s.drained|
  }

  /** One step.  `guarded` says whether the slot's guard lives through the body of the `if let` that
      takes the job out, as it does; without it the guard would be gone as soon as the job is out. */
  function Apply(guarded: bool, s: State, e: Event): State {
    if !Enabled(s, e) then s
    else match e
      case NewSlot(id) => s.(slots := s.slots[id := Slot(true, None)])
      case LockRegistry(id) => s.(lock := Scanning(id, [], 0))
      case Inspect =>
        var id := s.registry[s.lock.seen];
        s.(lock := s.lock.(kept := if s.slots[id].job then s.lock.kept + [id] else s.lock.kept, seen := s.lock.seen + 1))
      case Push =>
        var id := s.lock.id;
        s.(registry := s.lock.kept + [id], lock := Unlocked, registered := s.registered + {id},
           workers := s.workers[id := Viewing])
      case WorkerLocks(id) =>
        s.(slots := s.slots[id := s.slots[id].(holder := Some(Worker(id)))], workers := s.workers[id := Locked])
      case WorkerTakes(id) =>
        if s.slots[id].job then
          s.(slots := s.slots[id := Slot(false, if guarded then s.slots[id].holder else None)],
             workers := s.workers[id := Shredding], starts := s.starts + [id])
        else
          s.(slots := s.slots[id := s.slots[id].(holder := None)], workers := s.workers[id := Over])
      case WorkerFinishes(id) => s.(workers := s.workers[id := Shredded], finished := s.finished + {id})
      case WorkerUnlocks(id) =>
        s.(slots := s.slots[id := s.slots[id].(holder := None)], workers := s.workers[id := Over])
      case Drain =>
        s.(drained := s.registry, registry := [], before := s.registered, handler := Looping(0, Free))
      case HandlerLocks =>
        var id := s.drained[s.handler.at];
        s.(slots := s.slots[id := s.slots[id].(holder := Some(Handler))], handler := s.handler.(stage := Held))
      case HandlerTakes =>
        var id := s.drained[s.handler.at];
        if s.slots[id].job then
          s.(slots := s.slots[id := s.slots[id].(job := false)], handler := s.handler.(stage := Wiping),
             starts := s.starts + [id])
        else
          s.(slots := s.slots[id := s.slots[id].(holder := None)], handler := Looping(s.handler.at + 1, Free))
      case HandlerFinishes =>
        s.(handler := s.handler.(stage := Wiped), finished := s.finished + {s.drained[s.handler.at]})
      case HandlerUnlocks =>
        var id := s.drained[s.handler.at];
        s.(slots := s.slots[id := s.slots[id].(holder := None)], handler := Looping(s.handler.at + 1, Free))
      case Exit => s.(handler := Exited)
  }

  function Run(guarded: bool, s: State, es: seq<Event>): State
    decreases |es|
  {
    if es == [] then s else Run(guarded, Apply(guarded, s, es[0]), es[1..])
  }

  // ---- invariant --------------------------------------------------------

  predicate NoRepeats(q: seq<nat>) { forall i, j :: 0 <= i < j < |q| ==> q[i] != q[j] }

  predicate WorkerHolds(s: State, id: nat) {
    id in s.workers && (s.workers[id].Locked? || s.workers[id].Shredding? || s.workers[id].Shredded?)
  }

  predicate HandlerHolds(s: State, id: nat) {
    s.handler.Looping? && !s.handler.stage.Free? && s.handler.at < |s.drained| && s.drained[s.handler.at] == id
  }

  /** The guard of a slot is held by whoever is between locking and unlocking it. */
  ghost predicate Guards(s: State) {
    forall id :: id in s.slots ==>
      && (s.slots[id].holder == Some(Worker(id)) <==> WorkerHolds(s, id))
      && (s.slots[id].holder == Some(Handler) <==> HandlerHolds(s, id))
      && (s.slots[id].holder.None? || s.slots[id].holder == Some(Worker(id)) || s.slots[id].holder == Some(Handler))
  }

  /** A job leaves its slot exactly when its shred begins, and that shred is over unless its
      shredder is still at it. */
  ghost predicate Jobs(s: State) {
    && NoRepeats(s.starts)
    && (forall id :: id in s.starts ==> id in s.slots)
    && (forall id :: id in s.slots ==> (s.slots[id].job <==> id !in s.starts))
    && (forall id :: id in s.finished ==> id in s.starts)
    && (forall id :: id in s.workers && s.workers[id].Shredding? ==> id in s.starts)
    && (forall id :: HandlerHolds(s, id) && s.handler.stage.Wiping? ==> id in s.starts)
    && (forall id :: id in s.starts && id !in s.finished ==>
          (id in s.workers && s.workers[id].Shredding?) || (HandlerHolds(s, id) && s.handler.stage.Wiping?))
  }

  ghost predicate Registry(s: State) {
    && (forall id :: id in s.registry ==> id in s.registered)
    && s.registered <= s.slots.Keys && s.before <= s.registered && s.workers.Keys <= s.registered
    && (forall id :: id in s.drained ==> id in s.registered)
    && (s.handler.Idle? ==> forall id :: id in s.registered ==> id in s.registry || id in s.finished)
    && (s.lock.Scanning? ==>
          && s.lock.id in s.slots && s.lock.id !in s.registered && |s.lock.kept| <= s.lock.seen <= |s.registry|
          && (forall id :: id in s.lock.kept ==> id in s.registered)
          && (forall i :: 0 <= i < s.lock.seen ==> s.registry[i] in s.lock.kept || s.registry[i] in s.finished))
  }

  /** Of the jobs registered before the drain, those not finished are still ahead of the handler. */
  ghost predicate Draining(s: State) {
    && (s.handler.Looping? ==> s.handler.at <= |s.drained| && (s.handler.stage.Free? || s.handler.at < |s.drained|))
    && (s.handler.Looping? ==> forall id :: id in s.before ==> id in s.finished || id in s.drained[s.handler.at..])
    && (s.handler.Looping? && s.handler.stage.Wiped? ==> s.handler.at < |s.drained| && s.drained[s.handler.at] in s.finished)
    && (s.handler.Exited? ==> s.before <= s.finished)
  }

  ghost predicate Inv(s: State) { Guards(s) && Jobs(s) && Registry(s) && Draining(s) }

  /** A slot whose guard is free and whose job is gone has been shredded to the end. */
  lemma FreeAndEmptyIsFinished(s: State, id: nat)
    requires Guards(s) && Jobs(s) && id in s.slots && s.slots[id].holder.None? && !s.slots[id].job
    ensures id in s.finished
  {
  }

  lemma NewSlotKeeps(s: State, id: nat)
    requires Inv(s) && Enabled(s, NewSlot(id))
    ensures Inv(Apply(true, s, NewSlot(id)))
  {
  }

  lemma LockRegistryKeeps(s: State, id: nat)
    requires Inv(s) && Enabled(s, LockRegistry(id))
    ensures Inv(Apply(true, s, LockRegistry(id)))
  {
  }

  lemma InspectKeeps(s: State)
    requires Inv(s) && Enabled(s, Inspect)
    ensures Inv(Apply(true, s, Inspect))
  {
    var id := s.registry[s.lock.seen];
    if !s.slots[id].job { FreeAndEmptyIsFinished(s, id); }
  }

  lemma PushKeeps(s: State)
    requires Inv(s) && Enabled(s, Push)
    ensures Inv(Apply(true, s, Push))
  {
  }

  /** What a worker does concerns neither the registry nor the handler. */
  lemma RestKept(s: State, t: State)
    requires Registry(s) && Draining(s)
    requires t.registry == s.registry && t.lock == s.lock && t.handler == s.handler && t.drained == s.drained
    requires t.registered == s.registered && t.before == s.before && s.finished <= t.finished
    requires t.slots.Keys == s.slots.Keys && t.workers.Keys == s.workers.Keys
    ensures Registry(t) && Draining(t)
  {
  }

  lemma WorkerLocksGuards(s: State, id: nat)
    requires Inv(s) && Enabled(s, WorkerLocks(id))
    ensures Guards(Apply(true, s, WorkerLocks(id)))
  {
  }

  lemma WorkerLocksJobs(s: State, id: nat)
    requires Inv(s) && Enabled(s, WorkerLocks(id))
    ensures Jobs(Apply(true, s, WorkerLocks(id)))
  {
  }

  lemma WorkerLocksKeeps(s: State, id: nat)
    requires Inv(s) && Enabled(s, WorkerLocks(id))
    ensures Inv(Apply(true, s, WorkerLocks(id)))
  {
    WorkerLocksGuards(s, id);
    WorkerLocksJobs(s, id);
    RestKept(s, Apply(true, s, WorkerLocks(id)));
  }

  lemma WorkerTakesGuards(s: State, id: nat)
    requires Inv(s) && Enabled(s, WorkerTakes(id))
    ensures Guards(Apply(true, s, WorkerTakes(id)))
  {
  }

  lemma WorkerTakesJobs(s: State, id: nat)
    requires Inv(s) && Enabled(s, WorkerTakes(id))
    ensures Jobs(Apply(true, s, WorkerTakes(id)))
  {
  }

  lemma WorkerTakesKeeps(s: State, id: nat)
    requires Inv(s) && Enabled(s, WorkerTakes(id))
    ensures Inv(Apply(true, s, WorkerTakes(id)))
  {
    WorkerTakesGuards(s, id);
    WorkerTakesJobs(s, id);
    RestKept(s, Apply(true, s, WorkerTakes(id)));
  }

  lemma WorkerFinishesGuards(s: State, id: nat)
    requires Inv(s) && Enabled(s, WorkerFinishes(id))
    ensures Guards(Apply(true, s, WorkerFinishes(id)))
  {
  }

  lemma WorkerFinishesJobs(s: State, id: nat)
    requires Inv(s) && Enabled(s, WorkerFinishes(id))
    ensures Jobs(Apply(true, s, WorkerFinishes(id)))
  {
  }

  lemma WorkerFinishesKeeps(s: State, id: nat)
    requires Inv(s) && Enabled(s, WorkerFinishes(id))
    ensures Inv(Apply(true, s, WorkerFinishes(id)))
  {
    WorkerFinishesGuards(s, id);
    WorkerFinishesJobs(s, id);
    RestKept(s, Apply(true, s, WorkerFinishes(id)));
  }

  lemma WorkerUnlocksGuards(s: State, id: nat)
    requires Inv(s) && Enabled(s, WorkerUnlocks(id))
    ensures Guards(Apply(true, s, WorkerUnlocks(id)))
  {
  }

  lemma WorkerUnlocksJobs(s: State, id: nat)
    requires Inv(s) && Enabled(s, WorkerUnlocks(id))
    ensures Jobs(Apply(true, s, WorkerUnlocks(id)))
  {
  }

  lemma WorkerUnlocksKeeps(s: State, id: nat)
    requires Inv(s) && Enabled(s, WorkerUnlocks(id))
    ensures Inv(Apply(true, s, WorkerUnlocks(id)))
  {
    WorkerUnlocksGuards(s, id);
    WorkerUnlocksJobs(s, id);
    RestKept(s, Apply(true, s, WorkerUnlocks(id)));
  }

  lemma DrainKeeps(s: State)
    requires Inv(s) && Enabled(s, Drain)
    ensures Inv(Apply(true, s, Drain))
  {
  }

  lemma HandlerLocksKeeps(s: State)
    requires Inv(s) && Enabled(s, HandlerLocks)
    ensures Inv(Apply(true, s, HandlerLocks))
  {
  }

  lemma HandlerTakesJob(s: State)
    requires Inv(s) && Enabled(s, HandlerTakes) && s.slots[s.drained[s.handler.at]].job
    ensures Inv(Apply(true, s, HandlerTakes))
  {
  }

  lemma HandlerFindsNone(s: State)
    requires Inv(s) && Enabled(s, HandlerTakes) && !s.slots[s.drained[s.handler.at]].job
    ensures Inv(Apply(true, s, HandlerTakes))
  {
    var at := s.handler.at;
    assert s.drained[at..] == [s.drained[at]] + s.drained[at + 1..];
    assert s.drained[at] in s.finished;
  }

  lemma HandlerTakesKeeps(s: State)
    requires Inv(s) && Enabled(s, HandlerTakes)
    ensures Inv(Apply(true, s, HandlerTakes))
  {
    if s.slots[s.drained[s.handler.at]].job { HandlerTakesJob(s); } else { HandlerFindsNone(s); }
  }

  lemma HandlerFinishesKeeps(s: State)
    requires Inv(s) && Enabled(s, HandlerFinishes)
    ensures Inv(Apply(true, s, HandlerFinishes))
  {
  }

  lemma HandlerUnlocksKeeps(s: State)
    requires Inv(s) && Enabled(s, HandlerUnlocks)
    ensures Inv(Apply(true, s, HandlerUnlocks))
  {
    var at := s.handler.at;
    assert s.drained[at..] == [s.drained[at]] + s.drained[at + 1..];
  }

  lemma ExitKeeps(s: State)
    requires Inv(s) && Enabled(s, Exit)
    ensures Inv(Apply(true, s, Exit))
  {
  }

  lemma StepKeeps(s: State, e: Event)
    requires Inv(s)
    ensures Inv(Apply(true, s, e))
  {
    if Enabled(s, e) {
      match e
      case WorkerLocks(id) => WorkerLocksKeeps(s, id);
      case WorkerTakes(id) => WorkerTakesKeeps(s, id);
      case WorkerFinishes(id) => WorkerFinishesKeeps(s, id);
      case WorkerUnlocks(id) => WorkerUnlocksKeeps(s, id);
      case Drain => DrainKeeps(s);
      case HandlerLocks => HandlerLocksKeeps(s);
      case HandlerTakes => HandlerTakesKeeps(s);
      case HandlerFinishes => HandlerFinishesKeeps(s);
      case HandlerUnlocks => HandlerUnlocksKeeps(s);
      case Exit => ExitKeeps(s);
      case NewSlot(id) => NewSlotKeeps(s, id);
      case LockRegistry(id) => LockRegistryKeeps(s, id);
      case Inspect => InspectKeeps(s);
      case Push => PushKeeps(s);
    }
  }

  lemma {:induction false} RunKeeps(s: State, es: seq<Event>)
    requires Inv(s)
    ensures Inv(Run(true, s, es))
    decreases |es|
  {
    if es != [] {
      StepKeeps(s, es[0]);
      RunKeeps(Apply(true, s, es[0]), es[1..]);
    }
  }

  // ---- what every interleaving guarantees -------------------------------

  /** In every interleaving: no job is shredded twice; until the handler drains the registry, a
      registered job that nobody has claimed is still in it, so registration never prunes one; and
      when the process exits, every job registered before the drain has been shredded to the end. */
  lemma EveryInterleaving(es: seq<Event>)
    ensures var s := Run(true, Initial, es);
      && NoRepeats(s.starts)
      && (forall id :: id in s.registered && id in s.slots && s.slots[id].job && s.handler.Idle? ==> id in s.registry)
      && (s.handler.Exited? ==> s.before <= s.finished)
  {
    RunKeeps(Initial, es);
  }

  // ---- the handler gets there -------------------------------------------

  /** Steps the worker of a job has still to take. */
  function WorkerLeft(ws: map<nat, WorkerPc>, id: nat): nat {
    if id !in ws then 0
    else match ws[id] case Viewing => 4 case Locked => 3 case Shredding => 2 case Shredded => 1 case Over => 0
  }

  function AllLeft(ws: map<nat, WorkerPc>, ids: seq<nat>): nat {
    if ids == [] then 0 else WorkerLeft(ws, ids[0]) + AllLeft(ws, ids[1..])
  }

  function Spent(stage: Stage): nat { match stage case Free => 0 case Held => 1 case Wiping => 2 case Wiped => 3 }

  /** Steps until the process exits: the handler's own, and those of the workers it may wait for. */
  function Due(s: State): int {
    match s.handler
    case Exited => 0
    case Looping(at, stage) =>
      if at >= |s.drained| then 1
      else 1 + 4 * (|s.drained| - at) - Spent(stage) + AllLeft(s.workers, s.drained[at..])
    case Idle =>
      if s.lock.Unlocked? then 2 + 4 * |s.registry| + AllLeft(s.workers, s.registry)
      else if s.lock.seen > |s.registry| then 0
      else ScanDue(s.workers, s.lock.kept, s.registry[s.lock.seen..])
  }

  /** Steps due while a registration that keeps `kept` has `rest` to inspect. */
  function ScanDue(ws: map<nat, WorkerPc>, kept: seq<nat>, rest: seq<nat>): int {
    11 + 4 * |kept| + AllLeft(ws, kept) + 5 * |rest| + AllLeft(ws, rest)
  }

  /** The job in whose slot the handler, or the registration that keeps it from the registry, waits. */
  function Awaited(s: State): Option<nat> {
    if s.handler.Looping? && s.handler.at < |s.drained| then Some(s.drained[s.handler.at])
    else if s.handler.Idle? && s.lock.Scanning? && s.lock.seen < |s.registry| then Some(s.registry[s.lock.seen])
    else None
  }

  /** A step of the handler; of the registration it waits for before it drains; or of the worker that
      holds the slot either of them waits for. */
  predicate Helps(s: State, e: Event) {
    match e
    case Drain => true
    case HandlerLocks => true
    case HandlerTakes => true
    case HandlerFinishes => true
    case HandlerUnlocks => true
    case Exit => true
    case Inspect => s.handler.Idle?
    case Push => s.handler.Idle?
    case WorkerTakes(id) => Awaited(s) == Some(id)
    case WorkerFinishes(id) => Awaited(s) == Some(id)
    case WorkerUnlocks(id) => Awaited(s) == Some(id)
    case _ => false
  }

  /** The next step of the worker that holds a slot. */
  function WorkerMove(s: State, id: nat): Event {
    if id in s.workers && s.workers[id].Locked? then WorkerTakes(id)
    else if id in s.workers && s.workers[id].Shredding? then WorkerFinishes(id)
    else WorkerUnlocks(id)
  }

  function HandlerMove(stage: Stage): Event {
    match stage case Free => HandlerLocks case Held => HandlerTakes case Wiping => HandlerFinishes case Wiped => HandlerUnlocks
  }

  function NextMove(s: State): Event {
    match s.handler
    case Exited => Exit
    case Looping(at, stage) =>
      if at >= |s.drained| then Exit
      else
        var id := s.drained[at];
        if stage.Free? && id in s.slots && s.slots[id].holder.Some? then WorkerMove(s, id) else HandlerMove(stage)
    case Idle =>
      if s.lock.Unlocked? then Drain
      else if s.lock.seen >= |s.registry| then Push
      else
        var id := s.registry[s.lock.seen];
        if id in s.slots && s.slots[id].holder.Some? then WorkerMove(s, id) else Inspect
  }

  lemma NextMoveEnabled(s: State)
    requires Inv(s) && !s.handler.Exited?
    ensures Enabled(s, NextMove(s)) && Helps(s, NextMove(s))
  {
  }

  // ---- and nothing holds it up ------------------------------------------

  lemma {:induction false} AllLeftConcat(ws: map<nat, WorkerPc>, a: seq<nat>, b: seq<nat>)
    ensures AllLeft(ws, a + b) == AllLeft(ws, a) + AllLeft(ws, b)
    decreases |a|
  {
    if a == [] {
      assert a + b == b;
    } else {
      assert (a + b)[1..] == a[1..] + b;
      AllLeftConcat(ws, a[1..], b);
    }
  }

  /** Workers only ever get on with it. */
  predicate Advanced(ws: map<nat, WorkerPc>, xs: map<nat, WorkerPc>, ids: seq<nat>) {
    forall i :: 0 <= i < |ids| ==> WorkerLeft(xs, ids[i]) <= WorkerLeft(ws, ids[i])
  }

  lemma {:induction false} AdvancedTakesLess(ws: map<nat, WorkerPc>, xs: map<nat, WorkerPc>, ids: seq<nat>)
    requires Advanced(ws, xs, ids)
    ensures AllLeft(xs, ids) <= AllLeft(ws, ids)
    decreases |ids|
  {
    if ids != [] { AdvancedTakesLess(ws, xs, ids[1..]); }
  }

  /** If the first of them took a step, strictly less is left. */
  lemma FirstAdvanced(ws: map<nat, WorkerPc>, xs: map<nat, WorkerPc>, ids: seq<nat>)
    requires Advanced(ws, xs, ids) && ids != [] && WorkerLeft(xs, ids[0]) < WorkerLeft(ws, ids[0])
    ensures AllLeft(xs, ids) < AllLeft(ws, ids)
  {
    AdvancedTakesLess(ws, xs, ids[1..]);
  }

  predicate WorkerEvent(e: Event) { e.WorkerLocks? || e.WorkerTakes? || e.WorkerFinishes? || e.WorkerUnlocks? }

  /** A worker's step changes its own pc, forward, and nothing of the handler's or the registry's. */
  lemma WorkerSteps(s: State, e: Event)
    requires Enabled(s, e) && WorkerEvent(e)
    ensures var t := Apply(true, s, e);
      && t.handler == s.handler && t.drained == s.drained && t.registry == s.registry && t.lock == s.lock
      && WorkerLeft(t.workers, e.id) < WorkerLeft(s.workers, e.id)
      && forall id :: id != e.id ==> WorkerLeft(t.workers, id) == WorkerLeft(s.workers, id)
  {
  }

  lemma WorkerDue(s: State, e: Event)
    requires Inv(s) && Enabled(s, e) && WorkerEvent(e)
    ensures Due(Apply(true, s, e)) <= Due(s)
    ensures Awaited(s) == Some(e.id) ==> Due(Apply(true, s, e)) < Due(s)
  {
    WorkerSteps(s, e);
    var ws, xs := s.workers, Apply(true, s, e).workers;
    if s.handler.Looping? {
      AdvancedTakesLess(ws, xs, s.drained[s.handler.at..]);
      if s.handler.at < |s.drained| && s.drained[s.handler.at] == e.id { FirstAdvanced(ws, xs, s.drained[s.handler.at..]); }
    } else if s.lock.Unlocked? {
      AdvancedTakesLess(ws, xs, s.registry);
    } else {
      AdvancedTakesLess(ws, xs, s.lock.kept);
      AdvancedTakesLess(ws, xs, s.registry[s.lock.seen..]);
      if s.lock.seen < |s.registry| && s.registry[s.lock.seen] == e.id { FirstAdvanced(ws, xs, s.registry[s.lock.seen..]); }
    }
  }

  lemma HandlerDue(s: State, e: Event)
    requires Inv(s) && Enabled(s, e) && (e.HandlerLocks? || e.HandlerTakes? || e.HandlerFinishes? || e.HandlerUnlocks? || e.Exit?)
    ensures Due(Apply(true, s, e)) < Due(s)
  {
    var at := s.handler.at;
    if at < |s.drained| {
      assert s.drained[at..][1..] == s.drained[at + 1..];
    }
  }

  lemma DrainDue(s: State)
    requires Inv(s) && Enabled(s, Drain)
    ensures Due(Apply(true, s, Drain)) < Due(s)
  {
    assert s.registry[0..] == s.registry;
  }

  lemma InspectDue(s: State)
    requires Inv(s) && Enabled(s, Inspect) && s.handler.Idle?
    ensures Due(Apply(true, s, Inspect)) < Due(s)
  {
    var seen := s.lock.seen;
    SuffixOpens(s.registry, seen);
    ScanStep(s.workers, s.lock.kept, s.registry[seen], s.registry[seen + 1..]);
  }

  lemma ScanStep(ws: map<nat, WorkerPc>, kept: seq<nat>, id: nat, rest: seq<nat>)
    ensures ScanDue(ws, kept + [id], rest) < ScanDue(ws, kept, [id] + rest)
    ensures ScanDue(ws, kept, rest) < ScanDue(ws, kept, [id] + rest)
  {
    AllLeftCons(ws, id, rest);
    AllLeftSnoc(ws, kept, id);
  }

  lemma AllLeftCons(ws: map<nat, WorkerPc>, id: nat, ids: seq<nat>)
    ensures AllLeft(ws, [id] + ids) == WorkerLeft(ws, id) + AllLeft(ws, ids)
  {
    ConsParts(id, ids);
  }

  lemma AllLeftSnoc(ws: map<nat, WorkerPc>, ids: seq<nat>, id: nat)
    ensures AllLeft(ws, ids + [id]) == AllLeft(ws, ids) + WorkerLeft(ws, id)
  {
    AllLeftConcat(ws, ids, [id]);
    assert [id] == [id] + [];
    AllLeftCons(ws, id, []);
  }

  lemma PushDue(s: State)
    requires Inv(s) && Enabled(s, Push) && s.handler.Idle?
    ensures Due(Apply(true, s, Push)) < Due(s)
  {
    var id, kept := s.lock.id, s.lock.kept;
    var xs := s.workers[id := Viewing];
    AllLeftSnoc(xs, kept, id);
    AdvancedTakesLess(s.workers, xs, kept);
    assert s.registry[s.lock.seen..] == [];
  }

  /** Registration and new jobs make no difference once the registry is drained. */
  lemma LateRegistrationDue(s: State, e: Event)
    requires Inv(s) && Enabled(s, e) && (e.NewSlot? || (s.handler.Looping? && (e.LockRegistry? || e.Inspect? || e.Push?)))
    ensures Due(Apply(true, s, e)) <= Due(s)
  {
    if e.Push? { AdvancedTakesLess(s.workers, Apply(true, s, e).workers, s.drained[s.handler.at..]); }
  }

  /** No step of anybody's puts the exit further off, save that of a registration which takes the
      registry's mutex ahead of the handler; and each step that helps brings it nearer. */
  lemma NothingDelaysExit(s: State, e: Event)
    requires Inv(s) && !(s.handler.Idle? && e.LockRegistry?)
    ensures Due(Apply(true, s, e)) <= Due(s)
    ensures Enabled(s, e) && Helps(s, e) ==> Due(Apply(true, s, e)) < Due(s)
  {
    if Enabled(s, e) {
      if WorkerEvent(e) { WorkerDue(s, e); }
      else if e.Drain? { DrainDue(s); }
      else if e.Inspect? && s.handler.Idle? { InspectDue(s); }
      else if e.Push? && s.handler.Idle? { PushDue(s); }
      else if e.NewSlot? || e.LockRegistry? || e.Inspect? || e.Push? { LateRegistrationDue(s, e); }
      else { HandlerDue(s, e); }
    }
  }

  lemma {:induction false} AtMostFour(ws: map<nat, WorkerPc>, ids: seq<nat>)
    ensures AllLeft(ws, ids) <= 4 * |ids|
    decreases |ids|
  {
    if ids != [] { AtMostFour(ws, ids[1..]); }
  }

  lemma DueBounds(s: State)
    requires Inv(s)
    ensures Due(s) >= 0 && (Due(s) == 0 <==> s.handler.Exited?)
    ensures s.handler.Looping? ==> Due(s) <= 1 + 8 * (|s.drained| - s.handler.at)
    ensures s.handler.Idle? ==> Due(s) <= 11 + 9 * |s.registry|
  {
    if s.handler.Looping? {
      AtMostFour(s.workers, s.drained[s.handler.at..]);
    } else if s.handler.Idle? {
      AtMostFour(s.workers, s.registry);
      if s.lock.Scanning? {
        AtMostFour(s.workers, s.lock.kept);
        AtMostFour(s.workers, s.registry[s.lock.seen..]);
      }
    }
  }

  /** In every reachable state before the exit a step that helps is enabled: the handler's own, or one
      of the registration that holds the registry's mutex, or one of the worker whose slot either of
      them waits for; and it brings the exit nearer. */
  lemma HandlerNeverStuck(es: seq<Event>) returns (e: Event)
    requires !Run(true, Initial, es).handler.Exited?
    ensures var s := Run(true, Initial, es);
      Enabled(s, e) && Helps(s, e) && Due(Apply(true, s, e)) < Due(s)
  {
    RunKeeps(Initial, es);
    var s := Run(true, Initial, es);
    e := NextMove(s);
    NextMoveEnabled(s);
    NothingDelaysExit(s, e);
  }

  /** Each event helps in the state it finds. */
  ghost predicate AllHelp(s: State, es: seq<Event>)
    decreases |es|
  {
    es == [] || (Enabled(s, es[0]) && Helps(s, es[0]) && AllHelp(Apply(true, s, es[0]), es[1..]))
  }

  lemma {:induction false} ExitFrom(s: State) returns (more: seq<Event>)
    requires Inv(s)
    ensures |more| <= Due(s) && AllHelp(s, more) && Run(true, s, more).handler.Exited?
    decreases Due(s)
  {
    DueBounds(s);
    if s.handler.Exited? {
      more := [];
    } else {
      var e := NextMove(s);
      NextMoveEnabled(s);
      NothingDelaysExit(s, e);
      StepKeeps(s, e);
      var rest := ExitFrom(Apply(true, s, e));
      more := [e] + rest;
      assert more[1..] == rest;
    }
  }

  /** From every reachable state the exit is a bounded number of such steps away: at most eight for
      each slot still to be looked at once the registry is drained, and at most eleven and nine for
      each registered slot before. */
  lemma HandlerReachesExit(es: seq<Event>) returns (more: seq<Event>)
    ensures var s := Run(true, Initial, es);
      && AllHelp(s, more) && Run(true, s, more).handler.Exited?
      && (s.handler.Looping? ==> |more| <= 1 + 8 * (|s.drained| - s.handler.at))
      && (s.handler.Idle? ==> |more| <= 11 + 9 * |s.registry|)
  {
    RunKeeps(Initial, es);
    DueBounds(Run(true, Initial, es));
    more := ExitFrom(Run(true, Initial, es));
  }

  /** The guard is what makes it so: were it released before the shred, the handler could find the
      slot empty and end the process while the worker is still shredding. */
  lemma GuardIsNeeded() returns (es: seq<Event>)
    ensures var s := Run(false, Initial, es); s.handler.Exited? && !(s.before <= s.finished)
  {
    es := [NewSlot(0)] + ([LockRegistry(0)] + ([Push] + ([WorkerLocks(0)] + ([WorkerTakes(0)]
          + ([Drain] + ([HandlerLocks] + ([HandlerTakes] + ([Exit] + []))))))));
    var s := LetGo();
    Prepend(Initial, NewSlot(0), es[1..]);
    var s1 := Apply(false, Initial, NewSlot(0));
    Prepend(s1, LockRegistry(0), es[2..]);
    var s2 := Apply(false, s1, LockRegistry(0));
    Prepend(s2, Push, es[3..]);
    var s3 := Apply(false, s2, Push);
    Prepend(s3, WorkerLocks(0), es[4..]);
    Prepend(Apply(false, s3, WorkerLocks(0)), WorkerTakes(0), es[5..]);
    LostShred(s);
  }

  /** One job, registered, taken out by its worker, and its slot's guard already released. */
  lemma LetGo() returns (s: State)
    ensures s == Apply(false, Apply(false, Apply(false, Apply(false, Apply(false, Initial,
              NewSlot(0)), LockRegistry(0)), Push), WorkerLocks(0)), WorkerTakes(0))
    ensures s.slots == map[0 := Slot(false, None)] && s.registry == [0] && s.lock.Unlocked? && s.handler.Idle?
    ensures s.registered == {0} && s.finished == {}
  {
    var s1 := Apply(false, Initial, NewSlot(0));
    assert s1.slots == map[0 := Slot(true, None)];
    var s2 := Apply(false, s1, LockRegistry(0));
    var s3 := Apply(false, s2, Push);
    assert s3.registry == [0] && s3.workers == map[0 := Viewing];
    var s4 := Apply(false, s3, WorkerLocks(0));
    assert s4.slots == map[0 := Slot(true, Some(Worker(0)))] && s4.workers == map[0 := Locked];
    s := Apply(false, s4, WorkerTakes(0));
  }

  lemma LostShred(s: State)
    requires s.slots == map[0 := Slot(false, None)] && s.registry == [0] && s.lock.Unlocked? && s.handler.Idle?
    requires s.registered == {0} && s.finished == {}
    ensures var t := Run(false, s, [Drain] + ([HandlerLocks] + ([HandlerTakes] + ([Exit] + []))));
      t.handler.Exited? && !(t.before <= t.finished)
  {
    Prepend(s, Drain, [HandlerLocks] + ([HandlerTakes] + ([Exit] + [])));
    var t := HandlerPasses(Apply(false, s, Drain));
    ExitsHere(t);
    assert 0 in t.before && 0 !in t.finished;
  }

  lemma ExitsHere(s: State)
    requires s.handler == Looping(1, Free) && s.drained == [0]
    ensures Run(false, s, [Exit] + []) == s.(handler := Exited)
  {
    Prepend(s, Exit, []);
  }

  /** The handler finds the slot free and empty, and passes on. */
  lemma HandlerPasses(s: State) returns (t: State)
    requires s.slots == map[0 := Slot(false, None)] && s.drained == [0] && s.handler == Looping(0, Free)
    ensures t.handler == Looping(1, Free) && t.drained == [0] && t.before == s.before && t.finished == s.finished
    ensures Run(false, s, [HandlerLocks] + ([HandlerTakes] + ([Exit] + []))) == Run(false, t, [Exit] + [])
  {
    var s4 := Apply(false, s, HandlerLocks);
    assert s4.slots == map[0 := Slot(false, Some(Handler))];
    t := Apply(false, s4, HandlerTakes);
    Prepend(s, HandlerLocks, [HandlerTakes] + ([Exit] + []));
    Prepend(s4, HandlerTakes, [Exit] + []);
  }

  lemma Prepend(s: State, e: Event, es: seq<Event>)
    ensures Run(false, s, [e] + es) == Run(false, Apply(false, s, e), es)
  {
    assert ([e] + es)[1..] == es;
  }
}
