/**
 Workers, fibers, the task queue and the event registry as one step machine. A step is one critical section, or the
 switch out of a task together with the fix-ups that follow it in the run loop. Holding is two steps: the state is stored
 while the worker is still on the fiber's stack, and other workers see it at once.
 */
module FiberMachine {
  import opened Sums
  import opened Wrappers
  import opened EventRegistry

  datatype FiberState = INIT | HOLD | EXEC | TERM | READY | EXCEPT

  /** `body` is the callback a fiber still owns. */
  datatype Fiber = Fiber(state: FiberState, body: Option<nat>)

  /** `thread` is a worker's number, or ANY. */
  datatype Entry = Entry(task: Task, thread: int)

  const ANY: int := -1

  /**
   Where a worker stands in `run`. `viaCb` tells the callback branch from the fiber branch. `Leaving` is between the
   store of HOLD and the fix-ups behind the switch.
   */
  datatype Pc =
    | Top
    | NoTask
    | Held(task: Task)
    | Run(fiber: nat, viaCb: bool)
    | Leaving(fiber: nat, viaCb: bool)
    | Requeue(fiber: nat, viaCb: bool)
    | Idling
    | Left

  datatype Worker = Worker(pc: Pc, cbFiber: Option<nat>, idle: FiberState)

  datatype Fault = InRegistry(site: Site) | SWAP_IN_RUNNING | RESET_UNFINISHED | ARM_NOT_RUNNING

  /**
   `waiting` are the fibers that, while running, armed an event or a sleep timer or were scheduled, and were not resumed
   since; `asleep` those whose wake-up is owed by a timer callback. The last four fields record history.
   */
  datatype State = State(
    fibers: map<nat, Fiber>,
    queue: seq<Entry>,
    reg: Registry,
    asleep: set<nat>,
    waiting: set<nat>,
    workers: seq<Worker>,
    active: int,
    autoStop: bool,
    stopping: bool,
    fault: Option<Fault>,
    scheduled: seq<Task>,
    served: seq<Task>,
    registrations: seq<nat>,
    resumptions: seq<nat>)

  /**
   The steps. Those on events name the object that a look-up or the kernel gave before, and `Grow` any new size: a
   thread may have looked at the table long ago.
   */
  datatype Action =
    | Take(w: nat)
    | Start(w: nat, made: nat)
    | Idle(w: nat)
    | LeaveIdle(w: nat)
    | IdleDone(w: nat)
    | StoreHold(w: nat)
    | HoldDone(w: nat)
    | YieldReady(w: nat)
    | PushBack(w: nat)
    | Finish(w: nat)
    | Throw(w: nat)
    | Park(w: nat, o: nat, ev: Event, accept: bool)
    | Sleep(w: nat)
    | Wake(f: nat)
    | ParkCall(o: nat, ev: Event, cb: nat, accept: bool)
    | Del(o: nat, ev: Event, accept: bool)
    | Cancel(o: nat, ev: Event, accept: bool)
    | CancelEvery(o: nat, accept: bool)
    | Report(o: nat, reported: Mask, error: bool, accept: bool)
    | Grow(size: nat)
    | Spawn(f: nat, body: nat)
    | Push(pusher: Option<nat>, entry: Entry)
    | StopAll

  // ---- the code ----

  function FiberIn(fibers: map<nat, Fiber>, f: nat): Fiber {
    if f in fibers then fibers[f] else Fiber(TERM, None)
  }

  function Look(s: State, f: nat): Fiber {
    FiberIn(s.fibers, f)
  }

  function SetFiber(s: State, f: nat, state: FiberState): State {
    s.(fibers := s.fibers[f := Look(s, f).(state := state)])
  }

  function Put(s: State, w: nat, wk: Worker): State
    requires w < |s.workers|
  {
    s.(workers := s.workers[w := wk])
  }

  predicate Eligible(fibers: map<nat, Fiber>, w: int, e: Entry) {
    (e.thread == ANY || e.thread == w) && !(e.task.Fib? && FiberIn(fibers, e.task.id).state == EXEC)
  }

  /** The scan of the queue: pinned entries of other threads and running fibers are passed over. */
  function Pick(fibers: map<nat, Fiber>, queue: seq<Entry>, w: int, from: nat): Option<nat>
    requires from <= |queue|
    decreases |queue| - from
  {
    if from == |queue| then None
    else if Eligible(fibers, w, queue[from]) then Some(from)
    else Pick(fibers, queue, w, from + 1)
  }

  function Enqueue(s: State, t: Task, thread: int): State {
    s.(queue := s.queue + [Entry(t, thread)], scheduled := s.scheduled + [t])
  }

  function EnqueueAll(s: State, ts: seq<Task>): State
    decreases |ts|
  {
    if ts == [] then s else EnqueueAll(Enqueue(s, ts[0], ANY), ts[1..])
  }

  function Dead(state: FiberState): bool {
    state == TERM || state == EXCEPT
  }

  function DoTake(s: State, w: nat): State
    requires w < |s.workers|
  {
    match Pick(s.fibers, s.queue, w, 0)
    case None => Put(s, w, s.workers[w].(pc := NoTask))
    case Some(k) =>
      if k >= |s.queue| then s else
      Put(s.(queue := s.queue[..k] + s.queue[k + 1..], active := s.active + 1),
          w, s.workers[w].(pc := Held(s.queue[k].task)))
  }

  function SwapIn(s: State, w: nat, f: nat, wk: Worker): State
    requires w < |s.workers|
  {
    if Look(s, f).state == EXEC then s.(fault := Some(SWAP_IN_RUNNING)) else
    Put(SetFiber(s, f, EXEC), w, wk).(
      waiting := s.waiting - {f},
      resumptions := if f in s.waiting then s.resumptions + [f] else s.resumptions)
  }

  function DoStart(s: State, w: nat, t: Task, made: nat): State
    requires w < |s.workers|
  {
    var wk := s.workers[w];
    var s1 := s.(served := s.served + [t]);
    match t
    case Fib(f) =>
      if Dead(Look(s, f).state) then Put(s1.(active := s.active - 1), w, wk.(pc := Top))
      else SwapIn(s1, w, f, wk.(pc := Run(f, false)))
    case Call(c) =>
      if wk.cbFiber.Some? then
        var g := wk.cbFiber.value;
        if !(Dead(Look(s, g).state) || Look(s, g).state == INIT) then s.(fault := Some(RESET_UNFINISHED))
        else SwapIn(s1.(fibers := s.fibers[g := Fiber(INIT, Some(c))]), w, g, wk.(pc := Run(g, true)))
      else
        SwapIn(s1.(fibers := s.fibers[made := Fiber(INIT, Some(c))]), w, made,
               Worker(Run(made, true), Some(made), wk.idle))
  }

  function DropIf(viaCb: bool, cbFiber: Option<nat>): Option<nat> {
    if viaCb then None else cbFiber
  }

  /** A finished callback fiber is reset at once and kept by its worker. */
  function DoEnd(s: State, w: nat, f: nat, viaCb: bool, ended: Fiber): State
    requires w < |s.workers|
  {
    Put(s.(fibers := s.fibers[f := if viaCb then Fiber(INIT, None) else ended], active := s.active - 1),
        w, s.workers[w].(pc := Top))
  }

  /** Behind the switch of a fiber that stored HOLD: the loop goes by the state it finds. */
  function DoHoldDone(s: State, w: nat, f: nat, viaCb: bool): State
    requires w < |s.workers|
  {
    var s1, wk := s.(active := s.active - 1), s.workers[w];
    if Look(s, f).state == READY then
      Put(Enqueue(s1, Fib(f), ANY), w, wk.(pc := Top, cbFiber := DropIf(viaCb, wk.cbFiber)))
    else if Dead(Look(s, f).state) then
      Put(if viaCb then s1.(fibers := s.fibers[f := Fiber(INIT, None)]) else s1, w, wk.(pc := Top))
    else
      Put(SetFiber(s1, f, FiberState.HOLD), w, wk.(pc := Top, cbFiber := DropIf(viaCb, wk.cbFiber)))
  }

  /** Scheduling a fiber that runs is a wake-up it will have to wait for. */
  function Noted(s: State, t: Task): State {
    if t.Fib? && Look(s, t.id).state == EXEC then
      s.(waiting := s.waiting + {t.id}, registrations := s.registrations + [t.id])
    else s
  }

  function DoIdle(s: State, w: nat): State
    requires w < |s.workers|
  {
    var wk := s.workers[w];
    if wk.idle == TERM then Put(s, w, wk.(pc := Left))
    else if wk.idle == EXEC then s.(fault := Some(SWAP_IN_RUNNING))
    else Put(s, w, wk.(pc := Idling, idle := EXEC))
  }

  /** What a reply of the registry does to the machine; the woken tasks are scheduled in order. */
  function Absorb(s: State, reply: Reply): State {
    match reply
    case Broken(site) => s.(fault := Some(InRegistry(site)))
    case Reply(reg, woken, _) => EnqueueAll(s.(reg := reg), woken)
  }

  function DoPark(s: State, f: nat, o: nat, ev: Event, accept: bool): State
    requires o < |s.reg.objects|
  {
    var reply := AddEvent(s.reg, o, ev, Fib(f), accept);
    if reply.Broken? || !reply.ok then Absorb(s, reply)
    else if Look(s, f).state != EXEC then s.(fault := Some(ARM_NOT_RUNNING))
    else s.(reg := reply.reg, waiting := s.waiting + {f}, registrations := s.registrations + [f])
  }

  predicate Stopping(s: State) {
    s.autoStop && s.stopping && s.queue == [] && s.active == 0
  }

  /** Which steps the code and the operating system can take. */
  predicate Possible(s: State, a: Action) {
    s.fault.None? &&
    match a
    case Take(w) => w < |s.workers| && s.workers[w].pc.Top?
    case Start(w, made) => w < |s.workers| && s.workers[w].pc.Held? && made !in s.fibers
    case Idle(w) => w < |s.workers| && s.workers[w].pc.NoTask?
    case LeaveIdle(w) => w < |s.workers| && s.workers[w].pc.Idling?
    case IdleDone(w) => w < |s.workers| && s.workers[w].pc.Idling? && Stopping(s)
    case StoreHold(w) => w < |s.workers| && s.workers[w].pc.Run?
    case HoldDone(w) => w < |s.workers| && s.workers[w].pc.Leaving?
    case YieldReady(w) => w < |s.workers| && s.workers[w].pc.Run?
    case PushBack(w) => w < |s.workers| && s.workers[w].pc.Requeue?
    case Finish(w) => w < |s.workers| && s.workers[w].pc.Run?
    case Throw(w) => w < |s.workers| && s.workers[w].pc.Run?
    case Park(w, o, _, _) => w < |s.workers| && s.workers[w].pc.Run? && o < |s.reg.objects|
    case Sleep(w) => w < |s.workers| && s.workers[w].pc.Run?
    case Wake(f) => f in s.asleep
    case ParkCall(o, _, _, _) => o < |s.reg.objects|
    case Del(o, _, _) => o < |s.reg.objects|
    case Cancel(o, _, _) => o < |s.reg.objects|
    case CancelEvery(o, _) => o < |s.reg.objects|
    case Report(o, _, _, _) => o < |s.reg.objects|
    case Grow(size) => INITIAL_SIZE <= size
    case Spawn(f, _) => f !in s.fibers
    case Push(pusher, _) => pusher.Some? ==> pusher.value < |s.workers| && s.workers[pusher.value].pc.Run?
    case StopAll => true
  }

  function Step(s: State, a: Action): State
    requires Possible(s, a)
  {
    match a
    case Take(w) => DoTake(s, w)
    case Start(w, made) => DoStart(s, w, s.workers[w].pc.task, made)
    case Idle(w) => DoIdle(s, w)
    case LeaveIdle(w) => Put(s, w, s.workers[w].(pc := Top, idle := FiberState.HOLD))
    case IdleDone(w) => Put(s, w, s.workers[w].(pc := Top, idle := TERM))
    case StoreHold(w) =>
      var pc := s.workers[w].pc;
      Put(SetFiber(s, pc.fiber, FiberState.HOLD), w, s.workers[w].(pc := Leaving(pc.fiber, pc.viaCb)))
    case HoldDone(w) => DoHoldDone(s, w, s.workers[w].pc.fiber, s.workers[w].pc.viaCb)
    case YieldReady(w) =>
      var pc := s.workers[w].pc;
      Put(SetFiber(s, pc.fiber, READY).(active := s.active - 1), w, s.workers[w].(pc := Requeue(pc.fiber, pc.viaCb)))
    case PushBack(w) =>
      var pc := s.workers[w].pc;
      Put(Enqueue(s, Fib(pc.fiber), ANY),
          w, s.workers[w].(pc := Top, cbFiber := DropIf(pc.viaCb, s.workers[w].cbFiber)))
    case Finish(w) =>
      var pc := s.workers[w].pc;
      DoEnd(s, w, pc.fiber, pc.viaCb, Fiber(TERM, None))
    case Throw(w) =>
      var pc := s.workers[w].pc;
      DoEnd(s, w, pc.fiber, pc.viaCb, Look(s, pc.fiber).(state := EXCEPT))
    case Park(w, o, ev, accept) => DoPark(s, s.workers[w].pc.fiber, o, ev, accept)
    case Sleep(w) =>
      var f := s.workers[w].pc.fiber;
      s.(asleep := s.asleep + {f}, waiting := s.waiting + {f}, registrations := s.registrations + [f])
    case Wake(f) => Enqueue(s.(asleep := s.asleep - {f}), Fib(f), ANY)
    case ParkCall(o, ev, cb, accept) => Absorb(s, AddEvent(s.reg, o, ev, Call(cb), accept))
    case Del(o, ev, accept) => Absorb(s, DelEvent(s.reg, o, ev, accept))
    case Cancel(o, ev, accept) => Absorb(s, CancelEvent(s.reg, o, ev, accept))
    case CancelEvery(o, accept) => Absorb(s, CancelAll(s.reg, o, accept))
    case Report(o, reported, error, accept) => Absorb(s, Deliver(s.reg, o, reported, error, accept))
    case Grow(size) => s.(reg := Resize(s.reg, size))
    case Spawn(f, body) => s.(fibers := s.fibers[f := Fiber(INIT, Some(body))])
    case Push(_, entry) => Enqueue(Noted(s, entry.task), entry.task, entry.thread)
    case StopAll => s.(autoStop := true, stopping := true)
  }

  // ---- what the clients of the library owe ----

  predicate Running(s: State, w: nat) {
    w < |s.workers| && s.workers[w].pc.Run?
  }

  /**
   One waiter for each event; a fiber arms one wake-up at a time and then switches out to wait for it; a fiber is
   scheduled, by itself or from outside, only when nothing else will resume it; no armed fiber is deleted from its
   event; a report handled late does not overreport.
   */
  ghost predicate Disciplined(s: State, a: Action) {
    match a
    case Park(w, o, ev, _) =>
      Running(s, w) && s.workers[w].pc.fiber !in s.waiting && o < |s.reg.objects| && !s.reg.objects[o].events.Has(ev)
    case ParkCall(o, ev, _, _) => o < |s.reg.objects| && !s.reg.objects[o].events.Has(ev)
    case Sleep(w) => Running(s, w) && s.workers[w].pc.fiber !in s.waiting
    case YieldReady(w) => Running(s, w) && s.workers[w].pc.fiber !in s.waiting
    case Finish(w) => Running(s, w) && s.workers[w].pc.fiber !in s.waiting
    case Throw(w) => Running(s, w) && s.workers[w].pc.fiber !in s.waiting
    case Del(o, ev, _) => o < |s.reg.objects| ==> GetContext(s.reg.objects[o], ev).fiber.None?
    case Report(o, reported, error, _) =>
      o < |s.reg.objects| && !Overreports(s.reg.objects[o].events, reported, error)
    case Push(_, Entry(Fib(f), _)) =>
      f in s.fibers && Tokens(s, f) == 0 && Count(s.workers, Keeps, f) == 0
    case _ => true
  }

  /** What the clients do and the code can do. */
  ghost predicate Compliant(s: State, a: Action) {
    Possible(s, a) && Disciplined(s, a)
  }

  /** No fiber is entered that a worker is still leaving. This is luck: the code does not wait for it. */
  predicate Settled(s: State, a: Action) {
    match a
    case Start(w, _) =>
      w < |s.workers| && s.workers[w].pc.Held? && s.workers[w].pc.task.Fib? ==>
        Count(s.workers, Leaves, s.workers[w].pc.task.id) == 0
    case _ => true
  }

  ghost predicate Allowed(s: State, a: Action) {
    Compliant(s, a) && Settled(s, a)
  }

  // ---- counting ----

  function Queued(e: Entry, f: nat): nat {
    SameTask(e.task, Fib(f))
  }

  /** A worker carries `f`: dequeued and not started, or yielded and not pushed back. */
  function InHand(wk: Worker, f: nat): nat {
    if (wk.pc.Held? && wk.pc.task == Fib(f)) || (wk.pc.Requeue? && wk.pc.fiber == f) then 1 else 0
  }

  function Runs(wk: Worker, f: nat): nat {
    if wk.pc.Run? && wk.pc.fiber == f then 1 else 0
  }

  function Leaves(wk: Worker, f: nat): nat {
    if wk.pc.Leaving? && wk.pc.fiber == f then 1 else 0
  }

  /** A worker keeps `f` as its finished callback fiber. */
  function Keeps(wk: Worker, f: nat): nat {
    if wk.cbFiber == Some(f) && wk.pc != Run(f, true) && wk.pc != Requeue(f, true) && wk.pc != Leaving(f, true)
    then 1 else 0
  }

  function Busy(wk: Worker, weight: nat): nat {
    if wk.pc.Held? || wk.pc.Run? || wk.pc.Leaving? then weight else 0
  }

  function Asks(e: Entry, t: Task): nat {
    SameTask(e.task, t)
  }

  function Holds(wk: Worker, t: Task): nat {
    if wk.pc == Held(t) then 1 else 0
  }

  function SameFiber(g: nat, f: nat): nat {
    if g == f then 1 else 0
  }

  function Asleep(s: State, f: nat): nat {
    if f in s.asleep then 1 else 0
  }

  /**
   Everything the machine says about one fiber. The tokens are the wake-ups it has coming: entries in the queue,
   armed contexts, sleep timers and workers carrying it.
   */
  datatype Tally = Tally(known: bool, fiber: Fiber, queued: nat, parked: nat, asleep: nat, hand: nat,
                         run: nat, leaving: nat, kept: nat, waiting: bool, registered: nat, resumed: nat) {
    function Tokens(): nat { queued + parked + asleep + hand }
  }

  function TallyOf(s: State, f: nat): Tally {
    Tally(f in s.fibers, Look(s, f), Count(s.queue, Queued, f), ParkedIn(s.reg, Fib(f)), Asleep(s, f),
          Count(s.workers, InHand, f), Count(s.workers, Runs, f), Count(s.workers, Leaves, f),
          Count(s.workers, Keeps, f), f in s.waiting,
          Count(s.registrations, SameFiber, f), Count(s.resumptions, SameFiber, f))
  }

  function Tokens(s: State, f: nat): nat {
    TallyOf(s, f).Tokens()
  }

  // ---- the invariant ----

  /**
   One worker at most is on a fiber's stack, running or leaving it. A fiber that waits has exactly one wake-up coming
   and is running or held; any other fiber has at most one, none of them armed or asleep, and none at all while it
   runs. A kept callback fiber is reset and known to nobody else. Every registration was answered by one resumption,
   except the one still waiting.
   */
  predicate TallyOk(t: Tally) {
    && (!t.known ==> t.Tokens() == 0 && t.kept == 0)
    && t.Tokens() <= 1 && t.run + t.leaving <= 1 && t.kept <= 1
    && (t.run == 1 <==> t.fiber.state == EXEC)
    && (t.leaving == 1 ==> t.fiber.state == FiberState.HOLD)
    && (t.kept == 1 ==> t.fiber == Fiber(INIT, None) && t.Tokens() == 0)
    && (t.waiting ==> t.Tokens() == 1 && (t.fiber.state == EXEC || t.fiber.state == FiberState.HOLD))
    && (!t.waiting ==> t.parked == 0 && t.asleep == 0 && (t.fiber.state == EXEC ==> t.Tokens() == 0))
    && t.registered == t.resumed + if t.waiting then 1 else 0
  }

  predicate FiberOk(s: State, f: nat) {
    TallyOk(TallyOf(s, f))
  }

  predicate WorkerOk(s: State, wk: Worker) {
    && (wk.pc.Held? && wk.pc.task.Fib? ==> Look(s, wk.pc.task.id).state != EXEC)
    && ((wk.pc.Run? || wk.pc.Leaving?) && wk.pc.viaCb ==> wk.cbFiber == Some(wk.pc.fiber))
    && (wk.pc.Requeue? ==> Look(s, wk.pc.fiber).state == READY)
    && (wk.pc.Requeue? && wk.pc.viaCb ==> wk.cbFiber == Some(wk.pc.fiber))
    && (wk.pc.Idling? <==> wk.idle == EXEC)
    && (wk.pc.Left? ==> wk.idle == TERM)
  }

  ghost predicate TaskOk(s: State, t: Task) {
    Count(s.scheduled, SameTask, t) ==
    Count(s.queue, Asks, t) + Count(s.workers, Holds, t) + Count(s.served, SameTask, t)
  }

  ghost predicate Inv(s: State) {
    && s.fault.None?
    && Consistent(s.reg)
    && s.active == Count(s.workers, Busy, 1)
    && (forall i :: 0 <= i < |s.workers| ==> WorkerOk(s, s.workers[i]))
    && (forall f :: FiberOk(s, f))
    && (forall t :: TaskOk(s, t))
  }
}
