/**
 Fibers, the scheduler's queue and the run loop of one worker as objects updated in place. Each stretch of the run loop
 takes objects that show one state of the step machine to objects that show the state after the machine's step.
 */
module Scheduler {
  import opened Wrappers
  import opened EventRegistry
  import opened FiberMachine
  import opened FiberInvariant

  /** A fiber object; the context switch itself is not part of it. `ok` is false where the source asserts. */
  class FiberObject {
    const id: nat
    var state: FiberState
    var body: Option<nat>

    ghost function View(): Fiber
      reads this
    {
      Fiber(state, body)
    }

    constructor (id: nat, cb: Option<nat>)
      ensures View() == Fiber(INIT, cb) && this.id == id
    {
      this.id, state, body := id, INIT, cb;
    }

    method Reset(cb: Option<nat>) returns (ok: bool)
      modifies this
      ensures ok <==> Dead(old(state)) || old(state) == INIT
      ensures View() == if ok then Fiber(INIT, cb) else old(View())
    {
      ok := state == TERM || state == EXCEPT || state == INIT;
      if ok { body, state := cb, INIT; }
    }

    method SwapIn() returns (ok: bool)
      modifies this`state
      ensures ok <==> old(state) != EXEC
      ensures state == EXEC
    {
      ok := state != EXEC;
      if ok { state := EXEC; }
    }

    method YieldToReady()
      modifies this`state
      ensures state == READY
    {
      state := READY;
    }

    method YieldToHold()
      modifies this`state
      ensures state == FiberState.HOLD
    {
      state := FiberState.HOLD;
    }

    /** What MainFunc leaves behind: a callback that threw is still owned. */
    method End(threw: bool)
      modifies this
      ensures View() == if threw then Fiber(EXCEPT, old(body)) else Fiber(TERM, None)
    {
      if threw { state := EXCEPT; } else { body, state := None, TERM; }
    }
  }

  /** The tasks that are not empty. */
  function Given(tasks: seq<Option<Task>>): seq<Task> {
    if tasks == [] then [] else
    (if tasks[0].Some? then [tasks[0].value] else []) + Given(tasks[1..])
  }

  lemma {:induction false} GivenConcat(a: seq<Option<Task>>, b: seq<Option<Task>>)
    ensures Given(a + b) == Given(a) + Given(b)
  {
    if a == [] {
      assert a + b == b;
    } else {
      GivenConcat(a[1..], b);
      assert (a + b)[1..] == a[1..] + b && (a + b)[0] == a[0];
      var first := if a[0].Some? then [a[0].value] else [];
      assert first + (Given(a[1..]) + Given(b)) == first + Given(a[1..]) + Given(b);
    }
  }

  class TaskQueue {
    /** Every fiber object there is. */
    var fibers: map<nat, FiberObject>
    var queue: seq<Entry>
    var active: int
    var autoStop: bool
    var stopping: bool

    ghost predicate Valid()
      reads this
    {
      && (forall f :: f in fibers ==> fibers[f].id == f)
      && forall e :: e in queue && e.task.Fib? ==> e.task.id in fibers
    }

    ghost function Fibers(): map<nat, Fiber>
      reads this`fibers, fibers.Values
    {
      map f | f in fibers :: fibers[f].View()
    }

    /** One fiber object changed, or was made. */
    twostate lemma FiberChanged(new x: FiberObject)
      requires x.id in fibers && fibers[x.id] == x && fibers.Keys == old(fibers.Keys) + {x.id}
      requires forall f :: f in old(fibers) && f != x.id ==>
                 fibers[f] == old(fibers[f]) && fibers[f].View() == old(fibers[f].View())
      ensures Fibers() == old(Fibers())[x.id := x.View()]
    {
    }

    /** The objects are what the state of the machine says. */
    ghost predicate Shows(s: State)
      reads this, fibers.Values
    {
      && Valid() && Fibers() == s.fibers && queue == s.queue && active == s.active
      && autoStop == s.autoStop && stopping == s.stopping
    }

    lemma FiberAt(f: nat)
      requires f in fibers
      ensures f in Fibers() && Fibers()[f] == fibers[f].View()
    {
    }

    /** Appends a task unless it is empty; true when the queue was empty before. */
    method ScheduleNoLock(task: Option<Task>, thread: int, ghost s: State) returns (needTickle: bool)
      requires Shows(s) && (task.Some? && task.value.Fib? ==> task.value.id in fibers)
      modifies this`queue
      ensures needTickle <==> old(queue) == []
      ensures queue == if task.Some? then old(queue) + [Entry(task.value, thread)] else old(queue)
      ensures Shows(if task.Some? then Enqueue(s, task.value, thread) else s)
    {
      needTickle := queue == [];
      if task.Some? { queue := queue + [Entry(task.value, thread)]; }
    }

    /** A batch is appended in one critical section, in order, without its empty tasks. */
    method ScheduleAll(tasks: seq<Option<Task>>, ghost s: State) returns (needTickle: bool)
      requires Shows(s) && forall t :: t in tasks && t.Some? && t.value.Fib? ==> t.value.id in fibers
      modifies this`queue
      ensures (needTickle ==> old(queue) == []) && (old(queue) == [] && tasks != [] ==> needTickle)
      ensures Shows(EnqueueAll(s, Given(tasks)))
    {
      hide EnqueueAll, Given;
      needTickle := false;
      EnqueueNone(s);
      ghost var now := s;
      ghost var done: seq<Option<Task>> := [];
      for i := 0 to |tasks|
        invariant Shows(now) && done == tasks[..i] && now == EnqueueAll(s, Given(done)) && fibers == old(fibers)
        invariant needTickle ==> old(queue) == []
        invariant old(queue) == [] && i > 0 ==> needTickle
        invariant i == 0 ==> queue == old(queue)
        invariant old(queue) <= queue
      {
        assert tasks[i] in tasks;
        var tickle := ScheduleNoLock(tasks[i], ANY, now);
        needTickle := tickle || needTickle;
        GivenConcat(done, [tasks[i]]);
        assert done + [tasks[i]] == tasks[..i + 1];
        EnqueueOne(now, tasks[i]);
        EnqueueMore(s, Given(done), Given([tasks[i]]));
        done := done + [tasks[i]];
        now := EnqueueAll(s, Given(done));
      }
      assert tasks[..|tasks|] == tasks;
    }

    /** The entry is another thread's, or its fiber runs. */
    predicate Passed(e: Entry, thread: nat)
      reads this`fibers, fibers.Values
    {
      || (e.thread != ANY && e.thread != thread)
      || (e.task.Fib? && e.task.id in fibers && fibers[e.task.id].state == EXEC)
    }

    /** The scan of the queue: `tickle` reports a skipped entry of another thread. */
    method Scan(thread: nat) returns (task: Option<Task>, tickle: bool)
      requires Valid()
      modifies this`queue, this`active
      ensures Valid()
      ensures match Pick(Fibers(), old(queue), thread, 0)
        case None => task.None? && queue == old(queue) && active == old(active)
        case Some(k) => k < |old(queue)| && task == Some(old(queue)[k].task)
                        && queue == old(queue)[..k] + old(queue)[k + 1..] && active == old(active) + 1
      ensures tickle ==> exists e :: e in old(queue) && e.thread != ANY && e.thread != thread
      ensures task.None? && (exists e :: e in old(queue) && e.thread != ANY && e.thread != thread) ==> tickle
      ensures task.None? <==> forall e :: e in old(queue) ==> Passed(e, thread)
      ensures task.Some? ==>
        (exists k :: 0 <= k < |old(queue)| && task.value == old(queue)[k].task
                     && !Passed(old(queue)[k], thread) && (forall j :: 0 <= j < k ==> Passed(old(queue)[j], thread))
                     && queue == old(queue)[..k] + old(queue)[k + 1..])
    {
      task, tickle := None, false;
      var it := 0;
      while it < |queue|
        invariant 0 <= it <= |queue| && queue == old(queue) && active == old(active) && task.None? && Valid()
        invariant Pick(Fibers(), queue, thread, 0) == Pick(Fibers(), queue, thread, it)
        invariant tickle <==> exists k :: 0 <= k < it && queue[k].thread != ANY && queue[k].thread != thread
        invariant forall k :: 0 <= k < it ==> Passed(queue[k], thread)
      {
        var e := queue[it];
        assert e in queue;
        if e.thread != ANY && e.thread != thread {
          it := it + 1;
          tickle := true;
        } else if e.task.Fib? && fibers[e.task.id].state == EXEC {
          it := it + 1;
        } else {
          task := Some(e.task);
          assert !Passed(queue[it], thread);
          queue := queue[..it] + queue[it + 1..];
          active := active + 1;
          return;
        }
      }
    }

    /** What `stopping` tells is the machine's condition. */
    method IsStopping(ghost s: State) returns (r: bool)
      requires Shows(s)
      ensures r <==> Stopping(s)
    {
      return autoStop && stopping && queue == [] && active == 0;
    }
  }

  lemma EnqueueNone(s: State)
    ensures Given([]) == [] && EnqueueAll(s, Given([])) == s
  {
  }

  lemma EnqueueOne(s: State, t: Option<Task>)
    ensures EnqueueAll(s, Given([t])) == if t.Some? then Enqueue(s, t.value, ANY) else s
  {
    assert [t][1..] == [];
    if t.Some? { assert Given([t]) == [t.value] && [t.value][1..] == []; }
  }

  lemma {:induction false} EnqueueMore(s: State, a: seq<Task>, b: seq<Task>)
    ensures EnqueueAll(s, a + b) == EnqueueAll(EnqueueAll(s, a), b)
    decreases |a|
  {
    if a == [] {
      assert a + b == b;
    } else {
      EnqueueMore(Enqueue(s, a[0], ANY), a[1..], b);
      assert (a + b)[1..] == a[1..] + b;
    }
  }

  /** How a task leaves its worker in one step of the machine. */
  datatype Exit = Yielding | Finishing | Throwing

  /** The machine's steps for it. */
  function Exited(s: State, w: nat, exit: Exit): State
    requires s.fault.None? && w < |s.workers| && s.workers[w].pc.Run?
  {
    match exit
    case Yielding => Step(Step(s, YieldReady(w)), PushBack(w))
    case Finishing => Step(s, Finish(w))
    case Throwing => Step(s, Throw(w))
  }

  /** What the fiber's record becomes. */
  function LeftAs(fiber: Fiber, viaCb: bool, exit: Exit): Fiber {
    match exit
    case Yielding => fiber.(state := READY)
    case Finishing => if viaCb then Fiber(INIT, None) else Fiber(TERM, None)
    case Throwing => if viaCb then Fiber(INIT, None) else fiber.(state := EXCEPT)
  }

  lemma ExitedIs(s: State, w: nat, exit: Exit)
    requires s.fault.None? && w < |s.workers| && s.workers[w].pc.Run?
    ensures var s', pc := Exited(s, w, exit), s.workers[w].pc;
      && s'.fibers == s.fibers[pc.fiber := LeftAs(Look(s, pc.fiber), pc.viaCb, exit)] && s'.active == s.active - 1
      && s'.queue == s.queue + (if exit.Yielding? then [Entry(Fib(pc.fiber), ANY)] else [])
      && s'.autoStop == s.autoStop && s'.stopping == s.stopping && |s'.workers| == |s.workers|
      && s'.workers[w].cbFiber == if pc.viaCb && exit.Yielding? then None else s.workers[w].cbFiber
  {
    match exit {
      case Yielding =>
      case Finishing =>
      case Throwing =>
    }
  }

  lemma StoredIs(s: State, w: nat)
    requires Possible(s, Action.StoreHold(w))
    ensures var s', f := Step(s, Action.StoreHold(w)), s.workers[w].pc.fiber;
      && s'.fibers == s.fibers[f := Look(s, f).(state := FiberState.HOLD)] && s'.active == s.active && s'.queue == s.queue
      && s'.autoStop == s.autoStop && s'.stopping == s.stopping && |s'.workers| == |s.workers|
      && s'.workers[w].cbFiber == s.workers[w].cbFiber
  {
  }

  /** What the run loop makes of the record it finds behind a switch. */
  function SettledAs(fiber: Fiber, viaCb: bool): Fiber {
    if fiber.state == READY then fiber else
    if Dead(fiber.state) then (if viaCb then Fiber(INIT, None) else fiber) else fiber.(state := FiberState.HOLD)
  }

  lemma WentOnIs(s: State, w: nat)
    requires Possible(s, Action.HoldDone(w)) && s.workers[w].pc.fiber in s.fibers
    ensures var s', pc := Step(s, Action.HoldDone(w)), s.workers[w].pc;
      var fiber := s.fibers[pc.fiber];
      && s'.fibers == s.fibers[pc.fiber := SettledAs(fiber, pc.viaCb)] && s'.active == s.active - 1
      && s'.queue == s.queue + (if fiber.state == READY then [Entry(Fib(pc.fiber), ANY)] else [])
      && s'.autoStop == s.autoStop && s'.stopping == s.stopping && |s'.workers| == |s.workers|
      && s'.workers[w].cbFiber == if pc.viaCb && !Dead(fiber.state) then None else s.workers[w].cbFiber
  {
    var f := s.workers[w].pc.fiber;
    assert s.fibers[f := s.fibers[f]] == s.fibers;
  }

  lemma StartedFiber(s: State, w: nat, made: nat, f: nat)
    requires Possible(s, Action.Start(w, made)) && s.workers[w].pc == Held(Fib(f)) && f in s.fibers
    ensures var s', fiber := Step(s, Action.Start(w, made)), s.fibers[f];
      && (s'.fault.None? <==> fiber.state != EXEC)
      && (s'.fault.None? ==>
          && s'.fibers == (if Dead(fiber.state) then s.fibers else s.fibers[f := fiber.(state := EXEC)])
          && s'.active == (if Dead(fiber.state) then s.active - 1 else s.active) && |s'.workers| == |s.workers|
          && s'.workers[w].cbFiber == s.workers[w].cbFiber && s'.queue == s.queue
          && s'.autoStop == s.autoStop && s'.stopping == s.stopping)
  {
  }

  lemma StartedCall(s: State, w: nat, made: nat, c: nat)
    requires Possible(s, Action.Start(w, made)) && s.workers[w].pc == Held(Call(c))
    requires s.workers[w].cbFiber.Some? ==> s.workers[w].cbFiber.value in s.fibers
    ensures var s', kept := Step(s, Action.Start(w, made)), s.workers[w].cbFiber;
      var g := if kept.Some? then kept.value else made;
      && (s'.fault.None? <==> kept.None? || Dead(s.fibers[g].state) || s.fibers[g].state == INIT)
      && (s'.fault.None? ==>
          && s'.fibers == s.fibers[g := Fiber(EXEC, Some(c))] && s'.active == s.active && |s'.workers| == |s.workers|
          && s'.workers[w].cbFiber == Some(g) && s'.queue == s.queue
          && s'.autoStop == s.autoStop && s'.stopping == s.stopping)
  {
  }

  lemma TakenIs(s: State, w: nat)
    requires Possible(s, Action.Take(w))
    ensures var s', k := Step(s, Action.Take(w)), Pick(s.fibers, s.queue, w, 0);
      && s'.fibers == s.fibers && s'.autoStop == s.autoStop && s'.stopping == s.stopping && |s'.workers| == |s.workers|
      && s'.workers[w].cbFiber == s.workers[w].cbFiber
      && match k
         case None => s'.queue == s.queue && s'.active == s.active && s'.workers[w].pc == NoTask
         case Some(i) => && i < |s.queue| && s'.queue == s.queue[..i] + s.queue[i + 1..] && s'.active == s.active + 1
                         && s'.workers[w].pc == Held(s.queue[i].task)
  {
    hide Pick;
    PickInRange(s, w);
  }

  lemma LookIs(s: State, f: nat)
    requires f in s.fibers
    ensures Look(s, f) == s.fibers[f]
  {
  }

  /** The run loop of worker `w` and its local variable. */
  class RunLoop {
    const w: nat
    const shared: TaskQueue
    var cbFiber: FiberObject?

    /** The worker's part of the state, too. */
    ghost predicate At(s: State)
      reads this, shared, shared.fibers.Values
    {
      && shared.Shows(s) && w < |s.workers|
      && s.workers[w].cbFiber == (if cbFiber == null then None else Some(cbFiber.id))
      && (cbFiber != null ==> cbFiber.id in shared.fibers && shared.fibers[cbFiber.id] == cbFiber)
    }

    constructor (w: nat, shared: TaskQueue, ghost s: State)
      requires shared.Shows(s) && w < |s.workers| && s.workers[w] == Worker(Top, None, INIT)
      ensures At(s) && this.w == w && this.shared == shared
    {
      this.w, this.shared, cbFiber := w, shared, null;
    }

    /** The critical section at the loop's head: the machine's take, seen as the task that comes out of it. */
    method Take(ghost s: State) returns (task: Option<Task>, tickle: bool)
      requires At(s) && Possible(s, Action.Take(w))
      modifies shared`queue, shared`active
      ensures At(Step(s, Action.Take(w)))
      ensures Step(s, Action.Take(w)).workers[w].pc == if task.Some? then Held(task.value) else NoTask
      ensures tickle ==> exists e :: e in s.queue && e.thread != ANY && e.thread != w
      ensures task.None? && (exists e :: e in s.queue && e.thread != ANY && e.thread != w) ==> tickle
    {
      hide Step, Pick, Eligible;
      TakenIs(s, w);
      task, tickle := shared.Scan(w);
    }

    /** A held fiber is entered, or dropped with its task if it is finished; false where the source asserts. */
    method StartFiber(f: nat, made: nat, ghost s: State) returns (ok: bool)
      requires At(s) && Possible(s, Action.Start(w, made)) && s.workers[w].pc == Held(Fib(f)) && f in shared.fibers
      modifies shared`active, shared.fibers[f]
      ensures ok <==> Step(s, Action.Start(w, made)).fault.None?
      ensures ok ==> At(Step(s, Action.Start(w, made)))
    {
      hide Step;
      StartedFiber(s, w, made, f);
      var fiber := shared.fibers[f];
      if fiber.state == TERM || fiber.state == EXCEPT {
        shared.active := shared.active - 1;
        return true;
      }
      ok := fiber.SwapIn();
      assert ok ==> shared.Fibers() == Step(s, Action.Start(w, made)).fibers;
    }

    /** A callback gets the kept fiber, reset, or a new one with number `made`, and is entered. */
    method StartCall(c: nat, made: nat, ghost s: State) returns (ok: bool)
      requires At(s) && Possible(s, Action.Start(w, made)) && s.workers[w].pc == Held(Call(c))
      modifies this`cbFiber, shared`fibers, shared.fibers.Values
      ensures ok <==> Step(s, Action.Start(w, made)).fault.None?
      ensures ok ==> At(Step(s, Action.Start(w, made)))
    {
      hide Step, TaskQueue.Fibers;
      if cbFiber != null { shared.FiberAt(cbFiber.id); }
      StartedCall(s, w, made, c);
      if cbFiber != null {
        ok := cbFiber.Reset(Some(c));
        if !ok { return; }
      } else {
        cbFiber := new FiberObject(made, Some(c));
        shared.fibers := shared.fibers[made := cbFiber];
      }
      ok := cbFiber.SwapIn();
      shared.FiberChanged(cbFiber);
    }

    /** The task leaves fiber `fiber` in the state its exit gives. */
    method Leave(fiber: FiberObject, exit: Exit)
      modifies fiber
      ensures fiber.View() == LeftAs(old(fiber.View()), false, exit)
    {
      match exit {
        case Yielding => fiber.YieldToReady();
        case Finishing => fiber.End(false);
        case Throwing => fiber.End(true);
      }
    }

    /**
     The run loop after the switch: requeue, reset or hold, whatever state it finds, and keep the callback fiber only if
     it is done.
     */
    method Settle(fiber: FiberObject, viaCb: bool)
      requires viaCb ==> cbFiber == fiber
      modifies this`cbFiber, shared`active, shared`queue, fiber
      ensures shared.active == old(shared.active) - 1
      ensures shared.queue
           == old(shared.queue) + (if old(fiber.state) == READY then [Entry(Fib(fiber.id), ANY)] else [])
      ensures fiber.View() == SettledAs(old(fiber.View()), viaCb)
      ensures cbFiber == if viaCb && !Dead(old(fiber.state)) then null else old(cbFiber)
    {
      shared.active := shared.active - 1;
      if fiber.state == READY {
        shared.queue := shared.queue + [Entry(Fib(fiber.id), ANY)];
        if viaCb { cbFiber := null; }
      } else if fiber.state == TERM || fiber.state == EXCEPT {
        if viaCb {
          var ok := fiber.Reset(None);
        }
      } else {
        fiber.state := FiberState.HOLD;
        if viaCb { cbFiber := null; }
      }
    }

    method Depart(fiber: FiberObject, viaCb: bool, exit: Exit)
      requires (viaCb ==> cbFiber == fiber) && fiber.state == EXEC
      modifies this`cbFiber, shared`active, shared`queue, fiber
      ensures shared.active == old(shared.active) - 1
      ensures shared.queue == old(shared.queue) + (if exit.Yielding? then [Entry(Fib(fiber.id), ANY)] else [])
      ensures fiber.View() == LeftAs(old(fiber.View()), viaCb, exit)
      ensures cbFiber == if viaCb && exit.Yielding? then null else old(cbFiber)
    {
      Leave(fiber, exit);
      Settle(fiber, viaCb);
    }

    /** Both together are the machine's steps. */
    method SwitchOut(f: nat, viaCb: bool, exit: Exit, ghost s: State)
      requires At(s) && s.fault.None? && s.workers[w].pc == Run(f, viaCb) && f in shared.fibers
      requires viaCb ==> cbFiber != null && cbFiber.id == f
      requires Look(s, f).state == EXEC
      modifies this`cbFiber, shared`active, shared`queue, shared.fibers[f]
      ensures At(Exited(s, w, exit))
    {
      hide Exited, Step, Look, TaskQueue.Fibers, LeftAs;
      ExitedIs(s, w, exit);
      shared.FiberAt(f);
      LookIs(s, f);
      var fiber := shared.fibers[f];
      Depart(fiber, viaCb, exit);
      shared.FiberChanged(fiber);
    }

    /** YieldToHold up to the switch: the fiber is marked while the worker is still on its stack. */
    method StoreHold(f: nat, ghost s: State)
      requires At(s) && Possible(s, Action.StoreHold(w)) && s.workers[w].pc.fiber == f && f in shared.fibers
      modifies shared.fibers[f]
      ensures At(Step(s, Action.StoreHold(w)))
    {
      hide Step, Look, TaskQueue.Fibers;
      shared.FiberAt(f);
      LookIs(s, f);
      StoredIs(s, w);
      var fiber := shared.fibers[f];
      fiber.YieldToHold();
      shared.FiberChanged(fiber);
    }

    /** The run loop behind that switch, whatever became of the fiber meanwhile. */
    method HoldDone(f: nat, viaCb: bool, ghost s: State)
      requires At(s) && s.fault.None? && s.workers[w].pc == Leaving(f, viaCb) && f in shared.fibers
      requires viaCb ==> cbFiber != null && cbFiber.id == f
      modifies this`cbFiber, shared`active, shared`queue, shared.fibers[f]
      ensures At(Step(s, Action.HoldDone(w)))
    {
      hide Step, TaskQueue.Fibers, SettledAs;
      shared.FiberAt(f);
      WentOnIs(s, w);
      var fiber := shared.fibers[f];
      Settle(fiber, viaCb);
      shared.FiberChanged(fiber);
    }
  }
}
