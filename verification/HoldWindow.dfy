/**
 YieldToHold stores HOLD before it switches out, and the queue's scan goes by that state: a run in which a second worker
 enters the fiber while the first is still on its stack.
 */
module HoldWindow {
  import opened Sums
  import opened Wrappers
  import opened EventRegistry
  import opened FiberMachine
  import opened FiberInvariant
  import opened FiberTheorems

  /** A callback runs on worker 0 with nothing queued, and worker 1 is at the head of its loop. */
  ghost predicate Alone(s: State, g: nat, o: nat) {
    && |s.workers| > 1 && s.workers[0].pc == Run(g, true) && s.workers[1].pc == Top && s.queue == [] && s.fault.None?
    && g in s.fibers && s.fibers.Keys == {g} && s.fibers[g].state == EXEC && s.waiting == {}
    && Consistent(s.reg) && o < |s.reg.objects| && s.reg.objects[o].events == NONE && NoRival(s.reg, o)
  }

  /** It armed an event. */
  ghost predicate Waits(s: State, g: nat, o: nat) {
    && |s.workers| > 1 && s.workers[0].pc == Run(g, true) && s.workers[1].pc == Top && s.queue == [] && s.fault.None?
    && g in s.fibers && s.fibers.Keys == {g} && s.fibers[g].state == EXEC
    && Consistent(s.reg) && o < |s.reg.objects| && s.reg.objects[o].events == Only(READ)
    && Occupied(s.reg.objects[o].read) && TheWaiter(s.reg.objects[o].read) == Fib(g)
  }

  /** The event it armed was reported: the fiber still runs and is queued. */
  ghost predicate Reported(s: State, g: nat) {
    && |s.workers| > 1 && s.workers[0].pc == Run(g, true) && s.workers[1].pc == Top && s.fault.None?
    && g in s.fibers && s.fibers.Keys == {g} && s.fibers[g].state == EXEC && s.queue == [Entry(Fib(g), ANY)]
  }

  lemma Parks(s: State, g: nat, o: nat)
    requires Alone(s, g, o)
    ensures Compliant(s, Park(0, o, READ, true)) && Waits(Step(s, Park(0, o, READ, true)), g, o)
  {
    hide KernelAgrees;
    AddKeeps(s.reg, o, READ, Fib(g), true);
  }

  lemma Reports(s: State, g: nat, o: nat)
    requires Waits(s, g, o)
    ensures Compliant(s, Report(o, Only(READ), false, true))
    ensures Reported(Step(s, Report(o, Only(READ), false, true)), g)
  {
    hide Deliver, Consistent, Sound, HandsOver, EnqueueAll;
    ReportsFind(s.reg, o, READ);
    var reply := Deliver(s.reg, o, Only(READ), false, true);
    EnqueueAllOne(s.(reg := reply.reg), Fib(g));
  }

  lemma EnqueueAllOne(s: State, t: Task)
    ensures EnqueueAll(s, [t]) == Enqueue(s, t, ANY)
  {
    assert [t][1..] == [];
  }

  /** The fiber stores HOLD, worker 1 finds it in the queue, and enters it. */
  lemma Collides(s: State, g: nat, made: nat)
    requires Reported(s, g) && made != g
    ensures Compliant(s, StoreHold(0)) && Compliant(Step(s, StoreHold(0)), Take(1))
    ensures var s2 := Step(Step(s, StoreHold(0)), Take(1));
      && Compliant(s2, Start(1, made))
      && var s3 := Step(s2, Start(1, made));
      && |s3.workers| > 1 && s3.workers[0].pc == Leaving(g, true) && s3.workers[1].pc == Run(g, false)
      && g in s3.fibers && s3.fibers[g].state == EXEC && s3.fault.None?
  {
    var s1 := Step(s, StoreHold(0));
    TakesFront(s1, 1);
    var s2 := Step(s1, Take(1));
    assert s2.workers[1].pc == Held(Fib(g)) && s2.workers[0].pc == Leaving(g, true);
  }

  lemma CompliantFirst(s: State, end: State, steps: seq<Action>)
    requires if steps == [] then end == s else
             && Compliant(s, steps[0]) && IsCompliantRun(Step(s, steps[0]), steps[1..])
             && Feasible(Step(s, steps[0]), steps[1..]) && Reached(Step(s, steps[0]), steps[1..]) == end
    ensures IsCompliantRun(s, steps) && Feasible(s, steps) && Reached(s, steps) == end
  {
  }

  /**
   From the start, with clients that do as they should: a callback arms an event, which is reported at once; it stores
   HOLD, and worker 1 enters its fiber before worker 0 has left the stack. What worker 0 does next marks the fiber as
   held while worker 1 runs it.
   */
  lemma EnteredWhileLeft(s0: State, c: nat, o: nat, made: nat) returns (steps: seq<Action>)
    requires Initial(s0) && |s0.workers| > 1 && o < INITIAL_SIZE
    ensures IsCompliantRun(s0, steps) && Feasible(s0, steps)
    ensures steps == [Push(None, Entry(Call(c), ANY)), Take(0), Start(0, made), Park(0, o, READ, true),
                      Report(o, Only(READ), false, true), StoreHold(0), Take(1), Start(1, made + 1)]
    ensures var s := Reached(s0, steps);
      && !Exclusive(s) && Possible(s, HoldDone(0))
      && var s' := Step(s, HoldDone(0));
      && |s'.workers| > 1 && s'.workers[1].pc == Run(made, false) && Look(s', made).state == FiberState.HOLD
  {
    hide IsCompliantRun, Feasible, Reached, Step, Possible, Disciplined, Exclusive, Alone, Waits, Reported;
    var push := Push(None, Entry(Call(c), ANY));
    var report := Report(o, Only(READ), false, true);
    Begins(s0, c, o, made);
    var s1 := Step(s0, push);
    var s2 := Step(s1, Take(0));
    var s3 := Step(s2, Start(0, made));
    Parks(s3, made, o);
    var s4 := Step(s3, Park(0, o, READ, true));
    Reports(s4, made, o);
    var s5 := Step(s4, report);
    Collides(s5, made, made + 1);
    var s6 := Step(s5, StoreHold(0));
    var s7 := Step(s6, Take(1));
    var s8 := Step(s7, Start(1, made + 1));
    Overwrites(s8, made);
    CompliantFirst(s8, s8, []);
    CompliantFirst(s7, s8, [Start(1, made + 1)]);
    CompliantFirst(s6, s8, [Take(1), Start(1, made + 1)]);
    CompliantFirst(s5, s8, [StoreHold(0), Take(1), Start(1, made + 1)]);
    CompliantFirst(s4, s8, [report, StoreHold(0), Take(1), Start(1, made + 1)]);
    CompliantFirst(s3, s8, [Park(0, o, READ, true), report, StoreHold(0), Take(1), Start(1, made + 1)]);
    CompliantFirst(s2, s8, [Start(0, made), Park(0, o, READ, true), report, StoreHold(0), Take(1), Start(1, made + 1)]);
    CompliantFirst(s1, s8, [Take(0), Start(0, made), Park(0, o, READ, true), report, StoreHold(0), Take(1),
                            Start(1, made + 1)]);
    steps := [push, Take(0), Start(0, made), Park(0, o, READ, true), report, StoreHold(0), Take(1), Start(1, made + 1)];
    CompliantFirst(s0, s8, steps);
  }

  lemma Begins(s0: State, c: nat, o: nat, made: nat)
    requires Initial(s0) && |s0.workers| > 1 && o < INITIAL_SIZE
    ensures var push := Push(None, Entry(Call(c), ANY));
      && Compliant(s0, push) && Compliant(Step(s0, push), Take(0))
      && var s2 := Step(Step(s0, push), Take(0));
      Compliant(s2, Start(0, made)) && Alone(Step(s2, Start(0, made)), made, o)
  {
    hide Step, Possible, Disciplined, Consistent;
    CallTaken(s0, c);
    var s2 := Step(Step(s0, Push(None, Entry(Call(c), ANY))), Take(0));
    CallStarts(s2, c, made);
    NewIsConsistent();
  }

  lemma Overwrites(s: State, g: nat)
    requires |s.workers| > 1 && s.workers[0].pc == Leaving(g, true) && s.workers[1].pc == Run(g, false)
    requires g in s.fibers && s.fibers[g].state == EXEC && s.fault.None?
    ensures !Exclusive(s) && Possible(s, HoldDone(0))
    ensures var s' := Step(s, HoldDone(0));
      |s'.workers| > 1 && s'.workers[1].pc == Run(g, false) && Look(s', g).state == FiberState.HOLD
  {
    assert On(s.workers[0], g) && On(s.workers[1], g);
  }
}
