/** What holds over whole runs of the step machine. */
module FiberTheorems {
  import opened Sums
  import opened Wrappers
  import opened EventRegistry
  import opened FiberMachine
  import opened FiberInvariant

  /** A started scheduler with any number of workers and the descriptor table of a new IOManager. */
  predicate Initial(s: State) {
    && s.fibers == map[] && s.queue == [] && s.asleep == {} && s.waiting == {} && s.active == 0
    && !s.autoStop && !s.stopping && s.fault.None?
    && s.scheduled == [] && s.served == [] && s.registrations == [] && s.resumptions == []
    && s.reg == NewRegistry()
    && (forall i :: 0 <= i < |s.workers| ==> s.workers[i] == Worker(Top, None, INIT))
  }

  ghost predicate IsRun(s: State, steps: seq<Action>)
    decreases |steps|
  {
    steps == [] || (Allowed(s, steps[0]) && IsRun(Step(s, steps[0]), steps[1..]))
  }

  ghost function After(s: State, steps: seq<Action>): State
    requires IsRun(s, steps)
    decreases |steps|
  {
    if steps == [] then s else After(Step(s, steps[0]), steps[1..])
  }

  lemma UnknownFiber(s: State, f: nat)
    requires f !in s.fibers && s.queue == [] && f !in s.asleep && f !in s.waiting
    requires s.registrations == [] && s.resumptions == [] && ParkedIn(s.reg, Fib(f)) == 0
    requires Count(s.workers, InHand, f) == Count(s.workers, FiberMachine.Runs, f) == 0
    requires Count(s.workers, FiberMachine.Leaves, f) == Count(s.workers, Keeps, f) == 0
    ensures FiberOk(s, f)
  {
  }

  lemma InitialFiber(s: State, f: nat)
    requires Initial(s)
    ensures FiberOk(s, f)
  {
    NewIsConsistent();
    CountNothing(s.workers, InHand, f);
    CountNothing(s.workers, FiberMachine.Runs, f);
    CountNothing(s.workers, FiberMachine.Leaves, f);
    CountNothing(s.workers, Keeps, f);
    UnknownFiber(s, f);
  }

  lemma InitialTask(s: State, t: Task)
    requires Initial(s)
    ensures TaskOk(s, t)
  {
    CountNothing(s.workers, Holds, t);
  }

  lemma InitialInv(s: State)
    requires Initial(s)
    ensures Inv(s)
  {
    NewIsConsistent();
    CountNothing(s.workers, Busy, 1);
    forall f ensures FiberOk(s, f) { InitialFiber(s, f); }
    forall t ensures TaskOk(s, t) { InitialTask(s, t); }
  }

  lemma {:induction false} RunKeeps(s: State, steps: seq<Action>)
    requires Inv(s) && IsRun(s, steps)
    ensures Inv(After(s, steps))
    decreases |steps|
  {
    if steps != [] {
      StepKeeps(s, steps[0]);
      RunKeeps(Step(s, steps[0]), steps[1..]);
    }
  }

  /**
   No wake-up is lost or doubled: after any run, a fiber that waits is armed in exactly one context, or owed by one
   sleep timer, or queued once, or in the hands of one worker; a fiber that does not wait is neither armed nor
   asleep and is queued or in hand at most once, and not at all while it runs. Each registration led to exactly one
   resumption, but for the one that is still waiting.
   */
  lemma WakeUpsAreConserved(s0: State, steps: seq<Action>, f: nat)
    requires Initial(s0) && IsRun(s0, steps)
    ensures var s := After(s0, steps);
      var t := TallyOf(s, f);
      && (f in s.waiting ==> t.parked + t.asleep + t.queued + t.hand == 1)
      && (f !in s.waiting ==> t.parked == 0 && t.asleep == 0 && t.queued + t.hand <= 1)
      && (f !in s.waiting && Look(s, f).state == EXEC ==> t.queued == 0 && t.hand == 0)
      && t.registered == t.resumed + (if f in s.waiting then 1 else 0)
  {
    InitialInv(s0);
    RunKeeps(s0, steps);
    assert FiberOk(After(s0, steps), f);
  }

  /** The counters are exact: workers that hold a task not yet decremented, and armed events. */
  lemma CountersAreExact(s0: State, steps: seq<Action>)
    requires Initial(s0) && IsRun(s0, steps)
    ensures var s := After(s0, steps);
      s.active == Count(s.workers, Busy, 1) && s.reg.pending == Count(s.reg.objects, Armed, ALL)
  {
    InitialInv(s0);
    RunKeeps(s0, steps);
  }

  // ---- one worker on a fiber's stack ----

  /** The worker is on the fiber's stack: it runs the fiber, or has not finished leaving it. */
  predicate On(wk: Worker, f: nat) {
    (wk.pc.Run? || wk.pc.Leaving?) && wk.pc.fiber == f
  }

  /** No two workers are on the stack of one fiber. */
  ghost predicate Exclusive(s: State) {
    forall i, j, f :: 0 <= i < j < |s.workers| && On(s.workers[i], f) ==> !On(s.workers[j], f)
  }

  /** A run of the code with clients that do as they should; it may enter fibers that are being left. */
  ghost predicate IsCompliantRun(s: State, steps: seq<Action>)
    decreases |steps|
  {
    steps == [] || (Compliant(s, steps[0]) && IsCompliantRun(Step(s, steps[0]), steps[1..]))
  }

  ghost predicate AlwaysExclusive(s: State, steps: seq<Action>)
    requires IsCompliantRun(s, steps)
    decreases |steps|
  {
    Exclusive(s) && (steps == [] || AlwaysExclusive(Step(s, steps[0]), steps[1..]))
  }

  ghost predicate AlwaysSettled(s: State, steps: seq<Action>)
    requires IsCompliantRun(s, steps)
    decreases |steps|
  {
    steps == [] || (Settled(s, steps[0]) && AlwaysSettled(Step(s, steps[0]), steps[1..]))
  }

  lemma InvExclusive(s: State)
    requires Inv(s)
    ensures Exclusive(s)
  {
    forall i, j, f | 0 <= i < j < |s.workers| && On(s.workers[i], f) ensures !On(s.workers[j], f) {
      assert FiberOk(s, f);
      if On(s.workers[j], f) { OnTwice(s, i, j, f); }
    }
  }

  lemma OnTwice(s: State, i: nat, j: nat, f: nat)
    requires i < j < |s.workers| && On(s.workers[i], f) && On(s.workers[j], f)
    ensures TallyOf(s, f).run + TallyOf(s, f).leaving >= 2
  {
    CountUpdate(s.workers, i, s.workers[i], FiberMachine.Runs, f);
    CountUpdate(s.workers, i, s.workers[i], FiberMachine.Leaves, f);
    CountUpdate(s.workers, j, s.workers[j], FiberMachine.Runs, f);
    CountUpdate(s.workers, j, s.workers[j], FiberMachine.Leaves, f);
    if s.workers[i].pc.Run? && s.workers[j].pc.Run? { CountPair(s.workers, i, j, FiberMachine.Runs, f); }
    if s.workers[i].pc.Leaving? && s.workers[j].pc.Leaving? { CountPair(s.workers, i, j, FiberMachine.Leaves, f); }
  }

  /** Entering a fiber that another worker is leaving puts both on its stack. */
  lemma UnsettledCollides(s: State, w: nat, made: nat)
    requires Inv(s) && Possible(s, Start(w, made)) && !Settled(s, Start(w, made))
    ensures !Exclusive(Step(s, Start(w, made)))
  {
    hide Inv;
    var f := s.workers[w].pc.task.id;
    var v := CountSource(s.workers, FiberMachine.Leaves, f);
    LeaverAlone(s, v);
    var s' := Step(s, Start(w, made));
    assert On(s'.workers[w], f) && On(s'.workers[v], f);
    if v < w { assert !Exclusive(s'); } else { assert !Exclusive(s'); }
  }

  lemma {:induction false} ExclusiveWhileSettled(s: State, steps: seq<Action>)
    requires Inv(s) && IsCompliantRun(s, steps)
    ensures AlwaysExclusive(s, steps) <==> AlwaysSettled(s, steps)
    ensures AlwaysSettled(s, steps) <==> IsRun(s, steps)
    decreases |steps|
  {
    hide Inv, Exclusive, Step, Possible, Disciplined, Settled;
    InvExclusive(s);
    if steps != [] {
      var a := steps[0];
      if Settled(s, a) {
        StepKeeps(s, a);
        ExclusiveWhileSettled(Step(s, a), steps[1..]);
      } else {
        OnlyStartsCollide(s, a);
        assert !Exclusive(Step(s, a));
      }
    }
  }

  lemma OnlyStartsCollide(s: State, a: Action)
    requires Inv(s) && Possible(s, a) && !Settled(s, a)
    ensures !Exclusive(Step(s, a))
  {
    hide Inv, Exclusive, Step;
    UnsettledCollides(s, a.w, a.made);
  }

  /**
   Over whole runs of the code, no two workers are ever on one fiber's stack exactly when no fiber is entered while a
   worker is still leaving it.
   */
  lemma NobodyRunsTwice(s0: State, steps: seq<Action>)
    requires Initial(s0) && IsCompliantRun(s0, steps)
    ensures AlwaysExclusive(s0, steps) <==> AlwaysSettled(s0, steps)
    ensures AlwaysSettled(s0, steps) <==> IsRun(s0, steps)
  {
    InitialInv(s0);
    ExclusiveWhileSettled(s0, steps);
  }

  /** Taking a fiber can be followed at once by two workers on its stack exactly if a worker is still leaving it. */
  lemma TakeCollidesExactly(s: State, w: nat, f: nat)
    requires Inv(s) && Possible(s, Take(w)) && Step(s, Take(w)).workers[w].pc == Held(Fib(f))
    ensures var s' := Step(s, Take(w));
      (exists made: nat :: Possible(s', Start(w, made)) && !Exclusive(Step(s', Start(w, made))))
      <==> Count(s.workers, FiberMachine.Leaves, f) > 0
  {
    hide Inv, Exclusive, Step;
    var s' := Step(s, Take(w));
    TakeKeeps(s, w);
    InvFault(s');
    TakenLeaves(s, w, f);
    if Count(s.workers, FiberMachine.Leaves, f) > 0 {
      var made := Unused(s'.fibers.Keys);
      UnsettledCollides(s', w, made);
    } else {
      forall made: nat | Possible(s', Start(w, made)) ensures Exclusive(Step(s', Start(w, made))) {
        StartKeeps(s', w, made);
        InvExclusive(Step(s', Start(w, made)));
      }
    }
  }

  lemma TakenLeaves(s: State, w: nat, f: nat)
    requires Possible(s, Take(w))
    ensures var s' := Step(s, Take(w));
      |s'.workers| == |s.workers| && Count(s'.workers, FiberMachine.Leaves, f) == Count(s.workers, FiberMachine.Leaves, f)
  {
    hide Pick;
    var s' := Step(s, Take(w));
    PickInRange(s, w);
    TakerIdle(s, w, f);
    CountUpdate(s.workers, w, s'.workers[w], FiberMachine.Leaves, f);
  }

  /** A number that no fiber has. */
  lemma {:induction false} Unused(taken: set<nat>) returns (n: nat)
    ensures n !in taken && forall k :: k in taken ==> k < n
    decreases |taken|
  {
    n := 0;
    if taken != {} {
      var k :| k in taken;
      var m := Unused(taken - {k});
      n := if m > k then m else k + 1;
      assert forall j :: j in taken ==> j == k || j in taken - {k};
    }
  }

  /**
   Every scheduled task is still queued, is held by one worker, or was entered (or dropped with its finished
   fiber), as often as it was scheduled; when the scheduler may stop, all of them were.
   */
  lemma TasksAreAccounted(s0: State, steps: seq<Action>, t: Task)
    requires Initial(s0) && IsRun(s0, steps)
    ensures var s := After(s0, steps);
      && Count(s.scheduled, SameTask, t) ==
         Count(s.queue, Asks, t) + Count(s.workers, Holds, t) + Count(s.served, SameTask, t)
      && (Stopping(s) ==> Count(s.scheduled, SameTask, t) == Count(s.served, SameTask, t))
  {
    hide After, IsRun, Inv;
    InitialInv(s0);
    RunKeeps(s0, steps);
    TasksOf(After(s0, steps), t);
  }

  lemma TasksOf(s: State, t: Task)
    requires Inv(s)
    ensures Count(s.scheduled, SameTask, t) ==
            Count(s.queue, Asks, t) + Count(s.workers, Holds, t) + Count(s.served, SameTask, t)
    ensures Stopping(s) ==> Count(s.scheduled, SameTask, t) == Count(s.served, SameTask, t)
  {
    hide FiberOk, WorkerOk, Consistent;
    assert TaskOk(s, t);
    if Stopping(s) && Count(s.workers, Holds, t) > 0 {
      var w := CountSource(s.workers, Holds, t);
      CountUpdate(s.workers, w, s.workers[w], Busy, 1);
    }
  }

  /** The callback fiber a worker keeps for reuse is reset, unknown to everybody else and never two workers'. */
  lemma CallbackFiberAtLoopHead(s: State, w: nat)
    requires Inv(s) && w < |s.workers| && (s.workers[w].pc.Top? || s.workers[w].pc.NoTask?) && s.workers[w].cbFiber.Some?
    ensures var g := s.workers[w].cbFiber.value;
      && Look(s, g) == Fiber(INIT, None) && Tokens(s, g) == 0 && g !in s.waiting
      && forall v :: 0 <= v < |s.workers| && v != w ==> s.workers[v].cbFiber != Some(g)
  {
    var g := s.workers[w].cbFiber.value;
    assert FiberOk(s, g);
    CountUpdate(s.workers, w, s.workers[w], Keeps, g);
    forall v | 0 <= v < |s.workers| && v != w ensures s.workers[v].cbFiber != Some(g) {
      if s.workers[v].cbFiber == Some(g) { KeptAlone(s, v, w, g); }
    }
  }

  /** A kept fiber is no other worker's callback fiber, whether kept, entered or being left. */
  lemma KeptAlone(s: State, v: nat, w: nat, g: nat)
    requires FiberOk(s, g) && v < |s.workers| && w < |s.workers| && v != w
    requires Keeps(s.workers[w], g) == 1 && WorkerOk(s, s.workers[v])
    ensures s.workers[v].cbFiber != Some(g)
  {
    if s.workers[v].cbFiber == Some(g) {
      CountUpdate(s.workers, w, s.workers[w], Keeps, g);
      if Keeps(s.workers[v], g) == 1 {
        CountPair(s.workers, v, w, Keeps, g);
      } else {
        Swap(s, s, v, g);
      }
    }
  }

  // ---- the library's assertions ----

  /** The steps that can break an assertion: arming an armed event, and an accepted report that overreports. */
  ghost predicate Breaks(s: State, a: Action) {
    match a
    case Park(w, o, ev, _) => o < |s.reg.objects| && s.reg.objects[o].events.Has(ev)
    case ParkCall(o, ev, _, _) => o < |s.reg.objects| && s.reg.objects[o].events.Has(ev)
    case Report(o, reported, error, accept) =>
      o < |s.reg.objects| && accept && Overreports(s.reg.objects[o].events, reported, error)
    case _ => false
  }

  lemma AbsorbFault(s: State, reply: Reply)
    requires s.fault.None?
    ensures Absorb(s, reply).fault == if reply.Broken? then Some(InRegistry(reply.site)) else None
  {
    if reply.Reply? {
      EnqueueAllIs(s.(reg := reply.reg), reply.woken);
    }
  }

  /**
   After a run of allowed steps, whatever the next step is, disciplined or not: an assertion of the library fires
   exactly when it Breaks.
   */
  lemma AssertionsFireExactly(s: State, a: Action)
    requires Inv(s) && Possible(s, a)
    ensures Step(s, a).fault.Some? <==> Breaks(s, a)
  {
    hide Inv, Possible;
    InvFault(s);
    match a {
      case Take(_) => LoopFaults(s, a);
      case Start(_, _) => LoopFaults(s, a);
      case Idle(_) => LoopFaults(s, a);
      case Park(w, o, ev, accept) => ParkFaults(s, w, o, ev, accept);
      case ParkCall(_, _, _, _) => ArmFaults(s, a);
      case Del(_, _, _) => ArmFaults(s, a);
      case Cancel(_, _, _) => CancelFaults(s, a);
      case CancelEvery(_, _) => CancelFaults(s, a);
      case Report(_, _, _, _) => ReportFaults(s, a);
      case _ =>
    }
  }

  lemma ReportFaults(s: State, a: Action)
    requires Inv(s) && Possible(s, a) && a.Report?
    ensures Step(s, a).fault.Some? <==> Breaks(s, a)
  {
    DeliverExactly(s.reg, a.o, a.reported, a.error, a.accept);
    AbsorbFault(s, Deliver(s.reg, a.o, a.reported, a.error, a.accept));
  }

  lemma LoopFaults(s: State, a: Action)
    requires Inv(s) && Possible(s, a) && (a.Take? || a.Start? || a.Idle?)
    ensures Step(s, a).fault.None?
  {
    match a {
      case Take(w) => TakeKeeps(s, w);
      case Start(w, made) => StartFaults(s, w, made);
      case Idle(w) => assert WorkerOk(s, s.workers[w]);
    }
  }

  /** Held fibers are not running, and kept callback fibers are reset. */
  lemma StartFaults(s: State, w: nat, made: nat)
    requires Inv(s) && Possible(s, Start(w, made))
    ensures Step(s, Start(w, made)).fault.None?
  {
    hide Inv, FiberOk, Step;
    var wk := s.workers[w];
    InvParts(s, w, if wk.cbFiber.Some? then wk.cbFiber.value else made);
    StartAssertsExactly(s, w, made);
    match wk.pc.task {
      case Fib(_) =>
      case Call(c) => CallEnters(s, w, c, if wk.cbFiber.Some? then wk.cbFiber.value else made);
    }
  }

  lemma ArmFaults(s: State, a: Action)
    requires Inv(s) && Possible(s, a) && (a.ParkCall? || a.Del?)
    ensures Step(s, a).fault.Some? <==> Breaks(s, a)
  {
    match a {
      case ParkCall(o, ev, cb, accept) =>
        if !s.reg.objects[o].events.Has(ev) { AddKeeps(s.reg, o, ev, Call(cb), accept); }
        AbsorbFault(s, AddEvent(s.reg, o, ev, Call(cb), accept));
      case Del(o, ev, accept) =>
        DelKeeps(s.reg, o, ev, accept);
        AbsorbFault(s, DelEvent(s.reg, o, ev, accept));
    }
  }

  lemma CancelFaults(s: State, a: Action)
    requires Inv(s) && Possible(s, a) && (a.Cancel? || a.CancelEvery?)
    ensures Step(s, a).fault.None?
  {
    match a {
      case Cancel(o, ev, accept) =>
        CancelKeeps(s.reg, o, ev, accept);
        AbsorbFault(s, CancelEvent(s.reg, o, ev, accept));
      case CancelEvery(o, accept) =>
        CancelAllKeeps(s.reg, o, accept);
        AbsorbFault(s, CancelAll(s.reg, o, accept));
    }
  }

  lemma ParkFaults(s: State, w: nat, o: nat, ev: Event, accept: bool)
    requires Inv(s) && Possible(s, Park(w, o, ev, accept))
    ensures Step(s, Park(w, o, ev, accept)).fault.Some? <==> Breaks(s, Park(w, o, ev, accept))
  {
    RunnerAlone(s, w);
    var who := Fib(s.workers[w].pc.fiber);
    if !s.reg.objects[o].events.Has(ev) { AddKeeps(s.reg, o, ev, who, accept); }
    AbsorbFault(s, AddEvent(s.reg, o, ev, who, accept));
  }

  // ---- a fiber scheduled twice ----

  /** In any state at all, starting a task asserts exactly on a running fiber and on an unfinished callback fiber. */
  lemma StartAssertsExactly(s: State, w: nat, made: nat)
    requires Possible(s, Start(w, made))
    ensures var t, kept := s.workers[w].pc.task, s.workers[w].cbFiber;
      var fault := Step(s, Start(w, made)).fault;
      && (fault.None? || fault == Some(SWAP_IN_RUNNING) || fault == Some(RESET_UNFINISHED))
      && (fault == Some(SWAP_IN_RUNNING) <==> t.Fib? && Look(s, t.id).state == EXEC)
      && (fault == Some(RESET_UNFINISHED) <==>
          t.Call? && kept.Some? && !Dead(Look(s, kept.value).state) && Look(s, kept.value).state != INIT)
  {
  }

  /** Worker `w` served `t` by entering fiber `g`, which runs `body`; `g` waits no more, and nothing else changed. */
  function Entered(s: State, w: nat, t: Task, g: nat, viaCb: bool, body: Option<nat>): State
    requires w < |s.workers|
  {
    s.(fibers := s.fibers[g := Fiber(EXEC, body)], served := s.served + [t], waiting := s.waiting - {g},
       resumptions := s.resumptions + (if g in s.waiting then [g] else []),
       workers := s.workers[w := Worker(Run(g, viaCb), if viaCb then Some(g) else s.workers[w].cbFiber, s.workers[w].idle)])
  }

  /**
   Starting without a fault enters the held fiber, which keeps its callback, or drops it if it ended; a held callback is
   run by the kept fiber or by the new one, which is then kept.
   */
  lemma StartEntersExactly(s: State, w: nat, made: nat)
    requires Possible(s, Start(w, made)) && Step(s, Start(w, made)).fault.None?
    ensures var wk, t := s.workers[w], s.workers[w].pc.task;
      Step(s, Start(w, made)) == match t
        case Fib(f) =>
          if Look(s, f).state == TERM || Look(s, f).state == EXCEPT
          then s.(active := s.active - 1, served := s.served + [t], workers := s.workers[w := wk.(pc := Top)])
          else Entered(s, w, t, f, false, Look(s, f).body)
        case Call(c) => Entered(s, w, t, if wk.cbFiber.Some? then wk.cbFiber.value else made, true, Some(c))
  {
    match s.workers[w].pc.task
    case Fib(f) => StartOfFiber(s, w, made, f);
    case Call(c) => StartOfCall(s, w, made, c);
  }

  lemma StartOfFiber(s: State, w: nat, made: nat, f: nat)
    requires Possible(s, Start(w, made)) && s.workers[w].pc == Held(Fib(f)) && DoStart(s, w, Fib(f), made).fault.None?
    ensures DoStart(s, w, Fib(f), made) ==
      if Look(s, f).state == TERM || Look(s, f).state == EXCEPT
      then s.(active := s.active - 1, served := s.served + [Fib(f)], workers := s.workers[w := s.workers[w].(pc := Top)])
      else Entered(s, w, Fib(f), f, false, Look(s, f).body)
  {
    hide Step, Possible;
    assert s.resumptions + [] == s.resumptions;
  }

  lemma StartOfCall(s: State, w: nat, made: nat, c: nat)
    requires Possible(s, Start(w, made)) && s.workers[w].pc == Held(Call(c)) && DoStart(s, w, Call(c), made).fault.None?
    ensures DoStart(s, w, Call(c), made) ==
      Entered(s, w, Call(c), if s.workers[w].cbFiber.Some? then s.workers[w].cbFiber.value else made, true, Some(c))
  {
    hide Step;
    assert s.fault.None?;
    hide Possible;
    var g := if s.workers[w].cbFiber.Some? then s.workers[w].cbFiber.value else made;
    assert s.fibers[g := Fiber(INIT, Some(c))][g := Fiber(EXEC, Some(c))] == s.fibers[g := Fiber(EXEC, Some(c))];
    assert s.resumptions + [] == s.resumptions;
  }

  /**
   Leaving by hold, yield, return and exception: what the fiber is left as, where the worker then stands and whether the
   task is still counted; nothing else changes.
   */
  lemma ExitsExactly(s: State, w: nat)
    requires w < |s.workers| && s.workers[w].pc.Run? && s.fault.None?
    ensures var f, via, fiber := s.workers[w].pc.fiber, s.workers[w].pc.viaCb, Look(s, s.workers[w].pc.fiber);
      && Step(s, StoreHold(w)) == s.(fibers := s.fibers[f := Fiber(FiberState.HOLD, fiber.body)],
                                     workers := s.workers[w := s.workers[w].(pc := Leaving(f, via))])
      && Step(s, YieldReady(w)) == s.(fibers := s.fibers[f := Fiber(READY, fiber.body)], active := s.active - 1,
                                      workers := s.workers[w := s.workers[w].(pc := Requeue(f, via))])
      && Step(s, Finish(w)) == s.(fibers := s.fibers[f := if via then Fiber(INIT, None) else Fiber(TERM, None)],
                                  active := s.active - 1, workers := s.workers[w := s.workers[w].(pc := Top)])
      && Step(s, Throw(w)) == s.(fibers := s.fibers[f := if via then Fiber(INIT, None) else Fiber(EXCEPT, fiber.body)],
                                 active := s.active - 1, workers := s.workers[w := s.workers[w].(pc := Top)])
  {
  }

  /**
   Behind a switch the loop goes by the state it finds, whatever that is: a READY fiber is queued for any thread, a fiber
   that ended is reset if it is the callback fiber, any other is marked HOLD; a callback fiber that did not end is not kept.
   */
  lemma HoldDoneExactly(s: State, w: nat)
    requires w < |s.workers| && s.workers[w].pc.Leaving? && s.fault.None?
    ensures var s', f, via := Step(s, HoldDone(w)), s.workers[w].pc.fiber, s.workers[w].pc.viaCb;
      var fiber, kept := Look(s, f), s.workers[w].cbFiber;
      var ended := fiber.state == TERM || fiber.state == EXCEPT;
      var again := if fiber.state == READY then [Fib(f)] else [];
      s' == s.(active := s.active - 1, scheduled := s.scheduled + again,
               queue := s.queue + (if fiber.state == READY then [Entry(Fib(f), ANY)] else []),
               workers := s.workers[w := Worker(Top, if via && !ended then None else kept, s.workers[w].idle)],
               fibers := if fiber.state == READY || (ended && !via) then s.fibers
                         else s.fibers[f := if ended then Fiber(INIT, None) else Fiber(FiberState.HOLD, fiber.body)])
  {
  }

  /** The push behind a yield; a callback fiber that is queued is not kept. */
  lemma PushBackExactly(s: State, w: nat)
    requires w < |s.workers| && s.workers[w].pc.Requeue? && s.fault.None?
    ensures var f, wk := s.workers[w].pc.fiber, s.workers[w];
      Step(s, PushBack(w)) == s.(queue := s.queue + [Entry(Fib(f), ANY)], scheduled := s.scheduled + [Fib(f)],
                                 workers := s.workers[w := Worker(Top, if wk.pc.viaCb then None else wk.cbFiber, wk.idle)])
  {
  }

  /** A worker without a task ends if its idle fiber ended, and else enters it; the idle fiber ends only when all is done. */
  lemma IdlesExactly(s: State, w: nat)
    requires w < |s.workers| && s.fault.None?
    ensures s.workers[w].pc.NoTask? ==>
      (Step(s, Idle(w)) == match s.workers[w].idle
        case EXEC => s.(fault := Some(SWAP_IN_RUNNING))
        case TERM => s.(workers := s.workers[w := s.workers[w].(pc := Left)])
        case _ => s.(workers := s.workers[w := s.workers[w].(pc := Idling, idle := EXEC)]))
    ensures s.workers[w].pc.Idling? ==>
      && Step(s, LeaveIdle(w)) == s.(workers := s.workers[w := s.workers[w].(pc := Top, idle := FiberState.HOLD)])
      && (Possible(s, IdleDone(w)) <==> s.autoStop && s.stopping && s.queue == [] && s.active == 0)
      && (Possible(s, IdleDone(w)) ==>
          Step(s, IdleDone(w)) == s.(workers := s.workers[w := s.workers[w].(pc := Top, idle := TERM)]))
  {
  }

  /** An arming that the registry grants is noted as the running fiber's; a fiber that is not in EXEC must not arm. */
  lemma ParksExactly(s: State, w: nat, o: nat, ev: Event)
    requires s.fault.None? && w < |s.workers| && s.workers[w].pc.Run? && o < |s.reg.objects|
    requires AddEvent(s.reg, o, ev, Fib(s.workers[w].pc.fiber), true).Reply?
    requires AddEvent(s.reg, o, ev, Fib(s.workers[w].pc.fiber), true).ok
    ensures var g, reply := s.workers[w].pc.fiber, AddEvent(s.reg, o, ev, Fib(s.workers[w].pc.fiber), true);
      DoPark(s, g, o, ev, true) ==
      if Look(s, g).state == EXEC
      then s.(reg := reply.reg, waiting := s.waiting + {g}, registrations := s.registrations + [g])
      else s.(fault := Some(ARM_NOT_RUNNING))
  {
    hide AddEvent, Absorb, FiberIn;
  }

  /** A sleep is noted alike, and its wake-up queues the fiber for any thread. */
  lemma SleepsExactly(s: State, w: nat, f: nat)
    requires s.fault.None?
    ensures w < |s.workers| && s.workers[w].pc.Run? ==>
      var g := s.workers[w].pc.fiber;
      Step(s, Sleep(w)) == s.(asleep := s.asleep + {g}, waiting := s.waiting + {g}, registrations := s.registrations + [g])
    ensures f in s.asleep ==>
      (Step(s, Wake(f)) == s.(asleep := s.asleep - {f}, queue := s.queue + [Entry(Fib(f), ANY)],
                              scheduled := s.scheduled + [Fib(f)]))
  {
  }

  /** Scheduling from outside appends the entry as given; the wake-up of a fiber in EXEC is noted. */
  lemma PushesExactly(s: State, e: Entry)
    requires s.fault.None?
    ensures var s' := s.(queue := s.queue + [e], scheduled := s.scheduled + [e.task]);
      Step(s, Push(None, e)) ==
      if e.task.Fib? && Look(s, e.task.id).state == EXEC
      then s'.(waiting := s.waiting + {e.task.id}, registrations := s.registrations + [e.task.id])
      else s'
  {
    hide FiberIn;
    assert Entry(e.task, e.thread) == e;
  }

  /** A new fiber is INIT with its callback; who pushes does not matter; stopping sets both flags and nothing else. */
  lemma SpawnsExactly(s: State, f: nat, body: nat, pusher: nat, e: Entry)
    requires s.fault.None?
    ensures f !in s.fibers ==> Step(s, Spawn(f, body)) == s.(fibers := s.fibers[f := Fiber(INIT, Some(body))])
    ensures Possible(s, Push(Some(pusher), e)) ==> Step(s, Push(Some(pusher), e)) == Step(s, Push(None, e))
    ensures Step(s, StopAll) == s.(autoStop := true, stopping := true)
  {
  }

  /** Two workers that hold the same live fiber: the second to start it asserts. */
  lemma HeldTwiceAsserts(s: State, i: nat, j: nat, f: nat, made: nat, made': nat)
    requires i < |s.workers| && j < |s.workers| && i != j && s.fault.None?
    requires s.workers[i].pc == s.workers[j].pc == Held(Fib(f)) && !Dead(Look(s, f).state) && Look(s, f).state != EXEC
    requires made !in s.fibers && made' !in s.fibers && made' != f
    ensures Possible(s, Start(i, made)) && Possible(Step(s, Start(i, made)), Start(j, made'))
    ensures Step(Step(s, Start(i, made)), Start(j, made')).fault == Some(SWAP_IN_RUNNING)
  {
  }

  /** Steps that the code can take, disciplined or not. */
  ghost predicate Feasible(s: State, steps: seq<Action>)
    decreases |steps|
  {
    steps == [] || (Possible(s, steps[0]) && Feasible(Step(s, steps[0]), steps[1..]))
  }

  ghost function Reached(s: State, steps: seq<Action>): State
    requires Feasible(s, steps)
    decreases |steps|
  {
    if steps == [] then s else Reached(Step(s, steps[0]), steps[1..])
  }

  lemma FeasibleFirst(s: State, end: State, steps: seq<Action>)
    requires if steps == [] then end == s else
             && Possible(s, steps[0]) && Feasible(Step(s, steps[0]), steps[1..])
             && Reached(Step(s, steps[0]), steps[1..]) == end
    ensures Feasible(s, steps) && Reached(s, steps) == end
  {
  }

  /** A fiber is queued twice and both entries are taken. */
  lemma TakenTwice(s0: State, f: nat, body: nat)
    requires Initial(s0) && |s0.workers| > 1
    ensures var push := Push(None, Entry(Fib(f), ANY));
      && Possible(s0, Spawn(f, body)) && Possible(Step(s0, Spawn(f, body)), push)
      && var s2 := Step(Step(s0, Spawn(f, body)), push);
      && Possible(s2, push) && Possible(Step(s2, push), Take(0))
      && var s4 := Step(Step(s2, push), Take(0));
      && Possible(s4, Take(1))
      && var s5 := Step(s4, Take(1));
      && |s5.workers| == |s0.workers| && s5.workers[0].pc == s5.workers[1].pc == Held(Fib(f))
      && s5.fibers == map[f := Fiber(INIT, Some(body))] && s5.fault.None?
  {
    hide DoTake, DoStart, DoPark, Absorb, DoEnd, DoIdle, SetFiber, EnqueueAll, Resize;
    var e := Entry(Fib(f), ANY);
    var s2 := Step(Step(s0, Spawn(f, body)), Push(None, e));
    var s3 := Step(s2, Push(None, e));
    assert s3.queue == [e, e];
    BothTaken(s3, e);
  }

  lemma BothTaken(s: State, e: Entry)
    requires s.fault.None? && |s.workers| > 1 && s.workers[0].pc.Top? && s.workers[1].pc.Top? && s.queue == [e, e]
    requires e.thread == ANY && e.task.Fib? && Look(s, e.task.id).state != EXEC
    ensures Possible(s, Take(0)) && Possible(Step(s, Take(0)), Take(1))
    ensures var s' := Step(Step(s, Take(0)), Take(1));
      && |s'.workers| == |s.workers| && s'.workers[0].pc == s'.workers[1].pc == Held(e.task)
      && s'.fibers == s.fibers && s'.fault.None?
  {
    hide Step;
    TakesFront(s, 0);
    var s4 := Step(s, Take(0));
    assert s4.queue == [e];
    TakesFront(s4, 1);
  }

  /**
   So scheduling a fiber a second time before it ran is why the protocol asks for one wake-up at a time: from the
   start, two workers take the two entries and the second swapIn asserts.
   */
  lemma ScheduledTwiceAborts(s0: State, f: nat, body: nat) returns (steps: seq<Action>)
    requires Initial(s0) && |s0.workers| > 1
    ensures Feasible(s0, steps) && Reached(s0, steps).fault == Some(SWAP_IN_RUNNING)
  {
    hide Feasible, Reached, Step, Possible;
    var push := Push(None, Entry(Fib(f), ANY));
    TakenTwice(s0, f, body);
    var s1 := Step(s0, Spawn(f, body));
    var s2 := Step(s1, push);
    var s3 := Step(s2, push);
    var s4 := Step(s3, Take(0));
    var s5 := Step(s4, Take(1));
    HeldTwiceAsserts(s5, 0, 1, f, f + 1, f + 2);
    var s6 := Step(s5, Start(0, f + 1));
    var s7 := Step(s6, Start(1, f + 2));
    FeasibleFirst(s7, s7, []);
    FeasibleFirst(s6, s7, [Start(1, f + 2)]);
    FeasibleFirst(s5, s7, [Start(0, f + 1), Start(1, f + 2)]);
    FeasibleFirst(s4, s7, [Take(1), Start(0, f + 1), Start(1, f + 2)]);
    FeasibleFirst(s3, s7, [Take(0), Take(1), Start(0, f + 1), Start(1, f + 2)]);
    FeasibleFirst(s2, s7, [push, Take(0), Take(1), Start(0, f + 1), Start(1, f + 2)]);
    FeasibleFirst(s1, s7, [push, push, Take(0), Take(1), Start(0, f + 1), Start(1, f + 2)]);
    steps := [Spawn(f, body), push, push, Take(0), Take(1), Start(0, f + 1), Start(1, f + 2)];
    FeasibleFirst(s0, s7, steps);
  }

  lemma TakesFront(s: State, w: nat)
    requires Possible(s, Take(w)) && s.queue != [] && Eligible(s.fibers, w, s.queue[0])
    ensures Step(s, Take(w)) == Put(s.(queue := s.queue[1..], active := s.active + 1), w,
                                    s.workers[w].(pc := Held(s.queue[0].task)))
  {
    assert s.queue[..0] + s.queue[1..] == s.queue[1..];
  }

  lemma Extend(s: State, steps: seq<Action>, a: Action)
    requires IsRun(s, steps) && Allowed(After(s, steps), a)
    ensures IsRun(s, steps + [a]) && After(s, steps + [a]) == Step(After(s, steps), a)
    decreases |steps|
  {
    if steps == [] {
      assert (steps + [a])[1..] == [];
    } else {
      assert (steps + [a])[1..] == steps[1..] + [a];
      Extend(Step(s, steps[0]), steps[1..], a);
    }
  }

  lemma ParkCallArms(s: State, o: nat, ev: Event, cb: nat)
    requires Inv(s) && Allowed(s, ParkCall(o, ev, cb, true)) && NoRival(s.reg, o)
    ensures var s' := Step(s, ParkCall(o, ev, cb, true));
      && Inv(s') && |s'.reg.objects| == |s.reg.objects|
      && s'.reg.objects[o].events == s.reg.objects[o].events.With(ev)
  {
    hide AddEvent, Consistent;
    ParkCallKeeps(s, o, ev, cb, true);
    AddKeeps(s.reg, o, ev, Call(cb), true);
  }

  lemma CancelDisarms(s: State, o: nat, ev: Event)
    requires Inv(s) && s.fault.None? && o < |s.reg.objects| && s.reg.objects[o].events == ALL
    ensures var s' := Step(s, Cancel(o, ev, true));
      && Inv(s') && |s'.reg.objects| == |s.reg.objects| && s'.reg.objects[o].events == ALL.Minus(Only(ev))
  {
    hide CancelEvent, Consistent, Agrees, Waiters;
    var reply := CancelEvent(s.reg, o, ev, true);
    CancelKeeps(s.reg, o, ev, true);
    EnqueueAllIs(s.(reg := reply.reg), reply.woken);
    hide Absorb;
    AbsorbKeeps(s, reply);
  }

  lemma ArmBoth(s0: State, o: nat)
    requires Initial(s0) && o < INITIAL_SIZE
    ensures var steps := [ParkCall(o, READ, 1, true), ParkCall(o, WRITE, 2, true)];
      && IsRun(s0, steps)
      && var s := After(s0, steps);
      Inv(s) && o < |s.reg.objects| && s.reg.objects[o].events == ALL && Known(s.reg, o)
  {
    hide Inv, Step, Disciplined, Consistent;
    var a, b := ParkCall(o, READ, 1, true), ParkCall(o, WRITE, 2, true);
    InitialInv(s0);
    var s1 := Step(s0, a);
    FirstArm(s0, o);
    SecondArm(s1, o);
    Extend(s0, [], a);
    assert [] + [a] == [a] && [a] + [b] == [a, b];
    Extend(s0, [a], b);
    InvKnown(Step(s1, b), o);
  }

  lemma FirstArm(s0: State, o: nat)
    requires Initial(s0) && Inv(s0) && o < INITIAL_SIZE
    ensures Allowed(s0, ParkCall(o, READ, 1, true))
    ensures var s1 := Step(s0, ParkCall(o, READ, 1, true));
      Inv(s1) && o < |s1.reg.objects| && s1.reg.objects[o].events == Only(READ)
  {
    ParkCallArms(s0, o, READ, 1);
  }

  lemma SecondArm(s: State, o: nat)
    requires Inv(s) && o < |s.reg.objects| && s.reg.objects[o].events == Only(READ)
    ensures Allowed(s, ParkCall(o, WRITE, 2, true))
    ensures var s2 := Step(s, ParkCall(o, WRITE, 2, true));
      Inv(s2) && o < |s2.reg.objects| && s2.reg.objects[o].events == ALL
  {
    ArmedHasNoRival(s.reg, o);
    ParkCallArms(s, o, WRITE, 2);
  }

  lemma InvKnown(s: State, o: nat)
    requires Inv(s) && o < |s.reg.objects|
    ensures Known(s.reg, o) && s.fault.None?
  {
  }

  /**
   The masking of reports only on error is not enough: two callbacks arm both events of a descriptor, the kernel
   reports both, one is cancelled before the report is handled, and handling it breaks triggerEvent's assertion.
   */
  lemma LateReportAborts(s0: State, o: nat)
    requires Initial(s0) && o < INITIAL_SIZE
    ensures var armed := [ParkCall(o, READ, 1, true), ParkCall(o, WRITE, 2, true)];
      && IsRun(s0, armed)
      && var s := After(s0, armed);
      && o < |s.reg.objects| && s.reg.objects[o].events == ALL && Known(s.reg, o)
      && Allowed(s, Cancel(o, READ, true))
      && var late := Step(s, Cancel(o, READ, true));
      && Possible(late, Report(o, ALL, false, true)) && Step(late, Report(o, ALL, false, true)).fault.Some?
  {
    ArmBoth(s0, o);
    LateReport(After(s0, [ParkCall(o, READ, 1, true), ParkCall(o, WRITE, 2, true)]), o);
  }

  lemma LateReport(s: State, o: nat)
    requires Inv(s) && o < |s.reg.objects| && s.reg.objects[o].events == ALL
    ensures Allowed(s, Cancel(o, READ, true))
    ensures var late := Step(s, Cancel(o, READ, true));
      Possible(late, Report(o, ALL, false, true)) && Step(late, Report(o, ALL, false, true)).fault.Some?
  {
    hide Inv, Step, Consistent;
    InvFault(s);
    CancelDisarms(s, o, READ);
    InvFault(Step(s, Cancel(o, READ, true)));
    AssertionsFireExactly(Step(s, Cancel(o, READ, true)), Report(o, ALL, false, true));
  }

  /** Deleting the event a fiber is armed in strands the fiber: it still waits and nothing will resume it. */
  lemma DeletingAnArmedFiberStrandsIt(s: State, o: nat, ev: Event, f: nat)
    requires Inv(s) && o < |s.reg.objects| && GetContext(s.reg.objects[o], ev).fiber == Some(f)
    ensures var s' := Step(s, Del(o, ev, true));
      s'.fault.None? && f in s'.waiting && Tokens(s, f) == 1 && Tokens(s', f) == 0
  {
    assert Agrees(s.reg.objects[o]);
    CountUpdate(s.reg.objects, o, s.reg.objects[o], Parked, Fib(f));
    assert FiberOk(s, f);
    DelKeeps(s.reg, o, ev, true);
    EnqueueAllIs(s.(reg := DelEvent(s.reg, o, ev, true).reg), []);
  }

  // ---- the queue ----

  /** The entry is for another thread, or names a fiber that runs. */
  predicate PassedOver(s: State, w: nat, e: Entry) {
    || (e.thread != ANY && e.thread != w)
    || (e.task.Fib? && e.task.id in s.fibers && s.fibers[e.task.id].state == EXEC)
  }

  /** A worker leaves the queue without a task only when no entry is for it to run; else it has the first such. */
  lemma TakeTakesTheFirst(s: State, w: nat)
    requires Possible(s, Take(w))
    ensures var s' := Step(s, Take(w));
      match s'.workers[w].pc
      case NoTask => s'.queue == s.queue && forall e :: e in s.queue ==> PassedOver(s, w, e)
      case Held(t) => exists k :: 0 <= k < |s.queue| && s.queue[k].task == t && !PassedOver(s, w, s.queue[k])
                        && (forall j :: 0 <= j < k ==> PassedOver(s, w, s.queue[j]))
                        && s'.queue == s.queue[..k] + s.queue[k + 1..]
      case _ => false
  {
    PickFirst(s.fibers, s.queue, w, 0);
    forall e: Entry ensures Eligible(s.fibers, w, e) <==> !PassedOver(s, w, e) {
    }
    match Pick(s.fibers, s.queue, w, 0) {
      case None =>
      case Some(k) => assert Step(s, Take(w)).queue == s.queue[..k] + s.queue[k + 1..];
    }
  }

  /** In particular an entry for anybody or for this very thread is found, unless its fiber runs. */
  lemma OwnEntriesAreFound(s: State, w: nat, e: Entry)
    requires Possible(s, Take(w)) && e in s.queue && (e.thread == ANY || e.thread == w)
    requires e.task.Fib? ==> Look(s, e.task.id).state != EXEC
    ensures Step(s, Take(w)).workers[w].pc.Held?
  {
    TakeTakesTheFirst(s, w);
  }

  /**
   A waiting fiber that was re-queued is not missed: while it runs its entry stays, and once it has stored HOLD every
   worker that looks at the queue finds work, even when the event fired between the arming and the switch.
   */
  lemma RequeuedFiberIsFound(s: State, w: nat, f: nat, i: nat)
    requires Possible(s, Take(w)) && i < |s.queue| && s.queue[i] == Entry(Fib(f), ANY)
    ensures var s' := Step(s, Take(w));
      if Look(s, f).state == EXEC then s.queue[i] in s'.queue && s'.workers[w].pc != Held(Fib(f)) else s'.workers[w].pc.Held?
  {
    assert w < |Step(s, Take(w)).workers|;
    hide Step;
    TakeTakesTheFirst(s, w);
    var e := s.queue[i];
    assert e in s.queue;
    var s' := Step(s, Take(w));
    if Look(s, f).state != EXEC {
      OwnEntriesAreFound(s, w, e);
    } else if s'.workers[w].pc.Held? {
      var k :| 0 <= k < |s.queue| && s.queue[k].task == s'.workers[w].pc.task && !PassedOver(s, w, s.queue[k])
               && s'.queue == s.queue[..k] + s.queue[k + 1..];
      assert PassedOver(s, w, e);
      if i < k { assert s.queue[..k][i] == e; } else { assert s.queue[k + 1..][i - k - 1] == e; }
    }
  }

  lemma TakeLeavesOthers(s: State, w: nat, e: Entry)
    requires Possible(s, Take(w)) && e.thread != ANY && e.thread != w
    ensures multiset(s.queue)[e] == multiset(Step(s, Take(w)).queue)[e]
  {
    TakeTakesTheFirst(s, w);
    var s' := Step(s, Take(w));
    hide Step;
    assert PassedOver(s, w, e);
    if s'.workers[w].pc.Held? {
      var k :| 0 <= k < |s.queue| && !PassedOver(s, w, s.queue[k]) && s'.queue == s.queue[..k] + s.queue[k + 1..];
      Without(s.queue, k, e);
    }
  }

  lemma Without(queue: seq<Entry>, k: nat, e: Entry)
    requires k < |queue| && queue[k] != e
    ensures multiset(queue)[e] == multiset(queue[..k] + queue[k + 1..])[e]
  {
    assert queue == queue[..k] + [queue[k]] + queue[k + 1..];
  }

  lemma StartLeavesQueue(s: State, w: nat, made: nat)
    requires Possible(s, Start(w, made))
    ensures DoStart(s, w, s.workers[w].pc.task, made).queue == s.queue
  {
  }

  /** An entry pinned to a thread leaves the queue only into the hands of that thread. */
  lemma PinnedEntriesStay(s: State, a: Action, e: Entry)
    requires Possible(s, a) && e.thread != ANY
    requires forall w: nat :: e.thread == w ==> a != Take(w)
    ensures multiset(s.queue)[e] <= multiset(Step(s, a).queue)[e]
  {
    hide Step, PassedOver;
    if a.Take? {
      TakeLeavesOthers(s, a.w, e);
    } else {
      QueueGrowsAtTheEnd(s, a);
      assert Step(s, a).queue == s.queue + Step(s, a).queue[|s.queue|..];
    }
  }

  lemma NotedKeepsQueue(s: State, t: Task)
    ensures Noted(s, t).queue == s.queue
  {
  }

  /** New entries go behind all others: apart from taking, a step only makes the queue longer at its end. */
  lemma QueueGrowsAtTheEnd(s: State, a: Action)
    requires Possible(s, a) && !a.Take?
    ensures s.queue <= Step(s, a).queue
  {
    hide AddEvent, DelEvent, CancelEvent, CancelAll, Deliver, DoTake, DoStart, DoPark, DoHoldDone, Absorb, Resize, Noted;
    match a {
      case Start(w, made) => StartLeavesQueue(s, w, made);
      case ParkCall(o, ev, cb, accept) => AbsorbAppends(s, AddEvent(s.reg, o, ev, Call(cb), accept));
      case Del(o, ev, accept) => AbsorbAppends(s, DelEvent(s.reg, o, ev, accept));
      case Cancel(o, ev, accept) => AbsorbAppends(s, CancelEvent(s.reg, o, ev, accept));
      case CancelEvery(o, accept) => AbsorbAppends(s, CancelAll(s.reg, o, accept));
      case Report(o, reported, error, accept) => AbsorbAppends(s, Deliver(s.reg, o, reported, error, accept));
      case Park(w, o, ev, accept) => ParkAppends(s, w, o, ev, accept);
      case HoldDone(w) => HoldDoneAppends(s, w);
      case Push(_, entry) => NotedKeepsQueue(s, entry.task);
      case _ =>
    }
  }

  lemma ParkAppends(s: State, w: nat, o: nat, ev: Event, accept: bool)
    requires Possible(s, Park(w, o, ev, accept))
    ensures s.queue <= Step(s, Park(w, o, ev, accept)).queue
  {
    hide AddEvent, Absorb;
    AbsorbAppends(s, AddEvent(s.reg, o, ev, Fib(s.workers[w].pc.fiber), accept));
  }

  lemma HoldDoneAppends(s: State, w: nat)
    requires Possible(s, HoldDone(w))
    ensures s.queue <= Step(s, HoldDone(w)).queue
  {
  }

  /** The tasks that an operation wakes are queued for any thread, in their order. */
  lemma {:induction false} EnqueueAllAppends(s: State, ts: seq<Task>)
    ensures EnqueueAll(s, ts).queue == s.queue + seq(|ts|, i requires 0 <= i < |ts| => Entry(ts[i], ANY))
    decreases |ts|
  {
    var all := seq(|ts|, i requires 0 <= i < |ts| => Entry(ts[i], ANY));
    if ts == [] {
      assert s.queue + all == s.queue;
    } else {
      var rest := seq(|ts| - 1, i requires 0 <= i < |ts| - 1 => Entry(ts[1..][i], ANY));
      EnqueueAllAppends(Enqueue(s, ts[0], ANY), ts[1..]);
      assert all == [Entry(ts[0], ANY)] + rest;
      assert (s.queue + [Entry(ts[0], ANY)]) + rest == s.queue + all;
    }
  }

  lemma AbsorbAppends(s: State, reply: Reply)
    ensures s.queue <= Absorb(s, reply).queue
  {
    if reply.Reply? {
      EnqueueAllAppends(s.(reg := reply.reg), reply.woken);
    }
  }

  // ---- shutdown of the base scheduler ----

  /** The steps of the base scheduler's own workers, and of the tasks they run, when no task yields READY. */
  predicate Quiet(a: Action) {
    match a
    case Take(_) => true
    case Start(_, _) => true
    case Idle(_) => true
    case LeaveIdle(_) => true
    case IdleDone(_) => true
    case StoreHold(_) => true
    case HoldDone(_) => true
    case Finish(_) => true
    case Throw(_) => true
    case Spawn(_, _) => true
    case Push(pusher, _) => pusher.Some?
    case StopAll => true
    case _ => false
  }

  predicate NoneYielding(s: State) {
    forall i :: 0 <= i < |s.workers| ==> !s.workers[i].pc.Requeue?
  }

  /** Whoever gave up idling did so when the scheduler could stop, and it still can. */
  predicate Closing(s: State) {
    NoneYielding(s) && forall i :: 0 <= i < |s.workers| ==> s.workers[i].idle == TERM ==> Stopping(s)
  }

  lemma NobodyBusy(s: State)
    requires Inv(s) && s.active == 0
    ensures forall i :: 0 <= i < |s.workers| ==>
              !s.workers[i].pc.Held? && !s.workers[i].pc.Run? && !s.workers[i].pc.Leaving?
  {
    forall i | 0 <= i < |s.workers|
      ensures !s.workers[i].pc.Held? && !s.workers[i].pc.Run? && !s.workers[i].pc.Leaving?
    {
      CountUpdate(s.workers, i, s.workers[i], Busy, 1);
    }
  }

  lemma QuietStopping(s: State, a: Action)
    requires Inv(s) && Allowed(s, a) && Quiet(a) && Stopping(s)
    ensures Stopping(Step(s, a))
  {
    NobodyBusy(s);
    if a.Take? {
      PickFirst(s.fibers, s.queue, a.w, 0);
    }
  }

  /** A step either leaves a worker alone or moves it somewhere harmless. */
  predicate Harmless(s: State, wk: Worker, wk': Worker) {
    (wk'.pc.Requeue? ==> wk.pc.Requeue?) && (wk'.idle == TERM ==> wk.idle == TERM || Stopping(s))
  }

  lemma StartWorker(s: State, w: nat, made: nat, i: nat)
    requires Possible(s, Start(w, made)) && i < |s.workers|
    ensures var s' := DoStart(s, w, s.workers[w].pc.task, made);
      |s'.workers| == |s.workers| && Harmless(s, s.workers[i], s'.workers[i])
  {
    hide SwapIn, Look, Stopping;
    var wk := s.workers[w];
    forall s1: State, g, wk': Worker | s1.workers == s.workers
      ensures SwapIn(s1, w, g, wk').workers == s.workers || SwapIn(s1, w, g, wk').workers == s.workers[w := wk'] {
      SwapInWorkers(s1, w, g, wk');
    }
  }

  lemma SwapInWorkers(s: State, w: nat, f: nat, wk: Worker)
    requires w < |s.workers|
    ensures SwapIn(s, w, f, wk).workers == s.workers || SwapIn(s, w, f, wk).workers == s.workers[w := wk]
  {
  }

  lemma QuietWorker(s: State, a: Action, i: nat)
    requires Possible(s, a) && Quiet(a) && i < |s.workers|
    ensures |Step(s, a).workers| == |s.workers| && Harmless(s, s.workers[i], Step(s, a).workers[i])
  {
    hide DoStart, DoHoldDone, DoTake, Noted, Harmless;
    match a {
      case Start(w, made) => StartWorker(s, w, made, i);
      case HoldDone(w) => HoldDoneWorker(s, w, i);
      case Take(w) => TakeWorker(s, w, i);
      case Push(_, entry) => NotedWorkers(s, entry.task, i);
      case _ => OtherWorker(s, a, i);
    }
  }

  lemma HoldDoneWorker(s: State, w: nat, i: nat)
    requires Possible(s, HoldDone(w)) && i < |s.workers|
    ensures |Step(s, HoldDone(w)).workers| == |s.workers| && Harmless(s, s.workers[i], Step(s, HoldDone(w)).workers[i])
  {
    hide Stopping;
  }

  lemma TakeWorker(s: State, w: nat, i: nat)
    requires Possible(s, Take(w)) && i < |s.workers|
    ensures |Step(s, Take(w)).workers| == |s.workers| && Harmless(s, s.workers[i], Step(s, Take(w)).workers[i])
  {
    hide Stopping, Pick;
  }

  lemma NotedWorkers(s: State, t: Task, i: nat)
    requires i < |s.workers|
    ensures Noted(s, t).workers == s.workers && Harmless(s, s.workers[i], s.workers[i])
  {
  }

  lemma OtherWorker(s: State, a: Action, i: nat)
    requires Possible(s, a) && Quiet(a) && i < |s.workers|
    requires !a.Start? && !a.HoldDone? && !a.Take? && !a.Push?
    ensures |Step(s, a).workers| == |s.workers| && Harmless(s, s.workers[i], Step(s, a).workers[i])
  {
  }

  lemma QuietSize(s: State, a: Action)
    requires Possible(s, a) && Quiet(a)
    ensures |Step(s, a).workers| == |s.workers|
  {
    hide Step, Possible, Quiet;
    if |s.workers| > 0 { QuietWorker(s, a, 0); } else { NobodySteps(s, a); }
  }

  lemma NobodySteps(s: State, a: Action)
    requires Possible(s, a) && Quiet(a) && |s.workers| == 0
    ensures |Step(s, a).workers| == 0
  {
  }

  lemma QuietStep(s: State, a: Action)
    requires Inv(s) && Closing(s) && Allowed(s, a) && Quiet(a)
    ensures Closing(Step(s, a)) && (Stopping(s) ==> Stopping(Step(s, a)))
  {
    if Stopping(s) {
      QuietStopping(s, a);
    }
    forall i | 0 <= i < |Step(s, a).workers|
      ensures !Step(s, a).workers[i].pc.Requeue? && (Step(s, a).workers[i].idle == TERM ==> Stopping(s))
    {
      QuietSize(s, a);
      QuietWorker(s, a, i);
    }
  }

  /**
   Once the flags are set and nobody is yielding, a quiet run keeps `stopping()` true as soon as it is true, and
   every worker that has left `run` leaves an empty queue and no active worker behind.
   */
  lemma {:induction false} ShutdownIsStable(s: State, steps: seq<Action>)
    requires Inv(s) && Closing(s) && IsRun(s, steps) && forall i :: 0 <= i < |steps| ==> Quiet(steps[i])
    ensures var s' := After(s, steps);
      && Inv(s') && (Stopping(s) ==> Stopping(s'))
      && forall i :: 0 <= i < |s'.workers| && s'.workers[i].pc.Left? ==> s'.queue == [] && s'.active == 0
    decreases |steps|
  {
    if steps == [] {
      forall i | 0 <= i < |s.workers| && s.workers[i].pc.Left? ensures Stopping(s) {
        assert WorkerOk(s, s.workers[i]);
      }
    } else {
      QuietStep(s, steps[0]);
      StepKeeps(s, steps[0]);
      ShutdownIsStable(Step(s, steps[0]), steps[1..]);
    }
  }

  /** Before the flags are set nobody has given up idling. */
  lemma {:induction false} NobodyLeavesBeforeStop(s: State, steps: seq<Action>)
    requires IsRun(s, steps) && StopAll !in steps && !s.stopping
    requires forall i :: 0 <= i < |s.workers| ==> s.workers[i].idle != TERM
    ensures var s' := After(s, steps);
      !s'.stopping && forall i :: 0 <= i < |s'.workers| ==> s'.workers[i].idle != TERM
    decreases |steps|
  {
    if steps != [] {
      WorkersBeforeStop(s, steps[0]);
      NobodyLeavesBeforeStop(Step(s, steps[0]), steps[1..]);
    }
  }

  lemma WorkersBeforeStop(s: State, a: Action)
    requires Possible(s, a) && a != StopAll && !s.stopping
    requires forall i :: 0 <= i < |s.workers| ==> s.workers[i].idle != TERM
    ensures var s' := Step(s, a); !s'.stopping && forall i :: 0 <= i < |s'.workers| ==> s'.workers[i].idle != TERM
  {
    if Quiet(a) {
      QuietSize(s, a);
      forall i | 0 <= i < |Step(s, a).workers| ensures Step(s, a).workers[i].idle != TERM { QuietWorker(s, a, i); }
    } else {
      OthersBeforeStop(s, a);
    }
  }

  lemma OthersBeforeStop(s: State, a: Action)
    requires Possible(s, a) && !Quiet(a) && !s.stopping
    requires forall i :: 0 <= i < |s.workers| ==> s.workers[i].idle != TERM
    ensures var s' := Step(s, a); !s'.stopping && forall i :: 0 <= i < |s'.workers| ==> s'.workers[i].idle != TERM
  {
    match a {
      case ParkCall(o, ev, cb, accept) => AbsorbLeavesWorkers(s, AddEvent(s.reg, o, ev, Call(cb), accept));
      case Del(o, ev, accept) => AbsorbLeavesWorkers(s, DelEvent(s.reg, o, ev, accept));
      case Cancel(o, ev, accept) => AbsorbLeavesWorkers(s, CancelEvent(s.reg, o, ev, accept));
      case CancelEvery(o, accept) => AbsorbLeavesWorkers(s, CancelAll(s.reg, o, accept));
      case Report(o, reported, error, accept) => AbsorbLeavesWorkers(s, Deliver(s.reg, o, reported, error, accept));
      case Park(w, o, ev, accept) =>
        AbsorbLeavesWorkers(s, AddEvent(s.reg, o, ev, Fib(s.workers[w].pc.fiber), accept));
      case _ =>
    }
  }

  lemma AbsorbLeavesWorkers(s: State, reply: Reply)
    ensures Absorb(s, reply).workers == s.workers && Absorb(s, reply).stopping == s.stopping
  {
    if reply.Reply? {
      EnqueueAllIs(s.(reg := reply.reg), reply.woken);
    }
  }

  /**
   Shutdown from the start: any run without `stop`, then the flags, then a quiet run. If no worker was between a
   yield and its push-back when the flags were set, every worker that leaves leaves nothing to do.
   */
  lemma StopLeavesNothing(s0: State, before: seq<Action>, quiet: seq<Action>)
    requires Initial(s0) && IsRun(s0, before) && StopAll !in before && NoneYielding(After(s0, before))
    requires var s := After(s0, before).(autoStop := true, stopping := true); IsRun(s, quiet)
    requires forall i :: 0 <= i < |quiet| ==> Quiet(quiet[i])
    ensures var s := After(After(s0, before).(autoStop := true, stopping := true), quiet);
      forall i :: 0 <= i < |s.workers| && s.workers[i].pc.Left? ==> s.queue == [] && s.active == 0
  {
    InitialInv(s0);
    RunKeeps(s0, before);
    NobodyLeavesBeforeStop(s0, before);
    StopAllKeeps(After(s0, before));
    ShutdownIsStable(After(s0, before).(autoStop := true, stopping := true), quiet);
  }

  /**
   A worker that yields READY lowers the active counter before it pushes its fiber back, so `stopping()` can be
   true and become false again: it is stable under the workers' own steps exactly when nobody is yielding.
   */
  lemma StoppingIsStableExactly(s: State)
    requires Inv(s) && Stopping(s)
    ensures (forall w: nat :: Possible(s, PushBack(w)) ==> Stopping(Step(s, PushBack(w)))) <==> NoneYielding(s)
    ensures forall a :: Allowed(s, a) && Quiet(a) ==> Stopping(Step(s, a))
  {
    if !NoneYielding(s) {
      var w :| 0 <= w < |s.workers| && s.workers[w].pc.Requeue?;
      assert Possible(s, PushBack(w)) && !Stopping(Step(s, PushBack(w)));
    }
    forall a | Allowed(s, a) && Quiet(a) ensures Stopping(Step(s, a)) {
      QuietStopping(s, a);
    }
  }

  /** A callback is scheduled and taken. */
  lemma CallTaken(s0: State, c: nat)
    requires Initial(s0) && s0.workers != []
    ensures var e := Entry(Call(c), ANY);
      && Allowed(s0, Push(None, e)) && Allowed(Step(s0, Push(None, e)), Take(0))
      && var s2 := Step(Step(s0, Push(None, e)), Take(0));
      && s2.workers == s0.workers[0 := s0.workers[0].(pc := Held(Call(c)))] && s2.queue == [] && s2.active == 1
      && s2.fibers == map[] && s2.waiting == {} && s2.fault.None? && s2.reg == s0.reg
  {
    var e := Entry(Call(c), ANY);
    var s1 := Step(s0, Push(None, e));
    assert s1.queue == [e];
    TakesFront(s1, 0);
  }

  lemma CallStarts(s: State, c: nat, made: nat)
    requires s.workers != [] && s.workers[0] == Worker(Held(Call(c)), None, INIT) && s.queue == [] && s.active == 1
    requires s.fibers == map[] && s.waiting == {} && s.fault.None?
    ensures Allowed(s, Start(0, made))
    ensures var s3 := Step(s, Start(0, made));
      && s3.workers == s.workers[0 := Worker(Run(made, true), Some(made), INIT)] && s3.queue == []
      && s3.active == 1 && s3.waiting == {} && s3.fault.None?
      && s3.fibers == map[made := Fiber(EXEC, Some(c))] && s3.reg == s.reg
  {
  }

  /** It yields READY, and then `stop` is called. */
  lemma CallYields(s3: State, made: nat)
    requires s3.workers != [] && s3.workers[0] == Worker(Run(made, true), Some(made), INIT) && s3.queue == []
    requires s3.active == 1 && s3.waiting == {} && s3.fault.None?
    ensures Allowed(s3, YieldReady(0)) && Allowed(Step(s3, YieldReady(0)), StopAll)
    ensures var s5 := Step(Step(s3, YieldReady(0)), StopAll);
      Stopping(s5) && Possible(s5, PushBack(0)) && !NoneYielding(s5) && !Stopping(Step(s5, PushBack(0)))
  {
    var s4 := Step(s3, YieldReady(0));
    assert s4.workers[0].pc == Requeue(made, true);
  }

  /** That does happen: from the start, a callback that yields READY just before `stop`. */
  lemma StoppingBeforePushBack(s0: State, c: nat, made: nat) returns (steps: seq<Action>)
    requires Initial(s0) && s0.workers != []
    ensures IsRun(s0, steps) && Stopping(After(s0, steps)) && Possible(After(s0, steps), PushBack(0))
    ensures !NoneYielding(After(s0, steps)) && !Stopping(Step(After(s0, steps), PushBack(0)))
  {
    hide IsRun, After, Step, Possible, Disciplined, Stopping, NoneYielding;
    var push := Push(None, Entry(Call(c), ANY));
    CallTaken(s0, c);
    var s1 := Step(s0, push);
    var s2 := Step(s1, Take(0));
    assert s2.workers[0] == Worker(Held(Call(c)), None, INIT);
    CallStarts(s2, c, made);
    CallYields(Step(s2, Start(0, made)), made);
    var s3 := Step(s2, Start(0, made));
    var s4 := Step(s3, YieldReady(0));
    var s5 := Step(s4, StopAll);
    AllowedFirst(s5, s5, []);
    AllowedFirst(s4, s5, [StopAll]);
    AllowedFirst(s3, s5, [YieldReady(0), StopAll]);
    AllowedFirst(s2, s5, [Start(0, made), YieldReady(0), StopAll]);
    AllowedFirst(s1, s5, [Take(0), Start(0, made), YieldReady(0), StopAll]);
    steps := [push, Take(0), Start(0, made), YieldReady(0), StopAll];
    AllowedFirst(s0, s5, steps);
  }

  lemma AllowedFirst(s: State, end: State, steps: seq<Action>)
    requires if steps == [] then end == s else
             Allowed(s, steps[0]) && IsRun(Step(s, steps[0]), steps[1..]) && After(Step(s, steps[0]), steps[1..]) == end
    ensures IsRun(s, steps) && After(s, steps) == end
  {
  }
}
