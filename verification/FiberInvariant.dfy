/** Every allowed step keeps the invariant of the step machine. */
module FiberInvariant {
  import opened Sums
  import opened Wrappers
  import opened EventRegistry
  import opened FiberMachine

  lemma {:induction false} PickFirst(fibers: map<nat, Fiber>, queue: seq<Entry>, w: int, from: nat)
    requires from <= |queue|
    ensures match Pick(fibers, queue, w, from)
      case None => forall j :: from <= j < |queue| ==> !Eligible(fibers, w, queue[j])
      case Some(k) => from <= k < |queue| && Eligible(fibers, w, queue[k])
                      && forall j :: from <= j < k ==> !Eligible(fibers, w, queue[j])
    decreases |queue| - from
  {
    if from < |queue| && !Eligible(fibers, w, queue[from]) {
      PickFirst(fibers, queue, w, from + 1);
    }
  }

  /** Replacing one worker changes the tally by that worker's share. */
  lemma Swap(s: State, s': State, w: nat, f: nat)
    requires w < |s.workers| == |s'.workers| && s'.workers == s.workers[w := s'.workers[w]]
    ensures var t, t', wk, wk' := TallyOf(s, f), TallyOf(s', f), s.workers[w], s'.workers[w];
      && t'.hand == t.hand - InHand(wk, f) + InHand(wk', f)
      && t'.run == t.run - Runs(wk, f) + Runs(wk', f)
      && t'.leaving == t.leaving - Leaves(wk, f) + Leaves(wk', f)
      && t'.kept == t.kept - Keeps(wk, f) + Keeps(wk', f)
    ensures InHand(s.workers[w], f) <= TallyOf(s, f).hand
    ensures Runs(s.workers[w], f) <= TallyOf(s, f).run
    ensures Leaves(s.workers[w], f) <= TallyOf(s, f).leaving
    ensures Keeps(s.workers[w], f) <= TallyOf(s, f).kept
  {
    CountUpdate(s.workers, w, s'.workers[w], InHand, f);
    CountUpdate(s.workers, w, s'.workers[w], Runs, f);
    CountUpdate(s.workers, w, s'.workers[w], Leaves, f);
    CountUpdate(s.workers, w, s'.workers[w], Keeps, f);
  }

  /** Nobody but possibly worker `w` carries `f`. */
  ghost predicate Alone(s: State, w: nat, f: nat) {
    forall j :: 0 <= j < |s.workers| && j != w ==> InHand(s.workers[j], f) == 0
  }

  lemma AloneIf(s: State, w: nat, f: nat)
    requires w < |s.workers| && Count(s.workers, InHand, f) <= InHand(s.workers[w], f)
    ensures Alone(s, w, f)
  {
    forall j | 0 <= j < |s.workers| && j != w ensures InHand(s.workers[j], f) == 0 {
      CountPair(s.workers, j, w, InHand, f);
    }
  }

  /** A running fiber is in nobody's hands. */
  lemma RunnerAlone(s: State, w: nat)
    requires Inv(s) && Running(s, w)
    ensures var f := s.workers[w].pc.fiber;
      Look(s, f).state == EXEC && f in s.fibers && Count(s.workers, Runs, f) == 1 && Alone(s, w, f)
  {
    var f := s.workers[w].pc.fiber;
    assert FiberOk(s, f);
    CountUpdate(s.workers, w, s.workers[w], Runs, f);
    forall j | 0 <= j < |s.workers| && j != w ensures InHand(s.workers[j], f) == 0 {
      assert WorkerOk(s, s.workers[j]);
    }
  }

  lemma {:induction false} EnqueueAllIs(s: State, ts: seq<Task>)
    ensures EnqueueAll(s, ts) == s.(queue := EnqueueAll(s, ts).queue, scheduled := s.scheduled + ts)
    ensures |EnqueueAll(s, ts).queue| == |s.queue| + |ts|
    decreases |ts|
  {
    if ts == [] {
      assert s.scheduled + ts == s.scheduled;
    } else {
      EnqueueAllIs(Enqueue(s, ts[0], ANY), ts[1..]);
      assert s.scheduled + ts == s.scheduled + [ts[0]] + ts[1..];
    }
  }

  lemma {:induction false} EnqueueAllCounts(s: State, ts: seq<Task>, f: nat, t: Task)
    ensures Count(EnqueueAll(s, ts).queue, Queued, f) == Count(s.queue, Queued, f) + Count(ts, SameTask, Fib(f))
    ensures Count(EnqueueAll(s, ts).queue, Asks, t) == Count(s.queue, Asks, t) + Count(ts, SameTask, t)
    decreases |ts|
  {
    if ts != [] {
      EnqueueAllCounts(Enqueue(s, ts[0], ANY), ts[1..], f, t);
      CountAppend(s.queue, Entry(ts[0], ANY), Queued, f);
      CountAppend(s.queue, Entry(ts[0], ANY), Asks, t);
    }
  }

  /** Scheduling tasks accounts for them; a fiber gains one token for each time it is named. */
  lemma EnqueueAllKeepsTasks(s: State, ts: seq<Task>)
    requires forall t :: TaskOk(s, t)
    ensures forall t :: TaskOk(EnqueueAll(s, ts), t)
  {
    EnqueueAllIs(s, ts);
    forall t ensures TaskOk(EnqueueAll(s, ts), t) {
      assert TaskOk(s, t);
      EnqueueAllCounts(s, ts, 0, t);
      CountConcat(s.scheduled, ts, SameTask, t);
    }
  }

  /** The registry stays consistent and conserves fibers; callbacks may be armed or forgotten. */
  ghost predicate KeepsFibers(r: Registry, reply: Reply) {
    reply.Reply? && Consistent(reply.reg) && forall f :: Moves(r, reply, Fib(f))
  }

  lemma AbsorbKeeps(s: State, reply: Reply)
    requires Inv(s) && KeepsFibers(s.reg, reply)
    ensures Inv(Absorb(s, reply))
  {
    var s1 := s.(reg := reply.reg);
    var s' := Absorb(s, reply);
    assert s' == EnqueueAll(s1, reply.woken);
    EnqueueAllIs(s1, reply.woken);
    forall t ensures TaskOk(s1, t) { assert TaskOk(s, t); }
    EnqueueAllKeepsTasks(s1, reply.woken);
    forall f ensures FiberOk(s', f) {
      assert FiberOk(s, f) && Moves(s.reg, reply, Fib(f));
      EnqueueAllCounts(s1, reply.woken, f, Fib(f));
    }
    forall i | 0 <= i < |s'.workers| ensures WorkerOk(s', s'.workers[i]) {
      assert WorkerOk(s, s.workers[i]);
    }
  }

  // ---- the run loop ----

  lemma PickInRange(s: State, w: nat)
    ensures var k := Pick(s.fibers, s.queue, w, 0);
      k.Some? ==> k.value < |s.queue| && !(s.queue[k.value].task.Fib? && Look(s, s.queue[k.value].task.id).state == EXEC)
  {
    PickFirst(s.fibers, s.queue, w, 0);
  }

  lemma TakeTally(s: State, w: nat, f: nat)
    requires FiberOk(s, f) && Possible(s, Take(w))
    ensures FiberOk(DoTake(s, w), f)
  {
    hide Pick, TallyOk, Runs, Leaves, Keeps;
    var s' := DoTake(s, w);
    PickInRange(s, w);
    TakerIdle(s, w, f);
    Swap(s, s', w, f);
    match Pick(s.fibers, s.queue, w, 0) {
      case None =>
      case Some(k) => CountRemove(s.queue, k, Queued, f);
    }
    assert TallyOf(s', f).Tokens() == TallyOf(s, f).Tokens();
    SameTally(TallyOf(s, f), TallyOf(s', f));
  }

  /** The worker at the head of its loop runs nothing, and taking does not change what it keeps. */
  lemma TakerIdle(s: State, w: nat, f: nat)
    requires Possible(s, Take(w))
    ensures var wk, wk' := s.workers[w], DoTake(s, w).workers[w];
      && Runs(wk, f) == Runs(wk', f) == 0 && Leaves(wk, f) == Leaves(wk', f) == 0 && Keeps(wk', f) == Keeps(wk, f)
  {
    hide Pick;
  }

  /** Wake-ups may change hands. */
  lemma SameTally(t: Tally, t': Tally)
    requires TallyOk(t) && t'.Tokens() == t.Tokens() && t'.parked == t.parked && t'.asleep == t.asleep
    requires t' == t.(queued := t'.queued, hand := t'.hand)
    ensures TallyOk(t')
  {
  }

  lemma TakeTask(s: State, w: nat, t: Task)
    requires TaskOk(s, t) && Possible(s, Take(w))
    ensures TaskOk(DoTake(s, w), t)
  {
    hide Pick;
    var s' := DoTake(s, w);
    PickInRange(s, w);
    CountUpdate(s.workers, w, s'.workers[w], Holds, t);
    match Pick(s.fibers, s.queue, w, 0) {
      case None =>
      case Some(k) => CountRemove(s.queue, k, Asks, t);
    }
  }

  lemma TakeBusy(s: State, w: nat)
    requires Possible(s, Take(w)) && s.active == Count(s.workers, Busy, 1)
    ensures var s' := DoTake(s, w); s'.active == Count(s'.workers, Busy, 1)
  {
    hide Pick;
    PickInRange(s, w);
    CountUpdate(s.workers, w, DoTake(s, w).workers[w], Busy, 1);
  }

  lemma TakeKeeps(s: State, w: nat)
    requires Inv(s) && Possible(s, Take(w))
    ensures Inv(Step(s, Take(w)))
  {
    hide FiberOk, TaskOk, Pick, Consistent;
    var s' := DoTake(s, w);
    PickInRange(s, w);
    TakeBusy(s, w);
    forall i | 0 <= i < |s'.workers| ensures WorkerOk(s', s'.workers[i]) {
      assert WorkerOk(s, s.workers[i]);
    }
    forall f ensures FiberOk(s', f) {
      assert FiberOk(s, f);
      TakeTally(s, w, f);
    }
    forall t ensures TaskOk(s', t) {
      assert TaskOk(s, t);
      TakeTask(s, w, t);
    }
  }

  /**
   Worker `w` leaves the queue's task `t` behind and enters fiber `f`: the fiber it held, the callback fiber it
   kept, or one it has just made. `s1` is the state after the fiber was prepared.
   */
  ghost predicate Enters(s: State, s1: State, w: nat, f: nat, wk: Worker, t: Task) {
    && w < |s.workers| && s.workers[w].pc == Held(t)
    && s1 == s.(fibers := s1.fibers, served := s.served + [t])
    && (forall g :: g in s1.fibers <==> g in s.fibers || g == f)
    && (forall g :: g in s.fibers && g != f ==> s1.fibers[g] == s.fibers[g])
    && Look(s, f).state != EXEC && Look(s1, f).state != EXEC && Count(s.workers, Leaves, f) == 0
    && (Dead(Look(s, f).state) ==> t.Call?)
    && wk.idle == s.workers[w].idle
    && match t
       case Fib(id) => f == id && f in s.fibers && wk == s.workers[w].(pc := Run(f, false))
       case Call(_) => wk == Worker(Run(f, true), Some(f), wk.idle)
                       && s.workers[w].cbFiber == (if f in s.fibers then Some(f) else None)
  }

  lemma SwapInOthers(s: State, s1: State, w: nat, f: nat, wk: Worker, t: Task, g: nat)
    requires FiberOk(s, g) && Enters(s, s1, w, f, wk, t) && g != f
    ensures FiberOk(SwapIn(s1, w, f, wk), g)
  {
    hide TallyOk;
    var s' := SwapIn(s1, w, f, wk);
    Swap(s, s', w, g);
    CountAppend(s.resumptions, f, SameFiber, g);
    assert TallyOf(s', g) == TallyOf(s, g);
  }

  lemma SwapInSelf(s: State, s1: State, w: nat, f: nat, wk: Worker, t: Task)
    requires FiberOk(s, f) && Enters(s, s1, w, f, wk, t)
    ensures FiberOk(SwapIn(s1, w, f, wk), f)
  {
    var s' := SwapIn(s1, w, f, wk);
    Swap(s, s', w, f);
    CountAppend(s.resumptions, f, SameFiber, f);
    assert TallyOf(s', f).queued == TallyOf(s, f).queued && TallyOf(s', f).asleep == TallyOf(s, f).asleep;
  }

  lemma SwapInTask(s: State, s1: State, w: nat, f: nat, wk: Worker, t: Task, u: Task)
    requires TaskOk(s, u) && Enters(s, s1, w, f, wk, t)
    ensures TaskOk(SwapIn(s1, w, f, wk), u)
  {
    CountUpdate(s.workers, w, wk, Holds, u);
    CountAppend(s.served, t, SameTask, u);
  }

  lemma SwapInKeeps(s: State, s1: State, w: nat, f: nat, wk: Worker, t: Task)
    requires Inv(s) && Enters(s, s1, w, f, wk, t)
    ensures Inv(SwapIn(s1, w, f, wk))
  {
    hide TaskOk, Consistent, FiberOk;
    var s' := SwapIn(s1, w, f, wk);
    CountUpdate(s.workers, w, wk, Busy, 1);
    assert FiberOk(s, f);
    EntersAlone(s, s1, w, f, wk, t);
    forall i | 0 <= i < |s'.workers| ensures WorkerOk(s', s'.workers[i]) {
      assert WorkerOk(s, s.workers[i]);
      assert i != w ==> InHand(s.workers[i], f) == 0;
    }
    forall g ensures FiberOk(s', g) {
      assert FiberOk(s, g);
      if g == f { SwapInSelf(s, s1, w, f, wk, t); } else { SwapInOthers(s, s1, w, f, wk, t, g); }
    }
    forall u ensures TaskOk(s', u) {
      assert TaskOk(s, u);
      SwapInTask(s, s1, w, f, wk, t, u);
    }
  }

  lemma EntersAlone(s: State, s1: State, w: nat, f: nat, wk: Worker, t: Task)
    requires FiberOk(s, f) && Enters(s, s1, w, f, wk, t)
    ensures Alone(s, w, f)
  {
    Swap(s, s.(workers := s.workers[w := wk]), w, f);
    AloneIf(s, w, f);
  }

  /** A step of worker `w` that only changes the worker, the counter and one fiber's record. */
  predicate Local(s: State, s': State, w: nat) {
    && w < |s.workers| == |s'.workers|
    && s' == s.(workers := s.workers[w := s'.workers[w]], fibers := s'.fibers, active := s'.active)
  }

  lemma LocalTask(s: State, s': State, w: nat, t: Task)
    requires TaskOk(s, t) && Local(s, s', w) && !s.workers[w].pc.Held? && !s'.workers[w].pc.Held?
    ensures TaskOk(s', t)
  {
    CountUpdate(s.workers, w, s'.workers[w], Holds, t);
  }

  /** A task that names a finished fiber is dropped. */
  predicate Drops(s: State, s': State, w: nat, f: nat) {
    && w < |s.workers| && s.workers[w].pc == Held(Fib(f)) && Dead(Look(s, f).state)
    && s' == Put(s.(served := s.served + [Fib(f)], active := s.active - 1), w, s.workers[w].(pc := Top))
  }

  lemma DropTally(s: State, s': State, w: nat, f: nat, g: nat)
    requires FiberOk(s, g) && Drops(s, s', w, f)
    ensures FiberOk(s', g)
  {
    Swap(s, s', w, g);
  }

  lemma DropTask(s: State, s': State, w: nat, f: nat, u: Task)
    requires TaskOk(s, u) && Drops(s, s', w, f)
    ensures TaskOk(s', u)
  {
    CountUpdate(s.workers, w, s'.workers[w], Holds, u);
    CountAppend(s.served, Fib(f), SameTask, u);
  }

  lemma DropKeeps(s: State, s': State, w: nat, f: nat)
    requires Inv(s) && Drops(s, s', w, f)
    ensures Inv(s')
  {
    hide FiberOk, TaskOk, Consistent;
    CountUpdate(s.workers, w, s'.workers[w], Busy, 1);
    forall i | 0 <= i < |s'.workers| ensures WorkerOk(s', s'.workers[i]) {
      assert WorkerOk(s, s.workers[i]);
    }
    forall g ensures FiberOk(s', g) {
      assert FiberOk(s, g);
      DropTally(s, s', w, f, g);
    }
    forall u ensures TaskOk(s', u) {
      assert TaskOk(s, u);
      DropTask(s, s', w, f, u);
    }
  }

  lemma HeldEnters(s: State, w: nat, f: nat)
    requires w < |s.workers| && s.workers[w].pc == Held(Fib(f)) && FiberOk(s, f) && WorkerOk(s, s.workers[w])
    requires !Dead(Look(s, f).state) && Count(s.workers, Leaves, f) == 0
    ensures Enters(s, s.(served := s.served + [Fib(f)]), w, f, s.workers[w].(pc := Run(f, false)), Fib(f))
  {
    Swap(s, s, w, f);
  }

  /** The callback fiber is the kept one, which is INIT, or a new one. */
  lemma CallEnters(s: State, w: nat, c: nat, g: nat)
    requires w < |s.workers| && s.workers[w].pc == Held(Call(c)) && FiberOk(s, g)
    requires if s.workers[w].cbFiber.Some? then g == s.workers[w].cbFiber.value else g !in s.fibers
    ensures s.workers[w].cbFiber.Some? ==> Look(s, g).state == INIT
    ensures Enters(s, s.(served := s.served + [Call(c)], fibers := s.fibers[g := Fiber(INIT, Some(c))]), w, g,
                   Worker(Run(g, true), Some(g), s.workers[w].idle), Call(c))
  {
    Swap(s, s, w, g);
  }

  lemma StartKeeps(s: State, w: nat, made: nat)
    requires Inv(s) && Possible(s, Start(w, made)) && Settled(s, Start(w, made))
    ensures Inv(Step(s, Start(w, made)))
  {
    hide Inv, FiberOk, SwapIn, Enters;
    var wk := s.workers[w];
    var t := wk.pc.task;
    var s1 := s.(served := s.served + [t]);
    match t {
      case Fib(f) =>
        InvParts(s, w, f);
        if Dead(Look(s, f).state) {
          DropKeeps(s, Step(s, Start(w, made)), w, f);
        } else {
          HeldEnters(s, w, f);
          SwapInKeeps(s, s1, w, f, wk.(pc := Run(f, false)), t);
        }
      case Call(c) =>
        var g := if wk.cbFiber.Some? then wk.cbFiber.value else made;
        InvParts(s, w, g);
        CallEnters(s, w, c, g);
        SwapInKeeps(s, s1.(fibers := s.fibers[g := Fiber(INIT, Some(c))]), w, g,
                    Worker(Run(g, true), Some(g), wk.idle), t);
    }
  }

  lemma InvParts(s: State, w: nat, f: nat)
    requires Inv(s) && w < |s.workers|
    ensures FiberOk(s, f) && WorkerOk(s, s.workers[w]) && s.fault.None?
  {
  }

  // ---- switching out ----

  /** Worker `w` switches out of its fiber; the fiber's new state says what is left to do. */
  ghost predicate Exits(s: State, s': State, w: nat) {
    && Local(s, s', w) && s.workers[w].pc.Run? && s'.active == s.active - 1
    && s'.workers[w].idle == s.workers[w].idle
    && var f, via := s.workers[w].pc.fiber, s.workers[w].pc.viaCb;
    && f in s'.fibers && s'.fibers == s.fibers[f := s'.fibers[f]]
    && match s'.fibers[f].state
       case READY => s'.workers[w] == s.workers[w].(pc := Requeue(f, via)) && f !in s.waiting
       case INIT => s'.workers[w] == s.workers[w].(pc := Top) && via && s'.fibers[f].body.None? && f !in s.waiting
       case EXEC => false
       case HOLD => false
       case _ => s'.workers[w] == s.workers[w].(pc := Top) && !via && f !in s.waiting
  }

  lemma ExitTally(s: State, s': State, w: nat, g: nat)
    requires Exits(s, s', w) && FiberOk(s, g) && WorkerOk(s, s.workers[w])
    ensures FiberOk(s', g)
  {
    Swap(s, s', w, g);
  }

  lemma ExitKeeps(s: State, s': State, w: nat)
    requires Inv(s) && Exits(s, s', w)
    ensures Inv(s')
  {
    hide FiberOk, TaskOk, Consistent;
    CountUpdate(s.workers, w, s'.workers[w], Busy, 1);
    RunnerAlone(s, w);
    forall i | 0 <= i < |s'.workers| ensures WorkerOk(s', s'.workers[i]) {
      assert WorkerOk(s, s.workers[i]);
      assert i != w ==> InHand(s.workers[i], s.workers[w].pc.fiber) == 0;
    }
    forall g ensures FiberOk(s', g) {
      assert FiberOk(s, g);
      ExitTally(s, s', w, g);
    }
    forall t ensures TaskOk(s', t) {
      assert TaskOk(s, t);
      LocalTask(s, s', w, t);
    }
  }

  /** Worker `w` stores HOLD in the fiber it is on. */
  ghost predicate Stores(s: State, s': State, w: nat) {
    && Local(s, s', w) && s.workers[w].pc.Run? && s'.active == s.active
    && var f, via := s.workers[w].pc.fiber, s.workers[w].pc.viaCb;
    && s'.workers[w] == s.workers[w].(pc := Leaving(f, via))
    && f in s.fibers && s'.fibers == s.fibers[f := s.fibers[f].(state := FiberState.HOLD)]
  }

  lemma StoreTally(s: State, s': State, w: nat, g: nat)
    requires Stores(s, s', w) && FiberOk(s, g) && WorkerOk(s, s.workers[w])
    ensures FiberOk(s', g)
  {
    Swap(s, s', w, g);
  }

  lemma StoreKeeps(s: State, w: nat)
    requires Inv(s) && Allowed(s, StoreHold(w))
    ensures Inv(Step(s, StoreHold(w)))
  {
    hide FiberOk, TaskOk, Consistent;
    var s' := Step(s, StoreHold(w));
    CountUpdate(s.workers, w, s'.workers[w], Busy, 1);
    RunnerAlone(s, w);
    forall i | 0 <= i < |s'.workers| ensures WorkerOk(s', s'.workers[i]) {
      assert WorkerOk(s, s.workers[i]);
      assert i != w ==> InHand(s.workers[i], s.workers[w].pc.fiber) == 0;
    }
    forall g ensures FiberOk(s', g) {
      assert FiberOk(s, g) && WorkerOk(s, s.workers[w]);
      StoreTally(s, s', w, g);
    }
    forall t ensures TaskOk(s', t) {
      assert TaskOk(s, t);
      LocalTask(s, s', w, t);
    }
  }

  /** A fiber that is being left is held, and nobody else is on its stack. */
  lemma LeaverAlone(s: State, w: nat)
    requires Inv(s) && w < |s.workers| && s.workers[w].pc.Leaving?
    ensures var f := s.workers[w].pc.fiber; Look(s, f).state == FiberState.HOLD && f in s.fibers
  {
    var f := s.workers[w].pc.fiber;
    assert FiberOk(s, f);
    CountUpdate(s.workers, w, s.workers[w], Leaves, f);
  }

  /** The switch is over: worker `w` lets go of a held fiber. */
  predicate LetsGo(s: State, s': State, w: nat) {
    && w < |s.workers| && s.workers[w].pc.Leaving?
    && var pc, wk := s.workers[w].pc, s.workers[w];
    s' == Put(s.(active := s.active - 1), w, wk.(pc := Top, cbFiber := DropIf(pc.viaCb, wk.cbFiber)))
  }

  lemma LetGoTally(s: State, s': State, w: nat, g: nat)
    requires LetsGo(s, s', w) && FiberOk(s, g) && WorkerOk(s, s.workers[w])
    ensures FiberOk(s', g)
  {
    Swap(s, s', w, g);
  }

  lemma HoldDoneIs(s: State, w: nat)
    requires Inv(s) && Possible(s, HoldDone(w))
    ensures LetsGo(s, Step(s, HoldDone(w)), w)
  {
    hide Inv;
    LeaverAlone(s, w);
    var f := s.workers[w].pc.fiber;
    assert s.fibers[f := s.fibers[f].(state := FiberState.HOLD)] == s.fibers;
  }

  lemma HoldDoneKeeps(s: State, w: nat)
    requires Inv(s) && Possible(s, HoldDone(w))
    ensures Inv(Step(s, HoldDone(w)))
  {
    hide FiberOk, TaskOk, Consistent, Step;
    var s' := Step(s, HoldDone(w));
    HoldDoneIs(s, w);
    CountUpdate(s.workers, w, s'.workers[w], Busy, 1);
    forall i | 0 <= i < |s'.workers| ensures WorkerOk(s', s'.workers[i]) {
      assert WorkerOk(s, s.workers[i]);
    }
    forall g ensures FiberOk(s', g) {
      assert FiberOk(s, g) && WorkerOk(s, s.workers[w]);
      LetGoTally(s, s', w, g);
    }
    forall t ensures TaskOk(s', t) {
      assert TaskOk(s, t);
      LocalTask(s, s', w, t);
    }
  }

  /** Worker `w` queues the fiber it carried. */
  predicate PushesBack(s: State, s': State, w: nat) {
    && w < |s.workers| && s.workers[w].pc.Requeue?
    && var pc, wk := s.workers[w].pc, s.workers[w];
    s' == Put(Enqueue(s, Fib(pc.fiber), ANY), w, wk.(pc := Top, cbFiber := DropIf(pc.viaCb, wk.cbFiber)))
  }

  lemma PushBackTally(s: State, s': State, w: nat, g: nat)
    requires PushesBack(s, s', w) && FiberOk(s, g) && WorkerOk(s, s.workers[w])
    ensures FiberOk(s', g)
  {
    Swap(s, s', w, g);
    CountAppend(s.queue, Entry(Fib(s.workers[w].pc.fiber), ANY), Queued, g);
  }

  lemma PushBackTask(s: State, s': State, w: nat, t: Task)
    requires PushesBack(s, s', w) && TaskOk(s, t)
    ensures TaskOk(s', t)
  {
    var u := Fib(s.workers[w].pc.fiber);
    CountUpdate(s.workers, w, s'.workers[w], Holds, t);
    CountAppend(s.queue, Entry(u, ANY), Asks, t);
    CountAppend(s.scheduled, u, SameTask, t);
  }

  lemma PushBackKeeps(s: State, w: nat)
    requires Inv(s) && Possible(s, PushBack(w))
    ensures Inv(Step(s, PushBack(w)))
  {
    hide FiberOk, TaskOk, Consistent;
    var s' := Step(s, PushBack(w));
    assert WorkerOk(s, s.workers[w]);
    CountUpdate(s.workers, w, s'.workers[w], Busy, 1);
    forall i | 0 <= i < |s'.workers| ensures WorkerOk(s', s'.workers[i]) {
      assert WorkerOk(s, s.workers[i]);
    }
    forall g ensures FiberOk(s', g) {
      assert FiberOk(s, g);
      PushBackTally(s, s', w, g);
    }
    forall t ensures TaskOk(s', t) {
      assert TaskOk(s, t);
      PushBackTask(s, s', w, t);
    }
  }

  // ---- idling ----

  lemma IdleKeeps(s: State, s': State, w: nat)
    requires Inv(s) && Local(s, s', w) && s'.fibers == s.fibers && s'.active == s.active
    requires s.workers[w].pc.NoTask? || s.workers[w].pc.Idling?
    requires s'.workers[w].cbFiber == s.workers[w].cbFiber && WorkerOk(s', s'.workers[w])
    requires s'.workers[w].pc.Top? || s'.workers[w].pc.Idling? || s'.workers[w].pc.Left?
    ensures Inv(s')
  {
    CountUpdate(s.workers, w, s'.workers[w], Busy, 1);
    forall i | 0 <= i < |s'.workers| ensures WorkerOk(s', s'.workers[i]) {
      assert WorkerOk(s, s.workers[i]);
    }
    forall g ensures FiberOk(s', g) {
      assert FiberOk(s, g);
      Swap(s, s', w, g);
    }
    forall t ensures TaskOk(s', t) {
      assert TaskOk(s, t);
      LocalTask(s, s', w, t);
    }
  }

  // ---- what running tasks and the outside do ----

  /** A step that leaves the workers alone, makes nobody run and keeps every fiber's state. */
  predicate Remote(s: State, s': State) {
    && s'.workers == s.workers && s'.active == s.active && s'.fault.None?
    && s'.fibers == s.fibers
  }

  lemma RemoteKeeps(s: State, s': State)
    requires Inv(s) && Remote(s, s') && Consistent(s'.reg)
    requires forall f :: FiberOk(s', f)
    requires forall t :: TaskOk(s', t)
    ensures Inv(s')
  {
    forall i | 0 <= i < |s'.workers| ensures WorkerOk(s', s'.workers[i]) {
      assert WorkerOk(s, s.workers[i]);
    }
  }

  lemma SameTasks(s: State, s': State)
    requires Inv(s) && s'.queue == s.queue && s'.workers == s.workers
    requires s'.scheduled == s.scheduled && s'.served == s.served
    ensures forall t :: TaskOk(s', t)
  {
    forall t ensures TaskOk(s', t) { assert TaskOk(s, t); }
  }

  /** A running fiber that did not wait arms one wake-up: it is parked or falls asleep. */
  predicate Registers(s: State, s': State, f: nat) {
    && f !in s.waiting && f in s.fibers && Look(s, f).state == EXEC
    && s' == s.(reg := s'.reg, asleep := s'.asleep, waiting := s.waiting + {f}, registrations := s.registrations + [f])
  }

  lemma RegisterTally(s: State, s': State, f: nat, g: nat)
    requires Registers(s, s', f) && FiberOk(s, g)
    requires TallyOf(s', g).parked + TallyOf(s', g).asleep
          == TallyOf(s, g).parked + TallyOf(s, g).asleep + (if g == f then 1 else 0)
    requires g != f ==> TallyOf(s', g).parked == TallyOf(s, g).parked && TallyOf(s', g).asleep == TallyOf(s, g).asleep
    ensures FiberOk(s', g)
  {
    CountAppend(s.registrations, f, SameFiber, g);
  }

  lemma ParkKeeps(s: State, w: nat, o: nat, ev: Event, accept: bool)
    requires Inv(s) && Allowed(s, Park(w, o, ev, accept))
    ensures Inv(Step(s, Park(w, o, ev, accept)))
  {
    hide FiberOk, TaskOk, AddEvent, Consistent;
    var f := s.workers[w].pc.fiber;
    var s' := DoPark(s, f, o, ev, accept);
    AddKeeps(s.reg, o, ev, Fib(f), accept);
    RunnerAlone(s, w);
    SameTasks(s, s');
    forall g ensures FiberOk(s', g) {
      assert FiberOk(s, g);
      if s' != s { RegisterTally(s, s', f, g); }
    }
    RemoteKeeps(s, s');
  }

  lemma ParkCallKeeps(s: State, o: nat, ev: Event, cb: nat, accept: bool)
    requires Inv(s) && Allowed(s, ParkCall(o, ev, cb, accept))
    ensures Inv(Step(s, ParkCall(o, ev, cb, accept)))
  {
    var reply := AddEvent(s.reg, o, ev, Call(cb), accept);
    AddKeeps(s.reg, o, ev, Call(cb), accept);
    forall f ensures Moves(s.reg, reply, Fib(f)) { assert Count([], SameTask, Fib(f)) == 0; }
    AbsorbKeeps(s, reply);
  }

  lemma SleepKeeps(s: State, w: nat)
    requires Inv(s) && Allowed(s, Sleep(w))
    ensures Inv(Step(s, Sleep(w)))
  {
    hide TaskOk, Consistent;
    var f := s.workers[w].pc.fiber;
    var s' := Step(s, Sleep(w));
    RunnerAlone(s, w);
    assert FiberOk(s, f) && f !in s.asleep;
    SameTasks(s, s');
    forall g ensures FiberOk(s', g) {
      assert FiberOk(s, g);
      RegisterTally(s, s', f, g);
    }
    RemoteKeeps(s, s');
  }

  lemma EnqueueTasks(s: State, t: Task, thread: int)
    requires forall u :: TaskOk(s, u)
    ensures forall u :: TaskOk(Enqueue(s, t, thread), u)
  {
    forall u ensures TaskOk(Enqueue(s, t, thread), u) {
      assert TaskOk(s, u);
      CountAppend(s.queue, Entry(t, thread), Asks, u);
      CountAppend(s.scheduled, t, SameTask, u);
    }
  }

  lemma WakeKeeps(s: State, f: nat)
    requires Inv(s) && Possible(s, Wake(f))
    ensures Inv(Step(s, Wake(f)))
  {
    hide FiberOk, TaskOk, Consistent;
    var s1 := s.(asleep := s.asleep - {f});
    SameTasks(s, s1);
    EnqueueTasks(s1, Fib(f), ANY);
    forall g ensures FiberOk(Step(s, Wake(f)), g) {
      assert FiberOk(s, g);
      WakeTally(s, f, g);
    }
    RemoteKeeps(s, Step(s, Wake(f)));
  }

  /** A sleeper's wake-up becomes its queue entry. */
  lemma WakeTally(s: State, f: nat, g: nat)
    requires FiberOk(s, g) && f in s.asleep
    ensures FiberOk(Enqueue(s.(asleep := s.asleep - {f}), Fib(f), ANY), g)
  {
    hide TallyOk;
    var s' := Enqueue(s.(asleep := s.asleep - {f}), Fib(f), ANY);
    CountAppend(s.queue, Entry(Fib(f), ANY), Queued, g);
    var t, t' := TallyOf(s, g), TallyOf(s', g);
    if g == f { assert t' == t.(queued := t.queued + 1, asleep := 0) && t.asleep == 1; } else { assert t' == t; }
    WakeOk(t, t', g == f);
  }

  lemma WakeOk(t: Tally, t': Tally, self: bool)
    requires TallyOk(t) && if self then t.asleep == 1 && t' == t.(queued := t.queued + 1, asleep := 0) else t' == t
    ensures TallyOk(t')
  {
  }

  lemma PushKeeps(s: State, pusher: Option<nat>, e: Entry)
    requires Inv(s) && Allowed(s, Push(pusher, e))
    ensures Inv(Step(s, Push(pusher, e)))
  {
    hide FiberOk, TaskOk, Consistent;
    var s1 := Noted(s, e.task);
    SameTasks(s, s1);
    EnqueueTasks(s1, e.task, e.thread);
    forall g ensures FiberOk(Step(s, Push(pusher, e)), g) {
      assert FiberOk(s, g);
      PushTally(s, e, g);
    }
    RemoteKeeps(s, Step(s, Push(pusher, e)));
  }

  lemma PushTally(s: State, e: Entry, g: nat)
    requires FiberOk(s, g)
    requires e.task == Fib(g) ==> g in s.fibers && Tokens(s, g) == 0 && TallyOf(s, g).kept == 0
    ensures FiberOk(Enqueue(Noted(s, e.task), e.task, e.thread), g)
  {
    hide TallyOk;
    var s1 := Noted(s, e.task);
    CountAppend(s1.queue, e, Queued, g);
    if e.task.Fib? { CountAppend(s.registrations, e.task.id, SameFiber, g); }
    var t, t' := TallyOf(s, g), TallyOf(Enqueue(s1, e.task, e.thread), g);
    var self := e.task == Fib(g);
    assert t'.queued == t.queued + Queued(e, g) && Queued(e, g) == if self then 1 else 0;
    if self && t.fiber.state == EXEC {
      assert t' == t.(queued := t.queued + 1, waiting := true, registered := t.registered + 1);
    } else {
      assert t' == t.(queued := t.queued + if self then 1 else 0);
    }
    PushOk(t, t', self);
  }

  lemma PushOk(t: Tally, t': Tally, self: bool)
    requires TallyOk(t) && (self ==> t.known && t.Tokens() == 0 && t.kept == 0)
    requires t' == if !self then t else if t.fiber.state != EXEC then t.(queued := t.queued + 1)
                   else t.(queued := t.queued + 1, waiting := true, registered := t.registered + 1)
    ensures TallyOk(t')
  {
  }

  lemma DelKeepsInv(s: State, o: nat, ev: Event, accept: bool)
    requires Inv(s) && Allowed(s, Del(o, ev, accept))
    ensures Inv(Step(s, Del(o, ev, accept)))
  {
    var reply := DelEvent(s.reg, o, ev, accept);
    DelKeeps(s.reg, o, ev, accept);
    forall f ensures Moves(s.reg, reply, Fib(f)) { assert Count([], SameTask, Fib(f)) == 0; }
    AbsorbKeeps(s, reply);
  }

  lemma GrowKeepsInv(s: State, size: nat)
    requires Inv(s) && Possible(s, Grow(size))
    ensures Inv(Step(s, Grow(size)))
  {
    var s' := Step(s, Grow(size));
    ResizeKeeps(s.reg, size);
    SameTasks(s, s');
    forall f ensures FiberOk(s', f) {
      assert FiberOk(s, f);
      assert ParkedIn(s'.reg, Fib(f)) == ParkedIn(s.reg, Fib(f));
    }
    RemoteKeeps(s, s');
  }

  lemma SpawnKeeps(s: State, f: nat, body: nat)
    requires Inv(s) && Possible(s, Spawn(f, body))
    ensures Inv(Step(s, Spawn(f, body)))
  {
    var s' := Step(s, Spawn(f, body));
    SameTasks(s, s');
    assert FiberOk(s, f);
    forall i | 0 <= i < |s'.workers| ensures WorkerOk(s', s'.workers[i]) {
      assert WorkerOk(s, s.workers[i]);
    }
    forall g ensures FiberOk(s', g) { assert FiberOk(s, g); }
  }

  lemma StopAllKeeps(s: State)
    requires Inv(s) && s.fault.None?
    ensures Inv(s.(autoStop := true, stopping := true))
  {
    var s' := s.(autoStop := true, stopping := true);
    SameTasks(s, s');
    forall g ensures FiberOk(s', g) { assert FiberOk(s, g); }
    RemoteKeeps(s, s');
  }

  // ---- all steps ----

  lemma SwitchKeeps(s: State, a: Action)
    requires Inv(s) && Allowed(s, a) && (a.YieldReady? || a.Finish? || a.Throw?)
    ensures Inv(Step(s, a))
  {
    hide Inv, Alone, WorkerOk, FiberOk, Exits, Step;
    RunnerAlone(s, a.w);
    RunnerVia(s, a.w);
    SwitchExits(s, a);
    ExitKeeps(s, Step(s, a), a.w);
  }

  lemma SwitchExits(s: State, a: Action)
    requires Allowed(s, a) && (a.YieldReady? || a.Finish? || a.Throw?)
    requires s.workers[a.w].pc.viaCb ==> s.workers[a.w].cbFiber == Some(s.workers[a.w].pc.fiber)
    ensures Exits(s, Step(s, a), a.w)
  {
  }

  lemma RunnerVia(s: State, w: nat)
    requires Inv(s) && Running(s, w)
    ensures s.workers[w].pc.viaCb ==> s.workers[w].cbFiber == Some(s.workers[w].pc.fiber)
  {
    assert WorkerOk(s, s.workers[w]);
  }

  lemma IdlingKeeps(s: State, a: Action)
    requires Inv(s) && Allowed(s, a) && (a.Idle? || a.LeaveIdle? || a.IdleDone?)
    ensures Inv(Step(s, a))
  {
    hide Inv;
    InvParts(s, a.w, 0);
    IdleKeeps(s, Step(s, a), a.w);
  }

  lemma CancelKeepsInv(s: State, a: Action)
    requires Inv(s) && Allowed(s, a) && (a.Cancel? || a.CancelEvery?)
    ensures Inv(Step(s, a))
  {
    hide CancelEvent, CancelAll, Consistent, Absorb, HandsOver;
    match a {
      case Cancel(o, ev, accept) => CancelKeeps(s.reg, o, ev, accept); AbsorbKeeps(s, CancelEvent(s.reg, o, ev, accept));
      case CancelEvery(o, accept) => CancelAllKeeps(s.reg, o, accept); AbsorbKeeps(s, CancelAll(s.reg, o, accept));
    }
  }

  lemma ReportKeeps(s: State, o: nat, reported: Mask, error: bool, accept: bool)
    requires Inv(s) && Allowed(s, Report(o, reported, error, accept))
    ensures Inv(Step(s, Report(o, reported, error, accept)))
  {
    hide Deliver, Consistent, Absorb, HandsOver;
    DeliverExactly(s.reg, o, reported, error, accept);
    AbsorbKeeps(s, Deliver(s.reg, o, reported, error, accept));
  }

  /** Every allowed step, of any worker, any client or the operating system, keeps the invariant. */
  lemma StepKeeps(s: State, a: Action)
    requires Inv(s) && Allowed(s, a)
    ensures Inv(Step(s, a))
  {
    hide Inv, Step, Possible, Disciplined;
    match a {
      case Take(w) => TakeKeeps(s, w);
      case Start(w, made) => StartKeeps(s, w, made);
      case Idle(_) => IdlingKeeps(s, a);
      case LeaveIdle(_) => IdlingKeeps(s, a);
      case IdleDone(_) => IdlingKeeps(s, a);
      case StoreHold(w) => StoreKeeps(s, w);
      case HoldDone(w) => HoldDoneKeeps(s, w);
      case YieldReady(_) => SwitchKeeps(s, a);
      case PushBack(w) => PushBackKeeps(s, w);
      case Finish(_) => SwitchKeeps(s, a);
      case Throw(_) => SwitchKeeps(s, a);
      case Park(w, o, ev, accept) => ParkKeeps(s, w, o, ev, accept);
      case Sleep(w) => SleepKeeps(s, w);
      case Wake(f) => WakeKeeps(s, f);
      case ParkCall(o, ev, cb, accept) => ParkCallKeeps(s, o, ev, cb, accept);
      case Del(o, ev, accept) => DelKeepsInv(s, o, ev, accept);
      case Cancel(_, _, _) => CancelKeepsInv(s, a);
      case CancelEvery(_, _) => CancelKeepsInv(s, a);
      case Report(o, reported, error, accept) => ReportKeeps(s, o, reported, error, accept);
      case Grow(size) => GrowKeepsInv(s, size);
      case Spawn(f, body) => SpawnKeeps(s, f, body);
      case Push(pusher, e) => PushKeeps(s, pusher, e);
      case StopAll => StopKeeps(s);
    }
  }

  lemma StopKeeps(s: State)
    requires Inv(s) && Allowed(s, StopAll)
    ensures Inv(Step(s, StopAll))
  {
    hide Inv;
    InvFault(s);
    StopAllKeeps(s);
  }

  lemma InvFault(s: State)
    requires Inv(s)
    ensures s.fault.None?
  {
  }
}
